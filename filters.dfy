/** The filter pipeline (main.py:91-113). The source states it as SQL over
    a table whose columns all hold TEXT, because every cell is a string by
    then. Under SQLite's comparison-affinity rules the numeric literals in
    `NOT IN (0, 1)` and `NOT BETWEEN 0 AND 10` take TEXT affinity from the
    column, so both tests compare strings; the date window is a string
    comparison too. Here each WHERE clause is a predicate on a row and each
    query a filter that keeps the surviving rows in their order. */
module Filters {
  import opened Wrappers
  import opened Text
  import opened Extraction

  const DateColumn := "Date"
  const PriceColumn := "Purchase price"
  const PerSqMColumn := "Per sq. M."
  const DeedTypeColumn := "Type of document"
  const SurveyNoColumn := "Survey No."

  const StartDate := "2020-05-02"
  const EndDate := "2023-05-02"

  /** Deed types that are not sales, spelled as they appear in the data. */
  const ExcludedDeeds: seq<string> :=
    ["Conveyance deed", "Convens ded", "65 Missing Letters", "65-Church letter letter", "Conjunction", "Contract"]

  const MaxInt64: int := 0x7fff_ffff_ffff_ffff
  const MinInt64: int := -0x8000_0000_0000_0000

  /** Where each column the queries name sits in a row. */
  datatype Schema = Schema(date: nat, price: nat, perSqM: nat, deed: nat, survey: nat)

  /** The rows `keep` accepts, in their original order. */
  function Filter<T>(s: seq<T>, keep: T -> bool): (r: seq<T>)
    ensures |r| <= |s|
    ensures forall k :: 0 <= k < |r| ==> keep(r[k])
  {
    if |s| == 0 then []
    else (if keep(s[0]) then [s[0]] else []) + Filter(s[1..], keep)
  }

  /** The survivors are exactly the accepted rows: nothing is invented and
      nothing accepted is lost. */
  lemma {:induction false} FilterMembers<T>(s: seq<T>, keep: T -> bool)
    ensures forall x :: x in Filter(s, keep) <==> x in s && keep(x)
  {
    if |s| > 0 {
      FilterMembers(s[1..], keep);
      assert forall x :: x in s <==> x == s[0] || x in s[1..];
    }
  }

  /** Two tests that agree on every row filter alike. */
  lemma {:induction false} FilterSameTest<T>(s: seq<T>, p: T -> bool, q: T -> bool)
    requires forall x :: p(x) == q(x)
    ensures Filter(s, p) == Filter(s, q)
  {
    if |s| > 0 {
      FilterSameTest(s[1..], p, q);
    }
  }

  /** Filtering works piece by piece: the survivors of `a + b` are those of
      `a` followed by those of `b`, so relative order is kept. */
  lemma {:induction false} FilterConcat<T>(a: seq<T>, b: seq<T>, keep: T -> bool)
    ensures Filter(a + b, keep) == Filter(a, keep) + Filter(b, keep)
  {
    if |a| == 0 {
      assert a + b == b;
    } else {
      var head := if keep(a[0]) then [a[0]] else [];
      FilterConcat(a[1..], b, keep);
      assert (a + b)[0] == a[0];
      assert (a + b)[1..] == a[1..] + b;
      calc {
        Filter(a + b, keep);
        head + Filter(a[1..] + b, keep);
        head + (Filter(a[1..], keep) + Filter(b, keep));
        (head + Filter(a[1..], keep)) + Filter(b, keep);
        Filter(a, keep) + Filter(b, keep);
      }
    }
  }

  /** A filter keeps every row when it accepts every row. */
  lemma {:induction false} FilterKeepsAll<T>(s: seq<T>, keep: T -> bool)
    requires forall k :: 0 <= k < |s| ==> keep(s[k])
    ensures Filter(s, keep) == s
  {
    if |s| > 0 {
      FilterKeepsAll(s[1..], keep);
      assert [s[0]] + s[1..] == s;
    }
  }

  /** Applying the same filter again removes nothing more. */
  lemma FilterIdempotent<T>(s: seq<T>, keep: T -> bool)
    ensures Filter(Filter(s, keep), keep) == Filter(s, keep)
  {
    FilterKeepsAll(Filter(s, keep), keep);
  }

  /** The conjunction of two tests. */
  function Both<T>(p: T -> bool, q: T -> bool): T -> bool {
    x => p(x) && q(x)
  }

  /** Two filters in a row keep what their conjunction keeps. */
  lemma {:induction false} FilterCompose<T>(s: seq<T>, p: T -> bool, q: T -> bool)
    ensures Filter(Filter(s, p), q) == Filter(s, Both(p, q))
  {
    if |s| > 0 {
      FilterCompose(s[1..], p, q);
      FilterConcat(if p(s[0]) then [s[0]] else [], Filter(s[1..], p), q);
    }
  }

  // ---------------------------------------------------------------------
  // The three value tests of the first, second and third query.

  /** `Date BETWEEN '2020-05-02' AND '2023-05-02'`, a string comparison. */
  predicate InDateWindow(v: string) {
    LexLe(StartDate, v) && LexLe(v, EndDate)
  }

  /** `Purchase price NOT IN (0, 1)` against TEXT: neither "0" nor "1". */
  predicate NotSentinelPrice(v: string) {
    v != "0" && v != "1"
  }

  /** `Per sq. M. NOT BETWEEN 0 AND 10` against TEXT: outside ["0", "10"]
      in string order. */
  predicate OutsideLowBand(v: string) {
    !(LexLe("0", v) && LexLe(v, "10"))
  }

  /** `Type of document NOT IN (...)`: exact, case-sensitive match. */
  predicate NotExcludedDeed(v: string) {
    v !in ExcludedDeeds
  }

  /** First query: the date window. */
  predicate DateStage(s: Schema, row: Row) {
    s.date < |row| && InDateWindow(row[s.date])
  }

  /** Second query: the price sentinels and the low per-unit band. */
  predicate PriceStage(s: Schema, row: Row) {
    s.price < |row| && s.perSqM < |row| && NotSentinelPrice(row[s.price]) && OutsideLowBand(row[s.perSqM])
  }

  /** Third query: the excluded deed types. */
  predicate DeedStage(s: Schema, row: Row) {
    s.deed < |row| && NotExcludedDeed(row[s.deed])
  }

  /** All three tests at once. */
  predicate PassesStages(s: Schema, row: Row) {
    DateStage(s, row) && PriceStage(s, row) && DeedStage(s, row)
  }

  function DateTest(s: Schema): Row -> bool {
    r => DateStage(s, r)
  }

  function PriceTest(s: Schema): Row -> bool {
    r => PriceStage(s, r)
  }

  function DeedTest(s: Schema): Row -> bool {
    r => DeedStage(s, r)
  }

  function StagesTest(s: Schema): Row -> bool {
    r => PassesStages(s, r)
  }

  /** The three nested queries, each run on the survivors of the one before. */
  function FilterStages(rows: seq<Row>, s: Schema): seq<Row> {
    Filter(Filter(Filter(rows, DateTest(s)), PriceTest(s)), DeedTest(s))
  }

  /** A row survives the nested queries exactly when it passes all three
      tests; the survivors keep their order and contents. */
  lemma FilterStagesConjunction(rows: seq<Row>, s: Schema)
    ensures FilterStages(rows, s) == Filter(rows, StagesTest(s))
  {
    var datePrice := Both(DateTest(s), PriceTest(s));
    var all := Both(datePrice, DeedTest(s));
    forall r ensures all(r) == StagesTest(s)(r) {
      assert datePrice(r) == (DateStage(s, r) && PriceStage(s, r));
    }
    calc {
      FilterStages(rows, s);
      Filter(Filter(Filter(rows, DateTest(s)), PriceTest(s)), DeedTest(s));
      { FilterCompose(rows, DateTest(s), PriceTest(s)); }
      Filter(Filter(rows, datePrice), DeedTest(s));
      { FilterCompose(rows, datePrice, DeedTest(s)); }
      Filter(rows, all);
      { FilterSameTest(rows, all, StagesTest(s)); }
      Filter(rows, StagesTest(s));
    }
  }

  /** Reapplying the three queries to their own output removes nothing more. */
  lemma FilterStagesIdempotent(rows: seq<Row>, s: Schema)
    ensures FilterStages(FilterStages(rows, s), s) == FilterStages(rows, s)
  {
    FilterStagesConjunction(rows, s);
    FilterStagesConjunction(FilterStages(rows, s), s);
    FilterIdempotent(rows, StagesTest(s));
  }

  /** Under TEXT comparison "5" and "100" lie outside the low band while
      "1.5" and "1,000" fall inside it. */
  lemma LowBandExamples()
    ensures OutsideLowBand("5") && OutsideLowBand("100") && OutsideLowBand("")
    ensures !OutsideLowBand("1.5") && !OutsideLowBand("1,000") && !OutsideLowBand("0") && !OutsideLowBand("10")
  {
    assert LexLe("10", "100");
    assert !LexLe("100", "10");
    assert LexLe("1.5", "10");
    assert LexLe("1,000", "10");
  }

  // ---------------------------------------------------------------------
  // Survey-number exclusion (main.py:105-113).

  /** The pieces of the caller's text: spaces turned into commas, then split
      on commas. */
  function ExclusionPieces(text: string): seq<string> {
    Split(ReplaceChar(text, ' ', ','), ',')
  }

  /** Every piece with its surrounding whitespace stripped. */
  function StrippedPieces(text: string): (stripped: seq<string>)
    ensures |stripped| == |ExclusionPieces(text)|
    ensures forall j :: 0 <= j < |stripped| ==> stripped[j] == Strip(ExclusionPieces(text)[j])
  {
    var pieces := ExclusionPieces(text);
    seq(|pieces|, j requires 0 <= j < |pieces| => Strip(pieces[j]))
  }

  /** `[num.strip() for num in pieces if num.strip().isdigit()]`: the
      stripped pieces that are non-empty runs of digits, in order. */
  function ExcludedTokens(text: string): (tokens: seq<string>)
    ensures forall k :: 0 <= k < |tokens| ==> AllDigits(tokens[k])
  {
    Filter(StrippedPieces(text), AllDigits)
  }

  /** A text is a token exactly when it is a stripped piece made of digits. */
  lemma ExcludedTokensMembers(text: string)
    ensures forall t :: t in ExcludedTokens(text) <==> t in StrippedPieces(text) && AllDigits(t)
  {
    FilterMembers(StrippedPieces(text), AllDigits);
  }

  /** The numbers the SQL list `NOT IN (n1, n2, ...)` holds. */
  function ExcludedNumbers(text: string): set<int> {
    var tokens := ExcludedTokens(text);
    set k | 0 <= k < |tokens| :: DigitsValue(tokens[k])
  }

  /** A token's number is excluded, and every excluded number comes from a
      token; no tokens means no exclusion. */
  lemma ExcludedNumbersFromTokens(text: string)
    ensures forall k :: 0 <= k < |ExcludedTokens(text)| ==>
      DigitsValue(ExcludedTokens(text)[k]) in ExcludedNumbers(text)
    ensures forall x :: x in ExcludedNumbers(text) ==>
      exists k :: 0 <= k < |ExcludedTokens(text)| && DigitsValue(ExcludedTokens(text)[k]) == x
    ensures ExcludedTokens(text) == [] <==> ExcludedNumbers(text) == {}
  {
    var tokens := ExcludedTokens(text);
    if tokens != [] {
      assert DigitsValue(tokens[0]) in ExcludedNumbers(text);
    }
  }

  /** SQLite skips these before reading a number. */
  predicate IsSqlSpace(c: char) {
    c == ' ' || c == '\t' || c == '\n' || c == '\U{0b}' || c == '\U{0c}' || c == '\r'
  }

  /** The text after its leading run of SQL whitespace. */
  function SkipSqlSpace(s: string): (r: string)
    ensures |r| <= |s|
    ensures forall i :: 0 <= i < |s| - |r| ==> IsSqlSpace(s[i])
    ensures |r| > 0 ==> !IsSqlSpace(r[0])
  {
    if |s| > 0 && IsSqlSpace(s[0]) then SkipSqlSpace(s[1..]) else s
  }

  /** What is left after skipping is the end of the text: only the leading
      whitespace is dropped. */
  lemma {:induction false} SkipSqlSpaceSuffix(s: string)
    ensures SkipSqlSpace(s) == s[|s| - |SkipSqlSpace(s)|..]
  {
    if |s| > 0 && IsSqlSpace(s[0]) {
      SkipSqlSpaceSuffix(s[1..]);
      assert s[1..][|s| - 1 - |SkipSqlSpace(s[1..])|..] == s[|s| - |SkipSqlSpace(s)|..];
    }
  }

  /** The longest run of digits at the start of `s`. */
  function LeadingDigits(s: string): (d: string)
    ensures |d| <= |s| && d == s[..|d|]
    ensures forall i :: 0 <= i < |d| ==> IsAsciiDigit(d[i])
    ensures |d| < |s| ==> !IsAsciiDigit(s[|d|])
  {
    if |s| > 0 && IsAsciiDigit(s[0]) then [s[0]] + LeadingDigits(s[1..]) else []
  }

  /** Saturation to the signed 64-bit range. */
  function Clamp64(v: int): (r: int)
    ensures MinInt64 <= r <= MaxInt64
    ensures MinInt64 <= v <= MaxInt64 ==> r == v
    ensures v > MaxInt64 ==> r == MaxInt64
    ensures v < MinInt64 ==> r == MinInt64
  {
    if v > MaxInt64 then MaxInt64 else if v < MinInt64 then MinInt64 else v
  }

  /** The text after an optional leading sign. */
  function Unsigned(u: string): (r: string)
    ensures |u| > 0 && (u[0] == '-' || u[0] == '+') ==> r == u[1..]
    ensures |u| == 0 || (u[0] != '-' && u[0] != '+') ==> r == u
  {
    if |u| > 0 && (u[0] == '-' || u[0] == '+') then u[1..] else u
  }

  /** The value of the digits that follow the optional sign. */
  function CastMagnitude(u: string): nat {
    DigitsValue(LeadingDigits(Unsigned(u)))
  }

  /** `CAST(t AS INTEGER)`: leading spaces skipped, an optional sign, the
      longest prefix of digits (0 if there is none), the rest ignored, and
      the value clamped to 64 bits. */
  function SqlCastInteger(t: string): (v: int)
    ensures MinInt64 <= v <= MaxInt64
  {
    CastUnspacedText(SkipSqlSpace(t))
  }

  /** The cast of text that has had its leading whitespace skipped. */
  function CastUnspacedText(u: string): int {
    Clamp64(if |u| > 0 && u[0] == '-' then 0 - CastMagnitude(u) else CastMagnitude(u))
  }

  lemma {:induction false} LeadingDigitsOfDigits(t: string)
    requires forall i :: 0 <= i < |t| ==> IsAsciiDigit(t[i])
    ensures LeadingDigits(t) == t
  {
    if |t| > 0 {
      LeadingDigitsOfDigits(t[1..]);
      assert [t[0]] + t[1..] == t;
    }
  }

  /** Leading SQL whitespace does not change what is left after skipping. */
  lemma {:induction false} SkipSqlSpaceAfter(sp: string, x: string)
    requires forall i :: 0 <= i < |sp| ==> IsSqlSpace(sp[i])
    ensures SkipSqlSpace(sp + x) == SkipSqlSpace(x)
  {
    if |sp| > 0 {
      assert (sp + x)[0] == sp[0] && (sp + x)[1..] == sp[1..] + x;
      SkipSqlSpaceAfter(sp[1..], x);
    } else {
      assert sp + x == x;
    }
  }

  /** Digits followed by a non-digit (or nothing): the leading digits are
      exactly those digits. */
  lemma {:induction false} LeadingDigitsThen(digits: string, rest: string)
    requires forall i :: 0 <= i < |digits| ==> IsAsciiDigit(digits[i])
    requires |rest| == 0 || !IsAsciiDigit(rest[0])
    ensures LeadingDigits(digits + rest) == digits
  {
    if |digits| > 0 {
      assert (digits + rest)[1..] == digits[1..] + rest;
      LeadingDigitsThen(digits[1..], rest);
      assert [digits[0]] + digits[1..] == digits;
    }
  }

  /** The value of a cast: after SQL whitespace, an optional sign and a run
      of digits spelling `m`, whatever follows is ignored, and the signed
      value is clamped to 64 bits. */
  lemma CastOfSigned(sp: string, sign: string, digits: string, rest: string, m: nat)
    requires forall i :: 0 <= i < |sp| ==> IsSqlSpace(sp[i])
    requires sign == "" || sign == "+" || sign == "-"
    requires forall i :: 0 <= i < |digits| ==> IsAsciiDigit(digits[i])
    requires DigitsValue(digits) == m
    requires |rest| == 0 || !IsAsciiDigit(rest[0])
    requires sign + digits == "" && |rest| > 0 ==>
      !IsSqlSpace(rest[0]) && rest[0] != '+' && rest[0] != '-'
    ensures SqlCastInteger(sp + (sign + digits + rest)) == Clamp64(if sign == "-" then 0 - m else m)
  {
    var x := sign + digits + rest;
    CastSkipsSpace(sp, x);
    UnspacedParts(sign, digits, rest);
    CastOfUnspaced(x);
    CastFromParts(x, sign == "-", m);
  }

  /** Leading SQL whitespace does not change a cast. */
  lemma CastSkipsSpace(sp: string, x: string)
    requires forall i :: 0 <= i < |sp| ==> IsSqlSpace(sp[i])
    ensures SqlCastInteger(sp + x) == SqlCastInteger(x)
  {
    SkipSqlSpaceAfter(sp, x);
  }

  /** Text that does not start with SQL whitespace casts as it stands. */
  lemma CastOfUnspaced(x: string)
    requires |x| > 0 ==> !IsSqlSpace(x[0])
    ensures SqlCastInteger(x) == CastUnspacedText(x)
  {
    SkipSqlSpaceNone(x);
  }

  /** The cast of unspaced text from its sign and its magnitude. */
  lemma CastFromParts(x: string, negative: bool, m: nat)
    requires (|x| > 0 && x[0] == '-') == negative
    requires CastMagnitude(x) == m
    ensures CastUnspacedText(x) == Clamp64(if negative then 0 - m else m)
  {
  }

  /** Sign, digits and rest: the text does not start with whitespace, its
      leading digits after the sign are exactly `digits`, and it is negative
      exactly when the sign is a minus. */
  lemma UnspacedParts(sign: string, digits: string, rest: string)
    requires sign == "" || sign == "+" || sign == "-"
    requires forall i :: 0 <= i < |digits| ==> IsAsciiDigit(digits[i])
    requires |rest| == 0 || !IsAsciiDigit(rest[0])
    requires sign + digits == "" && |rest| > 0 ==>
      !IsSqlSpace(rest[0]) && rest[0] != '+' && rest[0] != '-'
    ensures var x := sign + digits + rest;
      (|x| > 0 ==> !IsSqlSpace(x[0])) && LeadingDigits(Unsigned(x)) == digits
      && (|x| > 0 && x[0] == '-' <==> sign == "-")
  {
    var x := sign + digits + rest;
    var u := digits + rest;
    LeadingDigitsThen(digits, rest);
    if |sign| == 0 {
      assert x == u;
      if |digits| > 0 {
        assert u[0] == digits[0];
        assert IsAsciiDigit(u[0]);
      } else if |rest| > 0 {
        assert u[0] == rest[0];
      }
      assert |u| == 0 || (u[0] != '-' && u[0] != '+' && !IsSqlSpace(u[0]));
      assert Unsigned(x) == u;
    } else {
      assert x[0] == sign[0] && x[1..] == u;
      assert Unsigned(x) == u;
    }
  }

  /** Text that does not start with SQL whitespace has none to skip. */
  lemma SkipSqlSpaceNone(t: string)
    requires |t| > 0 ==> !IsSqlSpace(t[0])
    ensures SkipSqlSpace(t) == t
  {
  }

  /** Text that starts with a digit, or is empty, has no space to skip. */
  lemma SkipSqlSpaceDigitLed(t: string)
    requires |t| > 0 ==> IsAsciiDigit(t[0])
    ensures SkipSqlSpace(t) == t
  {
    if |t| > 0 {
      assert !IsSqlSpace(t[0]);
    }
  }

  /** The decimal rendering of a number that fits in 64 bits casts back
      to that number. */
  lemma CastOfNat(n: nat)
    requires n <= MaxInt64
    ensures SqlCastInteger(NatToString(n)) == n
  {
    var t := NatToString(n);
    NatToStringRoundTrip(n);
    LeadingDigitsOfDigits(t);
    assert t[0] != '-' && t[0] != '+';
    assert Unsigned(t) == t;
    assert CastMagnitude(t) == n;
    SkipSqlSpaceDigitLed(t);
    CastWithoutSign(t, n);
  }

  /** Text with nothing to skip and no minus sign casts to its magnitude
      when that fits in 64 bits. */
  lemma CastWithoutSign(t: string, m: nat)
    requires SkipSqlSpace(t) == t
    requires |t| == 0 || t[0] != '-'
    requires CastMagnitude(t) == m <= MaxInt64
    ensures SqlCastInteger(t) == m
  {
  }

  /** The text before the first `/`: `SUBSTR(v, 1, INSTR(v, '/') - 1)`. */
  function SurveyPrefix(v: string): string {
    SubstrFromStart(v, Instr(v, '/') - 1)
  }

  /** The exclusion condition, or no condition at all when the list is empty. */
  predicate SurveyCondition(v: string, excluded: set<int>) {
    excluded == {} || SqlCastInteger(SurveyPrefix(v)) !in excluded
  }

  /** The survey query's WHERE clause as written: a row without `/` with the
      condition, or a row with `/` with the condition. */
  predicate SurveyClause(v: string, excluded: set<int>) {
    (Instr(v, '/') == 0 && SurveyCondition(v, excluded)) || (Instr(v, '/') > 0 && SurveyCondition(v, excluded))
  }

  predicate SurveyStage(s: Schema, excluded: set<int>, row: Row) {
    s.survey < |row| && SurveyClause(row[s.survey], excluded)
  }

  function SurveyTest(s: Schema, excluded: set<int>): Row -> bool {
    r => SurveyStage(s, excluded, r)
  }

  /** The survey query over the survivors of the first three. */
  function FilterSurvey(rows: seq<Row>, s: Schema, excluded: set<int>): seq<Row> {
    Filter(rows, SurveyTest(s, excluded))
  }

  /** The truth table of the survey clause. The two branches of the OR
      carry the same condition, so the clause is that condition: a row with
      `/` is dropped iff the integer read from the text before the first `/`
      is excluded, and a row without `/` (whose prefix is empty and casts to
      0) is dropped iff 0 is excluded. */
  lemma SurveyClauseTruthTable(v: string, excluded: set<int>)
    ensures SurveyClause(v, excluded) <==> SurveyCondition(v, excluded)
    ensures '/' in v ==> (!SurveyClause(v, excluded) <==>
      SqlCastInteger(v[..Instr(v, '/') - 1]) in excluded)
    ensures '/' !in v ==> (!SurveyClause(v, excluded) <==> 0 in excluded)
  {
    var k := Instr(v, '/');
    if '/' !in v {
      assert SurveyPrefix(v) == [];
      CastOfEmpty();
    } else {
      assert SurveyPrefix(v) == v[..k - 1];
    }
  }

  /** Text with no digits casts to 0. */
  lemma CastOfEmpty()
    ensures SqlCastInteger([]) == 0
  {
    assert SkipSqlSpace([]) == [];
    assert Unsigned([]) == [];
    assert LeadingDigits([]) == [];
  }

  /** With no excluded numbers the survey query keeps every row. */
  lemma FilterSurveyNoExclusion(rows: seq<Row>, s: Schema)
    requires forall k :: 0 <= k < |rows| ==> s.survey < |rows[k]|
    ensures FilterSurvey(rows, s, {}) == rows
  {
    FilterKeepsAll(rows, SurveyTest(s, {}));
  }

  lemma Cast12()
    ensures SqlCastInteger("12") == 12
  {
    assert NatToString(12) == "12";
    CastOfNat(12);
  }

  lemma Cast123()
    ensures SqlCastInteger("123") == 123
  {
    assert NatToString(123) == "123";
    CastOfNat(123);
  }

  /** Excluding 12 drops "12/3" but keeps "123" and "12": a number without
      `/` is never compared, only the 0 its empty prefix casts to. */
  lemma SurveyExamples()
    ensures !SurveyClause("12/3", {12})
    ensures SurveyClause("123", {12})
    ensures SurveyClause("12", {12})
    ensures !SurveyClause("12", {0})
  {
    assert "12/3"[..2] == "12";
    Cast12();
    SurveyClauseTruthTable("12/3", {12});
    SurveyClauseTruthTable("123", {12});
    SurveyClauseTruthTable("12", {12});
    SurveyClauseTruthTable("12", {0});
  }
}
