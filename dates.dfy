/** Date normaliser (`convert_date_format`, main.py:67-76). The text is
    read with `%m/%d/%Y`, then with `%d.%m.%Y`; the first reading that gives
    a representable date is written back as `YYYY-MM-DD`, and text neither
    reading accepts is returned as it was. The field patterns are those of
    strptime: a month is `1[0-2]|0[1-9]|[1-9]`, a day is
    `3[01]|[12][0-9]|0[1-9]|[1-9]| [1-9]`, a year four digits, and the whole
    text must be used up. A day past the end of its month, or a day outside
    the range of a nanosecond timestamp, makes the reading raise. */
module Dates {
  import opened Wrappers
  import opened Text

  datatype Date = Date(year: nat, month: nat, day: nat)

  predicate IsLeapYear(y: nat) {
    y % 4 == 0 && (y % 100 != 0 || y % 400 == 0)
  }

  function DaysInMonth(y: nat, m: nat): nat
    requires 1 <= m <= 12
  {
    if m == 2 then (if IsLeapYear(y) then 29 else 28)
    else if m == 4 || m == 6 || m == 9 || m == 11 then 30
    else 31
  }

  predicate IsCalendarDate(d: Date) {
    1 <= d.month <= 12 && 1 <= d.day <= DaysInMonth(d.year, d.month)
  }

  /** Calendar order. */
  predicate DateLe(a: Date, b: Date) {
    a.year < b.year || (a.year == b.year && (a.month < b.month || (a.month == b.month && a.day <= b.day)))
  }

  /** The first and last whole days a nanosecond timestamp covers. */
  const FirstDay := Date(1677, 9, 22)
  const LastDay := Date(2262, 4, 11)

  /** A date the reading accepts without raising. */
  predicate Representable(d: Date) {
    IsCalendarDate(d) && DateLe(FirstDay, d) && DateLe(d, LastDay)
  }

  /** The value of a run of one or two digits. */
  lemma ShortDigitsValue(t: string)
    ensures |t| == 1 && IsAsciiDigit(t[0]) ==> DigitsValue(t) == DigitValue(t[0])
    ensures |t| == 2 && IsAsciiDigit(t[0]) && IsAsciiDigit(t[1]) ==>
      DigitsValue(t) == 10 * DigitValue(t[0]) + DigitValue(t[1])
    ensures |t| == 2 && IsAsciiDigit(t[1]) ==> DigitsValue(t[1..]) == DigitValue(t[1])
  {
    if |t| == 2 && IsAsciiDigit(t[0]) && IsAsciiDigit(t[1]) {
      assert t[..1][..0] == [];
    }
    if |t| == 2 && IsAsciiDigit(t[1]) {
      assert t[1..][..0] == [];
    }
  }

  /** `%m`: `1[0-2]`, `0[1-9]` or `[1-9]`. */
  function MonthField(t: string): (m: Option<nat>)
    ensures m.Some? ==> 1 <= m.value <= 12
    ensures m.Some? ==> AllDigits(t) && DigitsValue(t) == m.value
  {
    ShortDigitsValue(t);
    if |t| == 2 && t[0] == '1' && '0' <= t[1] <= '2' then Some(10 + DigitValue(t[1]))
    else if |t| == 2 && t[0] == '0' && '1' <= t[1] <= '9' then Some(DigitValue(t[1]))
    else if |t| == 1 && '1' <= t[0] <= '9' then Some(DigitValue(t[0]))
    else None
  }

  /** `%d`: `3[01]`, `[12][0-9]`, `0[1-9]`, `[1-9]` or a space and `[1-9]`. */
  function DayField(t: string): (d: Option<nat>)
    ensures d.Some? ==> 1 <= d.value <= 31
    ensures d.Some? ==> |t| > 0 && var u := if t[0] == ' ' then t[1..] else t;
      AllDigits(u) && DigitsValue(u) == d.value
  {
    ShortDigitsValue(t);
    if |t| == 2 && t[0] == '3' && '0' <= t[1] <= '1' then Some(30 + DigitValue(t[1]))
    else if |t| == 2 && '1' <= t[0] <= '2' && IsAsciiDigit(t[1]) then Some(10 * DigitValue(t[0]) + DigitValue(t[1]))
    else if |t| == 2 && t[0] == '0' && '1' <= t[1] <= '9' then Some(DigitValue(t[1]))
    else if |t| == 1 && '1' <= t[0] <= '9' then Some(DigitValue(t[0]))
    else if |t| == 2 && t[0] == ' ' && '1' <= t[1] <= '9' then Some(DigitValue(t[1]))
    else None
  }

  /** `%Y`: exactly four digits. */
  function YearField(t: string): (y: Option<nat>)
    ensures y.Some? ==> y.value < 10000
    ensures y.Some? <==> |t| == 4 && AllDigits(t)
    ensures y.Some? ==> DigitsValue(t) == y.value
  {
    if |t| == 4 && AllDigits(t) then
      DigitsValueBelow(t);
      Some(DigitsValue(t))
    else None
  }

  /** One strptime reading: three fields around two separators, in the
      order month, day, year or (`dayFirst`) day, month, year, with the
      date they name required to be representable. The fields hold no
      separator, so the text splits into exactly three pieces. */
  function ReadDate(s: string, sep: char, dayFirst: bool): (d: Option<Date>)
    ensures d.Some? ==> Representable(d.value)
    ensures d.Some? ==> var p := Split(s, sep);
      |p| == 3 && YearField(p[2]) == Some(d.value.year)
      && (if dayFirst then DayField(p[0]) == Some(d.value.day) && MonthField(p[1]) == Some(d.value.month)
          else MonthField(p[0]) == Some(d.value.month) && DayField(p[1]) == Some(d.value.day))
  {
    var parts := Split(s, sep);
    if |parts| != 3 then None
    else
      var first := if dayFirst then DayField(parts[0]) else MonthField(parts[0]);
      var second := if dayFirst then MonthField(parts[1]) else DayField(parts[1]);
      var year := YearField(parts[2]);
      if first.None? || second.None? || year.None? then None
      else
        var date := if dayFirst then Date(year.value, second.value, first.value)
                    else Date(year.value, first.value, second.value);
        if Representable(date) then Some(date) else None
  }

  /** `n` written with exactly `width` digits, zero-padded on the left. */
  function ZeroPad(n: nat, width: nat): (s: string)
    requires n < Pow10(width)
    ensures |s| == width
    ensures forall i :: 0 <= i < |s| ==> IsAsciiDigit(s[i])
    ensures DigitsValue(s) == n
  {
    if width == 0 then []
    else
      var s := ZeroPad(n / 10, width - 1) + [DigitChar(n % 10)];
      DigitsValueSnoc(ZeroPad(n / 10, width - 1), DigitChar(n % 10));
      s
  }

  /** `strftime('%Y-%m-%d')`. */
  function FormatIso(d: Date): (s: string)
    requires Representable(d)
    ensures |s| == 10 && s[4] == '-' && s[7] == '-'
  {
    ZeroPad(d.year, 4) + "-" + ZeroPad(d.month, 2) + "-" + ZeroPad(d.day, 2)
  }

  /** Reads back `YYYY-MM-DD`: the partner of FormatIso. */
  function ParseIso(s: string): Option<Date> {
    if |s| == 10 && s[4] == '-' && s[7] == '-' && AllDigits(s[..4]) && AllDigits(s[5..7]) && AllDigits(s[8..]) then
      Some(Date(DigitsValue(s[..4]), DigitsValue(s[5..7]), DigitsValue(s[8..])))
    else None
  }

  /** FormatIso loses nothing: reading its text back gives the date. */
  lemma IsoRoundTrip(d: Date)
    requires Representable(d)
    ensures ParseIso(FormatIso(d)) == Some(d)
  {
    var s := FormatIso(d);
    assert s[..4] == ZeroPad(d.year, 4);
    assert s[5..7] == ZeroPad(d.month, 2);
    assert s[8..] == ZeroPad(d.day, 2);
  }

  /** `convert_date_format`. */
  function ConvertDateFormat(s: string): (r: string)
    ensures r != s ==>
      ParseIso(r).Some? && Representable(ParseIso(r).value) && r == FormatIso(ParseIso(r).value)
    ensures ReadDate(s, '/', false).Some? ==> r == FormatIso(ReadDate(s, '/', false).value)
    ensures ReadDate(s, '.', true).Some? ==> r == FormatIso(ReadDate(s, '.', true).value)
    ensures ReadDate(s, '/', false).None? && ReadDate(s, '.', true).None? ==> r == s
  {
    ReadingsExclusive(s);
    match ReadDate(s, '/', false)
    case Some(d) => IsoRoundTrip(d); FormatIso(d)
    case None =>
      match ReadDate(s, '.', true)
      case Some(d) => IsoRoundTrip(d); FormatIso(d)
      case None => s
  }

  /** Text holding neither separator is returned as it is; in particular
      text already written `YYYY-MM-DD` is left alone. */
  lemma ConvertWithoutSeparators(s: string)
    requires '/' !in s && '.' !in s
    ensures ConvertDateFormat(s) == s
  {
    ReadNeedsSeparator(s, '/', false);
    ReadNeedsSeparator(s, '.', true);
  }

  /** A reading fails on text without its separator. */
  lemma ReadNeedsSeparator(s: string, sep: char, dayFirst: bool)
    requires sep !in s
    ensures ReadDate(s, sep, dayFirst) == None
  {
    SplitWithoutSeparator(s, sep);
    assert |Split(s, sep)| == 1;
  }

  // ---------------------------------------------------------------------
  // Every representable date written either way is read back and rewritten.

  /** Two-digit zero padding, digit by digit. */
  lemma PadTwo(n: nat)
    requires n < 100
    ensures ZeroPad(n, 2) == [DigitChar(n / 10), DigitChar(n % 10)]
  {
    assert ZeroPad(n / 10, 1) == ZeroPad(n / 100, 0) + [DigitChar(n / 10 % 10)];
  }

  /** Tens and units of a number. */
  lemma TensAndUnits(n: nat)
    ensures n == 10 * (n / 10) + n % 10 && n % 10 < 10
  {
  }

  /** `%m` on two digit characters. */
  lemma MonthFieldOfDigits(q: nat, r: nat)
    requires q < 10 && r < 10 && 1 <= 10 * q + r <= 12
    ensures MonthField([DigitChar(q), DigitChar(r)]) == Some(10 * q + r)
  {
    var t := [DigitChar(q), DigitChar(r)];
    assert t[0] == DigitChar(q) && t[1] == DigitChar(r);
  }

  /** `%d` on two digit characters. */
  lemma DayFieldOfDigits(q: nat, r: nat)
    requires q < 10 && r < 10 && 1 <= 10 * q + r <= 31
    ensures DayField([DigitChar(q), DigitChar(r)]) == Some(10 * q + r)
  {
    var t := [DigitChar(q), DigitChar(r)];
    assert t[0] == DigitChar(q) && t[1] == DigitChar(r);
  }

  /** `%m` reads back every month written with two digits. */
  lemma MonthFieldRoundTrip(m: nat)
    requires 1 <= m <= 12
    ensures MonthField(ZeroPad(m, 2)) == Some(m)
  {
    PadTwo(m);
    TensAndUnits(m);
    MonthFieldOfDigits(m / 10, m % 10);
  }

  /** `%d` reads back every day written with two digits. */
  lemma DayFieldRoundTrip(d: nat)
    requires 1 <= d <= 31
    ensures DayField(ZeroPad(d, 2)) == Some(d)
  {
    PadTwo(d);
    TensAndUnits(d);
    DayFieldOfDigits(d / 10, d % 10);
  }

  /** `%m` and `%d` also read a number below 10 written with one digit. */
  lemma OneDigitFieldsRoundTrip(n: nat)
    requires 1 <= n <= 9
    ensures MonthField([DigitChar(n)]) == Some(n)
    ensures DayField([DigitChar(n)]) == Some(n)
  {
  }

  /** `%Y` reads back a year written with four digits. */
  lemma YearFieldRoundTrip(y: nat)
    requires y < 10000
    ensures YearField(ZeroPad(y, 4)) == Some(y)
  {
  }

  /** A run of digits holds no separator. */
  lemma DigitsHoldNoSeparator(t: string, sep: char)
    requires forall i :: 0 <= i < |t| ==> IsAsciiDigit(t[i])
    requires !IsAsciiDigit(sep)
    ensures sep !in t
  {
  }

  /** `MM/DD/YYYY`. */
  function MonthFirstText(d: Date): string
    requires Representable(d)
  {
    ZeroPad(d.month, 2) + "/" + ZeroPad(d.day, 2) + "/" + ZeroPad(d.year, 4)
  }

  /** `DD.MM.YYYY`. */
  function DayFirstText(d: Date): string
    requires Representable(d)
  {
    ZeroPad(d.day, 2) + "." + ZeroPad(d.month, 2) + "." + ZeroPad(d.year, 4)
  }

  /** The month-first reading accepts every representable date written
      `MM/DD/YYYY`, and reads that date. */
  lemma ReadMonthFirst(d: Date)
    requires Representable(d)
    ensures ReadDate(MonthFirstText(d), '/', false) == Some(d)
  {
    var a, b, c := ZeroPad(d.month, 2), ZeroPad(d.day, 2), ZeroPad(d.year, 4);
    DigitsHoldNoSeparator(a, '/');
    DigitsHoldNoSeparator(b, '/');
    DigitsHoldNoSeparator(c, '/');
    SplitThree(a, b, c, '/');
    MonthFieldRoundTrip(d.month);
    DayFieldRoundTrip(d.day);
    YearFieldRoundTrip(d.year);
  }

  /** The day-first reading accepts every representable date written
      `DD.MM.YYYY`, and reads that date. */
  lemma ReadDayFirst(d: Date)
    requires Representable(d)
    ensures ReadDate(DayFirstText(d), '.', true) == Some(d)
  {
    var a, b, c := ZeroPad(d.day, 2), ZeroPad(d.month, 2), ZeroPad(d.year, 4);
    DigitsHoldNoSeparator(a, '.');
    DigitsHoldNoSeparator(b, '.');
    DigitsHoldNoSeparator(c, '.');
    SplitThree(a, b, c, '.');
    MonthFieldRoundTrip(d.month);
    DayFieldRoundTrip(d.day);
    YearFieldRoundTrip(d.year);
  }

  /** A day past the end of its month is refused by both readings, however
      the fields are written with their usual widths. */
  lemma PastMonthEnd(y: nat, m: nat, d: nat)
    requires 1 <= m <= 12 && DaysInMonth(y, m) < d <= 31 && y < 10000
    ensures ReadDate(ZeroPad(m, 2) + "/" + ZeroPad(d, 2) + "/" + ZeroPad(y, 4), '/', false) == None
    ensures ReadDate(ZeroPad(d, 2) + "." + ZeroPad(m, 2) + "." + ZeroPad(y, 4), '.', true) == None
  {
    var a, b, c := ZeroPad(m, 2), ZeroPad(d, 2), ZeroPad(y, 4);
    DigitsHoldNoSeparator(a, '/');
    DigitsHoldNoSeparator(b, '/');
    DigitsHoldNoSeparator(c, '/');
    DigitsHoldNoSeparator(a, '.');
    DigitsHoldNoSeparator(b, '.');
    DigitsHoldNoSeparator(c, '.');
    SplitThree(a, b, c, '/');
    SplitThree(b, a, c, '.');
    assert a + "/" + b + "/" + c == a + ['/'] + b + ['/'] + c;
    assert b + "." + a + "." + c == b + ['.'] + a + ['.'] + c;
    MonthFieldRoundTrip(m);
    DayFieldRoundTrip(d);
    YearFieldRoundTrip(y);
  }

  /** Every representable date written `MM/DD/YYYY` is rewritten to the
      same date as `YYYY-MM-DD`. */
  lemma ConvertMonthFirst(d: Date)
    requires Representable(d)
    ensures ConvertDateFormat(MonthFirstText(d)) == FormatIso(d)
  {
    ReadMonthFirst(d);
  }

  /** Every representable date written `DD.MM.YYYY` is rewritten to the
      same date as `YYYY-MM-DD`. */
  lemma ConvertDayFirst(d: Date)
    requires Representable(d)
    ensures ConvertDateFormat(DayFirstText(d)) == FormatIso(d)
  {
    ReadDayFirst(d);
  }

  // ---------------------------------------------------------------------
  // Text order of `YYYY-MM-DD` is calendar order.

  /** Comparing two texts that start with pieces of the same length: the
      first pieces decide unless they are equal, and then the rest does. */
  lemma {:induction false} LexLeConcat(a1: string, a2: string, b1: string, b2: string)
    requires |a1| == |b1|
    ensures LexLe(a1 + a2, b1 + b2) <==> (a1 != b1 && LexLe(a1, b1)) || (a1 == b1 && LexLe(a2, b2))
  {
    if |a1| > 0 {
      assert (a1 + a2)[0] == a1[0] && (b1 + b2)[0] == b1[0];
      assert (a1 + a2)[1..] == a1[1..] + a2 && (b1 + b2)[1..] == b1[1..] + b2;
      LexLeConcat(a1[1..], a2, b1[1..], b2);
      assert a1 == [a1[0]] + a1[1..] && b1 == [b1[0]] + b1[1..];
      if a1[0] == b1[0] {
        assert a1 == b1 <==> a1[1..] == b1[1..];
      }
    } else {
      assert a1 + a2 == a2 && b1 + b2 == b2;
    }
  }

  /** Zero-padded numbers of the same width compare as text exactly as
      they compare as numbers. */
  lemma {:induction false} ZeroPadOrder(m: nat, n: nat, width: nat)
    requires m < Pow10(width) && n < Pow10(width)
    ensures LexLe(ZeroPad(m, width), ZeroPad(n, width)) <==> m <= n
  {
    if width > 0 {
      var hm, hn := ZeroPad(m / 10, width - 1), ZeroPad(n / 10, width - 1);
      var lm, ln := [DigitChar(m % 10)], [DigitChar(n % 10)];
      ZeroPadOrder(m / 10, n / 10, width - 1);
      LexLeConcat(hm, lm, hn, ln);
      assert hm == hn <==> m / 10 == n / 10 by {
        if hm == hn {
          assert DigitsValue(hm) == DigitsValue(hn);
        }
      }
      assert LexLe(lm, ln) <==> m % 10 <= n % 10 by {
        assert lm[1..] == [] && ln[1..] == [];
      }
    } else {
      assert m == 0 && n == 0;
    }
  }

  /** Zero padding is one-to-one. */
  lemma ZeroPadInjective(m: nat, n: nat, width: nat)
    requires m < Pow10(width) && n < Pow10(width)
    ensures ZeroPad(m, width) == ZeroPad(n, width) <==> m == n
  {
    if ZeroPad(m, width) == ZeroPad(n, width) {
      assert DigitsValue(ZeroPad(m, width)) == DigitsValue(ZeroPad(n, width));
    }
  }

  /** One date field followed by the rest of the text: the field decides
      unless equal. */
  lemma FieldThenRest(m: nat, n: nat, width: nat, ra: string, rb: string)
    requires m < Pow10(width) && n < Pow10(width)
    ensures LexLe(ZeroPad(m, width) + ra, ZeroPad(n, width) + rb) <==> m < n || (m == n && LexLe(ra, rb))
  {
    LexLeConcat(ZeroPad(m, width), ra, ZeroPad(n, width), rb);
    ZeroPadOrder(m, n, width);
    ZeroPadInjective(m, n, width);
  }

  /** A shared separator in front decides nothing. */
  lemma SeparatorThenRest(ra: string, rb: string)
    ensures LexLe("-" + ra, "-" + rb) <==> LexLe(ra, rb)
  {
    LexLeConcat("-", ra, "-", rb);
  }

  /** `MM-DD` of a date. */
  function MonthDay(d: Date): string
    requires Representable(d)
  {
    ZeroPad(d.month, 2) + ("-" + ZeroPad(d.day, 2))
  }

  /** `YYYY-MM-DD` is the year, a dash, then `MM-DD`. */
  lemma IsoShape(d: Date)
    requires Representable(d)
    ensures FormatIso(d) == ZeroPad(d.year, 4) + ("-" + MonthDay(d))
  {
  }

  /** Two zero-padded fields of equal width joined by a dash compare as
      the first field, then the second. */
  lemma PairOrder(m1: nat, d1: nat, m2: nat, d2: nat, w: nat)
    requires m1 < Pow10(w) && d1 < Pow10(w) && m2 < Pow10(w) && d2 < Pow10(w)
    ensures LexLe(ZeroPad(m1, w) + ("-" + ZeroPad(d1, w)), ZeroPad(m2, w) + ("-" + ZeroPad(d2, w)))
      <==> m1 < m2 || (m1 == m2 && d1 <= d2)
  {
    var da, db := ZeroPad(d1, w), ZeroPad(d2, w);
    FieldThenRest(m1, m2, w, "-" + da, "-" + db);
    SeparatorThenRest(da, db);
    ZeroPadOrder(d1, d2, w);
  }

  /** `MM-DD` texts compare as month, then day. */
  lemma MonthDayOrder(a: Date, b: Date)
    requires Representable(a) && Representable(b)
    ensures LexLe(MonthDay(a), MonthDay(b)) <==> a.month < b.month || (a.month == b.month && a.day <= b.day)
  {
    PairOrder(a.month, a.day, b.month, b.day, 2);
  }

  /** Two dates written `YYYY-MM-DD` compare as text exactly as they
      compare on the calendar, so the string BETWEEN of the first query
      selects a calendar window once dates are normalised. */
  lemma IsoOrder(a: Date, b: Date)
    requires Representable(a) && Representable(b)
    ensures LexLe(FormatIso(a), FormatIso(b)) <==> DateLe(a, b)
  {
    IsoShape(a);
    IsoShape(b);
    FieldThenRest(a.year, b.year, 4, "-" + MonthDay(a), "-" + MonthDay(b));
    SeparatorThenRest(MonthDay(a), MonthDay(b));
    MonthDayOrder(a, b);
  }

  /** A text that the month-first reading accepts is not accepted by the
      day-first one, and the other way round: the two readings never
      compete, so trying `/` first decides nothing by itself. */
  lemma ReadingsExclusive(s: string)
    ensures !(ReadDate(s, '/', false).Some? && ReadDate(s, '.', true).Some?)
  {
    if ReadDate(s, '/', false).Some? {
      var parts := Split(s, '/');
      assert '.' !in parts[0] && '.' !in parts[1] && '.' !in parts[2];
      AbsentFromPieces(s, '/', '.');
      SplitWithoutSeparator(s, '.');
    }
  }

  /** The normaliser's own output is left alone: normalising twice is
      normalising once. */
  lemma ConvertIdempotent(s: string)
    ensures ConvertDateFormat(ConvertDateFormat(s)) == ConvertDateFormat(s)
  {
    var r := ConvertDateFormat(s);
    if r != s {
      assert '/' !in r by {
        forall i | 0 <= i < |r| ensures r[i] != '/' {
          assert IsAsciiDigit(r[i]) || r[i] == '-' by {
            var d := ParseIso(r).value;
            assert AllDigits(r[..4]) && AllDigits(r[5..7]) && AllDigits(r[8..]);
            if i < 4 { assert r[i] == r[..4][i]; }
            else if 5 <= i < 7 { assert r[i] == r[5..7][i - 5]; }
            else if 8 <= i { assert r[i] == r[8..][i - 8]; }
          }
        }
      }
      assert '.' !in r by {
        forall i | 0 <= i < |r| ensures r[i] != '.' {
          assert IsAsciiDigit(r[i]) || r[i] == '-' by {
            assert AllDigits(r[..4]) && AllDigits(r[5..7]) && AllDigits(r[8..]);
            if i < 4 { assert r[i] == r[..4][i]; }
            else if 5 <= i < 7 { assert r[i] == r[5..7][i - 5]; }
            else if 8 <= i { assert r[i] == r[8..][i - 8]; }
          }
        }
      }
      SplitWithoutSeparator(r, '/');
      SplitWithoutSeparator(r, '.');
    }
  }

  /** Three fields around two separators split back into those fields. */
  lemma SplitThree(a: string, b: string, c: string, sep: char)
    requires sep !in a && sep !in b && sep !in c
    ensures Split(a + [sep] + b + [sep] + c, sep) == [a, b, c]
  {
    SplitAt(a, b + [sep] + c, sep);
    SplitAt(b, c, sep);
    SplitWithoutSeparator(c, sep);
    assert a + [sep] + b + [sep] + c == a + [sep] + (b + [sep] + c);
  }

  lemma Year2023()
    ensures YearField("2023") == Some(2023)
  {
    NatToStringRoundTrip(2023);
    assert NatToString(2023) == "2023";
  }

  /** The three example texts split into their fields. */
  lemma SplitExamples()
    ensures Split("05/02/2023", '/') == ["05", "02", "2023"]
    ensures Split("02.05.2023", '.') == ["02", "05", "2023"]
    ensures Split("02/30/2023", '/') == ["02", "30", "2023"]
  {
    SplitThree("05", "02", "2023", '/');
    assert "05" + ['/'] + "02" + ['/'] + "2023" == "05/02/2023";
    SplitThree("02", "05", "2023", '.');
    assert "02" + ['.'] + "05" + ['.'] + "2023" == "02.05.2023";
    SplitThree("02", "30", "2023", '/');
    assert "02" + ['/'] + "30" + ['/'] + "2023" == "02/30/2023";
  }

  lemma FieldsExample()
    ensures MonthField("05") == Some(5) && DayField("02") == Some(2)
    ensures DayField("30") == Some(30) && MonthField("02") == Some(2)
    ensures Representable(Date(2023, 5, 2)) && !Representable(Date(2023, 2, 30))
  {
  }

  lemma ReadMonthFirstExample()
    ensures ReadDate("05/02/2023", '/', false) == Some(Date(2023, 5, 2))
  {
    Year2023();
    SplitExamples();
    FieldsExample();
  }

  lemma ReadDayFirstExample()
    ensures ReadDate("02.05.2023", '/', false) == None
    ensures ReadDate("02.05.2023", '.', true) == Some(Date(2023, 5, 2))
  {
    SplitWithoutSeparator("02.05.2023", '/');
    Year2023();
    SplitExamples();
    FieldsExample();
  }

  lemma FormatExample()
    ensures FormatIso(Date(2023, 5, 2)) == "2023-05-02"
  {
    assert ZeroPad(2023, 4) == ZeroPad(202, 3) + ['3'];
    assert ZeroPad(202, 3) == ZeroPad(20, 2) + ['2'];
    assert ZeroPad(20, 2) == ZeroPad(2, 1) + ['0'];
    assert ZeroPad(2, 1) == ZeroPad(0, 0) + ['2'];
    assert ZeroPad(5, 2) == ZeroPad(0, 1) + ['5'];
    assert ZeroPad(0, 1) == ZeroPad(0, 0) + ['0'];
    assert ZeroPad(2, 2) == ZeroPad(0, 1) + ['2'];
  }

  /** Month/day/year with `/` and day.month.year with `.` both reach the
      same ISO day. */
  lemma ConvertExamples()
    ensures ConvertDateFormat("05/02/2023") == "2023-05-02"
    ensures ConvertDateFormat("02.05.2023") == "2023-05-02"
  {
    ReadMonthFirstExample();
    ReadDayFirstExample();
    FormatExample();
  }

  lemma ReadPastMonthEnd()
    ensures ReadDate("02/30/2023", '/', false) == None
    ensures ReadDate("02/30/2023", '.', true) == None
  {
    assert '.' !in "02/30/2023";
    ReadNeedsSeparator("02/30/2023", '.', true);
    SplitExamples();
    var p := Split("02/30/2023", '/');
    assert p[0] == "02" && p[1] == "30" && p[2] == "2023";
    Year2023();
    FieldsExample();
    assert !IsLeapYear(2023);
  }

  /** Text neither reading accepts passes through: a word, and a day past
      the end of its month. */
  lemma ConvertPassesThrough()
    ensures ConvertDateFormat("not-a-date") == "not-a-date"
    ensures ConvertDateFormat("02/30/2023") == "02/30/2023"
  {
    assert '/' !in "not-a-date" && '.' !in "not-a-date";
    ConvertWithoutSeparators("not-a-date");
    ReadPastMonthEnd();
  }
}
