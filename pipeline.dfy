/** `process_data` (main.py:78-121): extraction, the header swap, translation,
    date normalisation, the four queries, ranking and the bilingual report.
    The SQL engine is not modelled; what it contributes is the resolution of
    the column names the queries use (SQLite matches identifiers ignoring
    ASCII case and refuses two columns that differ only in case) and the
    error raised for a missing one, which the final `except` turns into
    "An error occurred: ...". */
module Pipeline {
  import opened Wrappers
  import opened Text
  import opened Extraction
  import opened Translation
  import opened Dates
  import opened Filters
  import opened Aggregation

  // ---------------------------------------------------------------------
  // The frame as process_data reshapes it (main.py:83-87).

  /** `df.columns = df.iloc[0]; df1 = df[1:]`: the first row names the
      columns and is dropped. */
  function PromoteHeader(f: Frame): (g: Frame)
    requires |f.rows| > 0
    ensures g.columns == f.rows[0] && g.rows == f.rows[1..]
    ensures WellShaped(f) ==> WellShaped(g) && |g.columns| == |f.columns|
  {
    Frame(f.rows[0], f.rows[1..])
  }

  /** main.py:86-87: every cell of a column named exactly `Date` passed
      through the date normaliser; nothing else changes. */
  function NormalizeDates(f: Frame): (g: Frame)
    ensures g.columns == f.columns && |g.rows| == |f.rows|
    ensures forall i :: 0 <= i < |f.rows| ==> |g.rows[i]| == |f.rows[i]|
    ensures forall i, k :: 0 <= i < |f.rows| && 0 <= k < |f.rows[i]| ==>
      g.rows[i][k] == if k < |f.columns| && f.columns[k] == DateColumn then ConvertDateFormat(f.rows[i][k]) else f.rows[i][k]
  {
    Frame(f.columns, seq(|f.rows|, i requires 0 <= i < |f.rows| =>
      seq(|f.rows[i]|, k requires 0 <= k < |f.rows[i]| =>
        if k < |f.columns| && f.columns[k] == DateColumn then ConvertDateFormat(f.rows[i][k]) else f.rows[i][k])))
  }

  /** Only cells of a `Date` column change, and a changed cell is now a
      calendar date written `YYYY-MM-DD`; without such a column the frame
      is left as it was. */
  lemma NormalizeDatesEffect(f: Frame)
    ensures var g := NormalizeDates(f);
      forall i, k :: 0 <= i < |f.rows| && 0 <= k < |f.rows[i]| && g.rows[i][k] != f.rows[i][k] ==>
        k < |f.columns| && f.columns[k] == DateColumn
        && ParseIso(g.rows[i][k]).Some? && Representable(ParseIso(g.rows[i][k]).value)
    ensures DateColumn !in f.columns ==> NormalizeDates(f) == f
  {
    var g := NormalizeDates(f);
    if DateColumn !in f.columns {
      forall i | 0 <= i < |f.rows| ensures g.rows[i] == f.rows[i] {
        forall k | 0 <= k < |f.rows[i]| ensures g.rows[i][k] == f.rows[i][k] {
          if k < |f.columns| {
            assert f.columns[k] != DateColumn;
          }
        }
      }
    }
  }

  /** A `Date` cell holding a representable date written `MM/DD/YYYY` or
      `DD.MM.YYYY` becomes that date written `YYYY-MM-DD`. */
  lemma NormalizeWrittenDate(f: Frame, i: nat, k: nat, d: Date)
    requires i < |f.rows| && k < |f.rows[i]| && k < |f.columns| && f.columns[k] == DateColumn
    requires Representable(d)
    requires f.rows[i][k] == MonthFirstText(d) || f.rows[i][k] == DayFirstText(d)
    ensures NormalizeDates(f).rows[i][k] == FormatIso(d)
  {
    if f.rows[i][k] == MonthFirstText(d) {
      ConvertMonthFirst(d);
    } else {
      ConvertDayFirst(d);
    }
  }

  /** No `Date` cell of the row holds either separator the normaliser
      reads. */
  predicate NoDateSeparators(columns: seq<string>, row: Row) {
    forall k :: 0 <= k < |row| && k < |columns| && columns[k] == DateColumn ==> '/' !in row[k] && '.' !in row[k]
  }

  /** A frame whose `Date` cells hold neither `/` nor `.`, such as one
      already in `YYYY-MM-DD`, is left unchanged. */
  lemma NormalizeWithoutSeparators(f: Frame)
    requires forall i :: 0 <= i < |f.rows| ==> NoDateSeparators(f.columns, f.rows[i])
    ensures NormalizeDates(f) == f
  {
    var g := NormalizeDates(f);
    forall i | 0 <= i < |f.rows| ensures g.rows[i] == f.rows[i] {
      forall k | 0 <= k < |f.rows[i]| ensures g.rows[i][k] == f.rows[i][k] {
        if k < |f.columns| && f.columns[k] == DateColumn {
          ConvertWithoutSeparators(f.rows[i][k]);
        }
      }
    }
  }

  /** Normalising the dates a second time changes nothing. */
  lemma NormalizeDatesIdempotent(f: Frame)
    ensures NormalizeDates(NormalizeDates(f)) == NormalizeDates(f)
  {
    var g := NormalizeDates(f);
    var h := NormalizeDates(g);
    forall i | 0 <= i < |f.rows| ensures h.rows[i] == g.rows[i] {
      forall k | 0 <= k < |f.rows[i]| ensures h.rows[i][k] == g.rows[i][k] {
        NormalizeCellIdempotent(f, i, k);
      }
    }
  }

  /** One cell of the idempotence argument. */
  lemma NormalizeCellIdempotent(f: Frame, i: nat, k: nat)
    requires i < |f.rows| && k < |f.rows[i]|
    ensures NormalizeDates(NormalizeDates(f)).rows[i][k] == NormalizeDates(f).rows[i][k]
  {
    if k < |f.columns| && f.columns[k] == DateColumn {
      ConvertIdempotent(f.rows[i][k]);
    }
  }

  /** The bounds of the first query are the dates 2 May 2020 and 2 May
      2023 written `YYYY-MM-DD`. */
  lemma WindowBounds()
    ensures StartDate == FormatIso(Date(2020, 5, 2))
    ensures EndDate == FormatIso(Date(2023, 5, 2))
  {
    FormatExample();
    assert ZeroPad(2020, 4) == ZeroPad(202, 3) + ['0'];
    assert ZeroPad(202, 3) == ZeroPad(20, 2) + ['2'];
    assert ZeroPad(20, 2) == ZeroPad(2, 1) + ['0'];
    assert ZeroPad(2, 1) == ZeroPad(0, 0) + ['2'];
    assert ZeroPad(5, 2) == ZeroPad(0, 1) + ['5'];
    assert ZeroPad(0, 1) == ZeroPad(0, 0) + ['0'];
    assert ZeroPad(2, 2) == ZeroPad(0, 1) + ['2'];
  }

  /** A date written `YYYY-MM-DD` passes the first query exactly when it
      lies, on the calendar, from 2 May 2020 to 2 May 2023. */
  lemma IsoDateWindow(d: Date)
    requires Representable(d)
    ensures InDateWindow(FormatIso(d)) <==> DateLe(Date(2020, 5, 2), d) && DateLe(d, Date(2023, 5, 2))
  {
    WindowBounds();
    IsoOrder(Date(2020, 5, 2), d);
    IsoOrder(d, Date(2023, 5, 2));
  }

  /** A date cell the normaliser rewrote passes the first query exactly
      when its date lies, on the calendar, from 2 May 2020 to 2 May 2023. */
  lemma NormalizedDateWindow(cell: string)
    requires ConvertDateFormat(cell) != cell
    ensures var d := ParseIso(ConvertDateFormat(cell)).value;
      InDateWindow(ConvertDateFormat(cell)) <==> DateLe(Date(2020, 5, 2), d) && DateLe(d, Date(2023, 5, 2))
  {
    var r := ConvertDateFormat(cell);
    IsoDateWindow(ParseIso(r).value);
  }

  // ---------------------------------------------------------------------
  // Column resolution: what the SQL engine and pandas need of the names.

  /** Two names SQLite would take for the same column make the table
      impossible to create. */
  predicate DistinctIdentifiers(columns: seq<string>) {
    forall i, j :: 0 <= i < j < |columns| ==> !SameIdentifier(columns[i], columns[j])
  }

  /** Some column answers to `name` in a query. */
  predicate Names(columns: seq<string>, name: string) {
    exists j :: 0 <= j < |columns| && SameIdentifier(columns[j], name)
  }

  const RequiredColumns: seq<string> := [DateColumn, PriceColumn, PerSqMColumn, DeedTypeColumn, SurveyNoColumn]

  /** The first column that answers to `name`. */
  function FindColumn(columns: seq<string>, name: string): (k: Option<nat>)
    ensures k.Some? ==> k.value < |columns| && SameIdentifier(columns[k.value], name)
    ensures k.None? <==> !Names(columns, name)
  {
    if |columns| == 0 then None
    else if SameIdentifier(columns[0], name) then Some(0)
    else
      var rest := FindColumn(columns[1..], name);
      assert forall j :: 1 <= j < |columns| ==> columns[j] == columns[1..][j - 1];
      if rest.None? then None else Some(rest.value + 1)
  }

  /** Every query can run and line 114 can read `Per sq. M.`. */
  predicate Resolvable(columns: seq<string>) {
    DistinctIdentifiers(columns) && PerSqMColumn in columns
    && forall n :: n in RequiredColumns ==> Names(columns, n)
  }

  /** The positions of the five columns the queries name, or None when the
      source raises: a repeated name (the table cannot be created), a
      missing column (a query names a column that does not exist), or no
      column spelled exactly `Per sq. M.` (pandas' lookup at line 114 is
      exact). */
  function Resolve(columns: seq<string>): (r: Option<Schema>)
    ensures r.Some? <==> Resolvable(columns)
    ensures r.Some? ==>
      (Covers(r.value, |columns|)
       && SameIdentifier(columns[r.value.date], DateColumn)
       && SameIdentifier(columns[r.value.price], PriceColumn)
       && columns[r.value.perSqM] == PerSqMColumn
       && SameIdentifier(columns[r.value.deed], DeedTypeColumn)
       && SameIdentifier(columns[r.value.survey], SurveyNoColumn))
  {
    if !DistinctIdentifiers(columns) || PerSqMColumn !in columns then None
    else
      var date := FindColumn(columns, DateColumn);
      var price := FindColumn(columns, PriceColumn);
      var perSqM := FindColumn(columns, PerSqMColumn);
      var deed := FindColumn(columns, DeedTypeColumn);
      var survey := FindColumn(columns, SurveyNoColumn);
      if date.None? || price.None? || perSqM.None? || deed.None? || survey.None? then
        assert !(forall n :: n in RequiredColumns ==> Names(columns, n)) by {
          assert RequiredColumns[0] == DateColumn && RequiredColumns[1] == PriceColumn;
          assert RequiredColumns[2] == PerSqMColumn && RequiredColumns[3] == DeedTypeColumn;
          assert RequiredColumns[4] == SurveyNoColumn;
        }
        None
      else
        ExactColumn(columns, PerSqMColumn, perSqM.value);
        Some(Schema(date.value, price.value, perSqM.value, deed.value, survey.value))
  }

  /** Among distinct identifiers, the column that answers to a name present
      verbatim is that very column. */
  lemma ExactColumn(columns: seq<string>, name: string, k: nat)
    requires DistinctIdentifiers(columns) && name in columns
    requires k < |columns| && SameIdentifier(columns[k], name)
    ensures columns[k] == name
  {
    var j :| 0 <= j < |columns| && columns[j] == name;
    assert SameIdentifier(columns[j], columns[k]);
  }

  /** Every position the schema names lies within `width`. */
  predicate Covers(s: Schema, width: nat) {
    s.date < width && s.price < width && s.perSqM < width && s.deed < width && s.survey < width
  }

  // ---------------------------------------------------------------------
  // The surviving rows and their summary (main.py:91-118).

  /** The rows that survive the four queries, in table order. */
  function Survivors(rows: seq<Row>, s: Schema, excluded: set<int>): seq<Row> {
    FilterSurvey(FilterStages(rows, s), s, excluded)
  }

  /** A survivor is a row of the table that passes the date, price, deed
      and survey tests, and every such row survives. */
  lemma SurvivorsExactly(rows: seq<Row>, s: Schema, excluded: set<int>)
    ensures forall r :: r in Survivors(rows, s, excluded) <==>
      r in rows && PassesStages(s, r) && SurveyStage(s, excluded, r)
  {
    var staged := FilterStages(rows, s);
    FilterStagesConjunction(rows, s);
    FilterMembers(rows, StagesTest(s));
    FilterMembers(staged, SurveyTest(s, excluded));
  }

  /** Each survivor paired with the number read from its `Per sq. M.` cell
      (main.py:114). */
  function KeyRows(rows: seq<Row>, s: Schema, parse: NumericParser): (keyed: seq<Ranked>)
    requires forall i :: 0 <= i < |rows| ==> s.perSqM < |rows[i]|
    ensures |keyed| == |rows|
    ensures forall i :: 0 <= i < |rows| ==> keyed[i] == Ranked(rows[i], parse(rows[i][s.perSqM]))
  {
    seq(|rows|, i requires 0 <= i < |rows| => Ranked(rows[i], parse(rows[i][s.perSqM])))
  }

  /** The survivors ranked by their number, largest first. */
  function Ranking(rows: seq<Row>, s: Schema, excluded: set<int>, parse: NumericParser): seq<Ranked> {
    var survivors := Survivors(rows, s, excluded);
    SurvivorsExactly(rows, s, excluded);
    assert forall i :: 0 <= i < |survivors| ==> survivors[i] in survivors;
    Rank(KeyRows(survivors, s, parse))
  }

  /** What process_data computes: no usable table, an error caught by the
      final `except`, or the top half of the ranking with its mean. */
  datatype Outcome =
    | NoTable
    | Failed
    | Summary(columns: seq<string>, halfRows: nat, mean: Mean, top: seq<Ranked>)

  /** main.py:114-118 over the resolved frame. */
  function Summarize(columns: seq<string>, rows: seq<Row>, s: Schema, excluded: set<int>, parse: NumericParser): Outcome {
    var top := TopHalf(Ranking(rows, s, excluded, parse));
    Summary(columns, |top|, MeanOf(top), top)
  }

  /** A ranked row comes from the table, passes every test and carries
      the number its own `Per sq. M.` cell parses to. */
  predicate Qualified(rows: seq<Row>, s: Schema, excluded: set<int>, parse: NumericParser, x: Ranked) {
    x.cells in rows && PassesStages(s, x.cells) && SurveyStage(s, excluded, x.cells)
    && x.perSqM == parse(x.cells[s.perSqM])
  }

  /** The ranking is a descending arrangement of the survivors, each
      qualified. */
  lemma RankingQualified(rows: seq<Row>, s: Schema, excluded: set<int>, parse: NumericParser)
    ensures var ranked := Ranking(rows, s, excluded, parse);
      |ranked| == |Survivors(rows, s, excluded)| && Descending(ranked)
      && forall k :: 0 <= k < |ranked| ==> Qualified(rows, s, excluded, parse, ranked[k])
  {
    var survivors := Survivors(rows, s, excluded);
    SurvivorsExactly(rows, s, excluded);
    assert forall i :: 0 <= i < |survivors| ==> survivors[i] in survivors;
    var keyed := KeyRows(survivors, s, parse);
    var ranked := Rank(keyed);
    RankDescending(keyed);
    forall k | 0 <= k < |ranked| ensures Qualified(rows, s, excluded, parse, ranked[k]) {
      assert ranked[k] in multiset(keyed);
      var j :| 0 <= j < |keyed| && keyed[j] == ranked[k];
      assert survivors[j] in survivors;
    }
  }

  /** The summary reports ⌈n/2⌉ rows out of n survivors, and those rows are
      the highest ranked: a descending arrangement of survivors that pass
      every test, each carrying the number its own cell parses to, none
      ranked below a survivor left out; the mean is over their numbers. */
  lemma SummarizeProperties(columns: seq<string>, rows: seq<Row>, s: Schema, excluded: set<int>, parse: NumericParser)
    ensures var o := Summarize(columns, rows, s, excluded, parse);
      var n := |Survivors(rows, s, excluded)|;
      o.Summary? && o.columns == columns && o.halfRows == |o.top| == HalfRows(n)
      && 2 * o.halfRows >= n && o.halfRows <= n && (n > 0 ==> o.halfRows > 0)
      && Descending(o.top) && o.mean == MeanOfKeys(Keys(o.top))
      && (forall i :: 0 <= i < |o.top| ==>
            o.top[i].cells in rows && PassesStages(s, o.top[i].cells)
            && SurveyStage(s, excluded, o.top[i].cells)
            && o.top[i].perSqM == parse(o.top[i].cells[s.perSqM]))
    ensures var ranked := Ranking(rows, s, excluded, parse);
      var o := Summarize(columns, rows, s, excluded, parse);
      |ranked| == |Survivors(rows, s, excluded)| && o.top == ranked[..o.halfRows]
      && forall i, j :: 0 <= i < o.halfRows <= j < |ranked| ==> KeyGe(o.top[i].perSqM, ranked[j].perSqM)
  {
    var ranked := Ranking(rows, s, excluded, parse);
    RankingQualified(rows, s, excluded, parse);
    TopHalfQualified(rows, s, excluded, parse);
    var top := TopHalf(ranked);
    forall i, j | 0 <= i < |top| <= j < |ranked| ensures KeyGe(top[i].perSqM, ranked[j].perSqM) {
      TopHalfDominates(ranked, i, j);
    }
  }

  /** The top half of the ranking is descending and each of its rows is
      qualified. */
  lemma TopHalfQualified(rows: seq<Row>, s: Schema, excluded: set<int>, parse: NumericParser)
    ensures var top := TopHalf(Ranking(rows, s, excluded, parse));
      Descending(top) && forall i :: 0 <= i < |top| ==> Qualified(rows, s, excluded, parse, top[i])
  {
    var ranked := Ranking(rows, s, excluded, parse);
    RankingQualified(rows, s, excluded, parse);
    var top := TopHalf(ranked);
    assert Descending(top) by {
      KeysPrefix(ranked, |top|);
    }
    forall i | 0 <= i < |top| ensures Qualified(rows, s, excluded, parse, top[i]) {
      assert top[i] == ranked[i];
    }
  }

  /** The stable ranking is one choice among the descending arrangements
      the sort may produce; every one of them yields the same top-half
      numbers and the same mean. */
  lemma SummaryIndependentOfTies(rows: seq<Row>, s: Schema, excluded: set<int>, parse: NumericParser, other: seq<Ranked>)
    requires Descending(other)
    requires multiset(other) == multiset(Ranking(rows, s, excluded, parse))
    ensures |other| == |Ranking(rows, s, excluded, parse)|
    ensures Keys(TopHalf(other)) == Keys(TopHalf(Ranking(rows, s, excluded, parse)))
    ensures MeanOf(TopHalf(other)) == MeanOf(TopHalf(Ranking(rows, s, excluded, parse)))
  {
    var ranked := Ranking(rows, s, excluded, parse);
    RankingQualified(rows, s, excluded, parse);
    MultisetKeys(other, ranked);
    AnyRankingSameMean(other, ranked);
  }

  // ---------------------------------------------------------------------
  // The whole of process_data.

  /** process_data as a function of the parsed document, the translator,
      the excluded-number text and the number parser. */
  function Process(tables: seq<Table>, tr: Translator, excludedText: string, parse: NumericParser): Outcome {
    match Extracted(tables)
    case None => NoTable
    case Some(f) =>
      if IsEmpty(f) then NoTable
      else
        ExtractedWellShaped(tables);
        var g := NormalizeDates(TranslatedFrame(PromoteHeader(f), tr));
        match Resolve(g.columns)
        case None => Failed
        case Some(s) => Summarize(g.columns, g.rows, s, ExcludedNumbers(excludedText), parse)
  }

  /** Once the frame is prepared, the run ends in the error when a column
      cannot be resolved and in the summary of the frame otherwise. */
  lemma ProcessOfPrepared(tables: seq<Table>, tr: Translator, excludedText: string, parse: NumericParser, g: Frame)
    requires Extracted(tables).Some? && !IsEmpty(Extracted(tables).value)
    requires NormalizeDates(TranslatedFrame(PromoteHeader(Extracted(tables).value), tr)) == g
    ensures Resolve(g.columns).None? ==> Process(tables, tr, excludedText, parse) == Failed
    ensures Resolve(g.columns).Some? ==>
      (Process(tables, tr, excludedText, parse)
       == Summarize(g.columns, g.rows, Resolve(g.columns).value, ExcludedNumbers(excludedText), parse))
  {
  }

  /** process_data step by step: the extracted frame is reshaped, translated
      and normalised in place, then summarised. */
  method ProcessData(tables: seq<Table>, tr: Translator, excludedText: string, parse: NumericParser)
    returns (o: Outcome)
    ensures o == Process(tables, tr, excludedText, parse)
  {
    var extracted := ExtractTable(tables);
    if extracted.None? || IsEmpty(extracted.value) {
      return NoTable;
    }
    ExtractedWellShaped(tables);
    var df := extracted.value;
    df := PromoteHeader(df);
    df := TranslateFrame(df, tr);
    if DateColumn in df.columns {
      df := NormalizeDates(df);
    } else {
      NormalizeDatesEffect(df);
    }
    var schema := Resolve(df.columns);
    if schema.None? {
      return Failed;
    }
    var excluded := ExcludedNumbers(excludedText);
    o := Summarize(df.columns, df.rows, schema.value, excluded, parse);
  }

  /** The translated header: the cells of table row 1, each through the
      translator. */
  function TranslatedHeader(tables: seq<Table>, tr: Translator): (names: seq<string>)
    requires |tables| >= 2 && |tables[1]| >= 2
  {
    seq(|tables[1][1]|, k requires 0 <= k < |tables[1][1]| => TranslateText(tables[1][1][k], tr))
  }

  /** No table is reported exactly when table 1 is missing, has fewer than
      two rows or an empty row 1, or has a non-empty header row narrower
      than row 1; otherwise the run fails exactly when the translated
      row 1 does not name the columns the queries need. */
  lemma ProcessOutcomeCases(tables: seq<Table>, tr: Translator, excludedText: string, parse: NumericParser)
    ensures Process(tables, tr, excludedText, parse).NoTable? <==>
      !(|tables| >= 2 && |tables[1]| >= 2 && |tables[1][1]| > 0 && !(0 < |tables[1][0]| < |tables[1][1]|))
    ensures Process(tables, tr, excludedText, parse).Failed? <==>
      |tables| >= 2 && |tables[1]| >= 2 && |tables[1][1]| > 0 && !(0 < |tables[1][0]| < |tables[1][1]|)
      && !Resolvable(TranslatedHeader(tables, tr))
  {
    ExtractedUsable(tables);
    if Extracted(tables).Some? && !IsEmpty(Extracted(tables).value) {
      ExtractedShape(tables);
      var f := Extracted(tables).value;
      var g := NormalizeDates(TranslatedFrame(PromoteHeader(f), tr));
      FitCells(tables[1][1], |tables[1][1]|);
      assert g.columns == TranslatedHeader(tables, tr);
    }
  }

  // ---------------------------------------------------------------------
  // The three values returned (main.py:119-121).

  const NoTableMessage := "No table found or error during extraction."
  const NoAverageMessage := "Could not calculate the average '" + PerSqMColumn + "' due to missing data or column."
  const ErrorPrefix := "An error occurred: "

  /** What process_data returns: the English line, the Marathi line and
      the table shown to the user. */
  datatype Output = Output(english: string, marathi: string, columns: seq<string>, rows: seq<Ranked>)

  /** `f"{average_sqm:.2f}"`: NaN prints as "nan"; the formatting of a
      number is a parameter. */
  function MeanText(m: Mean, fmt2: real -> string): string {
    if m.Value? then fmt2(m.v) else "nan"
  }

  const EnglishLead := "The average of these "
  const MarathiLead := "सदर "

  function EnglishReport(halfRows: nat, mean: string): string {
    EnglishLead + NatToString(halfRows) + " purchase and sale transactions is Rs. " + mean + "/- per sq. m."
  }

  function MarathiReport(halfRows: nat, mean: string): string {
    MarathiLead + NatToString(halfRows) + " खरेदी विक्री व्यवहारांची सरासरी रु. " + mean + "/- प्रती चौ. मी."
  }

  /** The returned triple; `detail` is the text of the exception caught. */
  function Render(o: Outcome, fmt2: real -> string, detail: string): Output {
    match o
    case NoTable => Output(NoTableMessage, "", [], [])
    case Failed => Output(ErrorPrefix + detail, "", [], [])
    case Summary(columns, halfRows, mean, top) =>
      if Truthy(mean) then
        Output(EnglishReport(halfRows, MeanText(mean, fmt2)), MarathiReport(halfRows, MeanText(mean, fmt2)), columns, top)
      else Output(NoAverageMessage, "", columns, top)
  }

  /** The Marathi line is empty exactly when no average is reported; the
      "could not calculate" line appears exactly for a summary whose mean
      is missing or zero; only a summary returns rows. */
  lemma RenderCases(o: Outcome, fmt2: real -> string, detail: string)
    ensures var out := Render(o, fmt2, detail);
      (out.marathi != "" <==> o.Summary? && Truthy(o.mean))
      && (out.english == NoAverageMessage <==> o.Summary? && !Truthy(o.mean))
      && (out.english == NoTableMessage <==> o.NoTable?)
      && (!o.Summary? ==> out.rows == [] && out.columns == [])
      && (o.Summary? ==> out.rows == o.top)
  {
    NoTableInitial();
    NoAverageInitial();
    match o
    case NoTable =>
    case Failed =>
      assert (ErrorPrefix + detail)[0] == 'A';
    case Summary(columns, halfRows, mean, top) =>
      if Truthy(mean) {
        assert EnglishReport(halfRows, MeanText(mean, fmt2))[0] == 'T';
        assert |MarathiReport(halfRows, MeanText(mean, fmt2))| > 0;
      }
  }

  /** Both lines of a reported average carry the number of rows averaged:
      the digits after the opening words read back as that count. */
  lemma ReportedCount(o: Outcome, fmt2: real -> string, detail: string)
    requires o.Summary? && Truthy(o.mean)
    ensures var out := Render(o, fmt2, detail);
      var count := NatToString(o.halfRows);
      |EnglishLead| + |count| <= |out.english| && |MarathiLead| + |count| <= |out.marathi|
      && out.english[..|EnglishLead|] == EnglishLead && out.marathi[..|MarathiLead|] == MarathiLead
      && out.english[|EnglishLead|..|EnglishLead| + |count|] == count
      && out.marathi[|MarathiLead|..|MarathiLead| + |count|] == count
      && DigitsValue(out.english[|EnglishLead|..|EnglishLead| + |count|]) == o.halfRows
      && DigitsValue(out.marathi[|MarathiLead|..|MarathiLead| + |count|]) == o.halfRows
  {
    var count := NatToString(o.halfRows);
    var mean := MeanText(o.mean, fmt2);
    NatToStringRoundTrip(o.halfRows);
    var e := EnglishReport(o.halfRows, mean);
    var eRest := " purchase and sale transactions is Rs. " + mean + "/- per sq. m.";
    assert e == EnglishLead + count + eRest;
    LeadAndCount(EnglishLead, count, eRest);
    var m := MarathiReport(o.halfRows, mean);
    var mRest := " खरेदी विक्री व्यवहारांची सरासरी रु. " + mean + "/- प्रती चौ. मी.";
    assert m == MarathiLead + count + mRest;
    LeadAndCount(MarathiLead, count, mRest);
  }

  /** The pieces of `lead + count + rest` are found at their positions. */
  lemma LeadAndCount(lead: string, count: string, rest: string)
    ensures (lead + count + rest)[..|lead|] == lead
    ensures (lead + count + rest)[|lead|..|lead| + |count|] == count
  {
  }

  lemma NoTableInitial()
    ensures NoTableMessage[0] == 'N'
  {
  }

  lemma NoAverageInitial()
    ensures NoAverageMessage[0] == 'C'
  {
  }

  /** When no row survives, the report is the "could not calculate" line,
      an empty Marathi line and no rows. */
  lemma NoSurvivorsCannotAverage(columns: seq<string>, rows: seq<Row>, s: Schema, excluded: set<int>,
                                 parse: NumericParser, fmt2: real -> string, detail: string)
    requires Survivors(rows, s, excluded) == []
    ensures Summarize(columns, rows, s, excluded, parse) == Summary(columns, 0, Undefined, [])
    ensures Render(Summarize(columns, rows, s, excluded, parse), fmt2, detail)
      == Output(NoAverageMessage, "", columns, [])
  {
  }
}
