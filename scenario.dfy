/** A worked run of process_data on a two-transaction table: one sale in the
    window and one row that fails every test. The document's table 1 has a
    title row, the header row, then the two transactions, since extraction
    consumes one row as the frame's column names and process_data promotes
    the next to the header. */
module Scenario {
  import opened Wrappers
  import opened Text
  import opened Extraction
  import opened Translation
  import opened Dates
  import opened Filters
  import opened Aggregation
  import opened Pipeline

  const Header: Row := ["Date", "Purchase price", "Per sq. M.", "Type of document", "Survey No."]
  const RowA: Row := ["2021-01-01", "500000", "50", "Sale deed", "12/3"]
  const RowB: Row := ["2019-01-01", "0", "5", "Conveyance deed", "7"]

  /** The transaction table with its title row (here the header again). */
  const Document: seq<Table> := [[], [Header, Header, RowA, RowB]]

  /** The same table without a title row. */
  const NoTitleDocument: seq<Table> := [[], [Header, RowA, RowB]]

  const Columns := Schema(0, 1, 2, 3, 4)

  lemma HeaderIsAscii()
    ensures forall j :: 0 <= j < |Header| ==> !ContainsDevanagari(Header[j])
  {
  }

  lemma RowsAreAscii()
    ensures forall k :: 0 <= k < |RowA| ==> !ContainsDevanagari(RowA[k])
    ensures forall k :: 0 <= k < |RowB| ==> !ContainsDevanagari(RowB[k])
  {
  }

  /** Extraction keeps the three rows after the title as they are. */
  lemma ExtractScenario()
    ensures Extracted(Document) == Some(Frame(HeaderNames(Header, 5), [Header, RowA, RowB]))
  {
    var t := Document[1];
    assert |t| == 4 && |t[1]| == 5;
    assert Fit(Header, 5) == Header && Fit(RowA, 5) == RowA && Fit(RowB, 5) == RowB;
    assert seq(3, i requires 0 <= i < 3 => Fit(t[i + 1], 5)) == [Header, RowA, RowB];
  }

  /** No text is in Devanagari, so translation changes nothing. */
  lemma TranslateScenario(tr: Translator)
    ensures TranslatedFrame(Frame(Header, [RowA, RowB]), tr) == Frame(Header, [RowA, RowB])
  {
    var f := Frame(Header, [RowA, RowB]);
    HeaderIsAscii();
    RowsAreAscii();
    assert forall i, k :: 0 <= i < |f.rows| && 0 <= k < |f.rows[i]| ==> !ContainsDevanagari(f.rows[i][k]) by {
      assert f.rows[0] == RowA && f.rows[1] == RowB;
    }
    TranslatedFrameUnchanged(f, tr);
  }

  lemma DatesAreIso()
    ensures '/' !in RowA[0] && '.' !in RowA[0]
    ensures '/' !in RowB[0] && '.' !in RowB[0]
  {
  }

  lemma OnlyFirstColumnIsDate()
    ensures forall k :: 1 <= k < |Header| ==> Header[k] != DateColumn
    ensures Header[0] == DateColumn
  {
  }

  lemma SettledA()
    ensures NoDateSeparators(Header, RowA)
  {
    DatesAreIso();
    OnlyFirstColumnIsDate();
  }

  lemma SettledB()
    ensures NoDateSeparators(Header, RowB)
  {
    DatesAreIso();
    OnlyFirstColumnIsDate();
  }

  /** The dates are already `YYYY-MM-DD`, so normalisation changes nothing. */
  lemma NormalizeScenario()
    ensures NormalizeDates(Frame(Header, [RowA, RowB])) == Frame(Header, [RowA, RowB])
  {
    SettledA();
    SettledB();
    NormalizeWithoutSeparators(Frame(Header, [RowA, RowB]));
  }

  lemma HeaderLowered()
    ensures AsciiLower(Header[0]) == "date"
    ensures AsciiLower(Header[1]) == "purchase price"
    ensures AsciiLower(Header[2]) == "per sq. m."
    ensures AsciiLower(Header[3]) == "type of document"
    ensures AsciiLower(Header[4]) == "survey no."
  {
  }

  lemma HeaderDistinct()
    ensures DistinctIdentifiers(Header)
  {
    HeaderLowered();
  }

  /** The header names each queried column once, in order. */
  lemma ResolveScenario()
    ensures Resolve(Header) == Some(Columns)
  {
    HeaderDistinct();
    HeaderLowered();
    var r := Resolve(Header);
    assert Header[2] == PerSqMColumn;
    assert Names(Header, DateColumn) by { assert SameIdentifier(Header[0], DateColumn); }
    assert Names(Header, PriceColumn) by { assert SameIdentifier(Header[1], PriceColumn); }
    assert Names(Header, PerSqMColumn) by { assert SameIdentifier(Header[2], PerSqMColumn); }
    assert Names(Header, DeedTypeColumn) by { assert SameIdentifier(Header[3], DeedTypeColumn); }
    assert Names(Header, SurveyNoColumn) by { assert SameIdentifier(Header[4], SurveyNoColumn); }
    assert Resolvable(Header);
    var s := r.value;
    assert s.date == 0 by {
      assert SameIdentifier(Header[s.date], Header[0]);
    }
    assert s.price == 1 by {
      assert SameIdentifier(Header[s.price], Header[1]);
    }
    assert s.perSqM == 2 by {
      assert SameIdentifier(Header[s.perSqM], Header[2]);
    }
    assert s.deed == 3 by {
      assert SameIdentifier(Header[s.deed], Header[3]);
    }
    assert s.survey == 4 by {
      assert SameIdentifier(Header[s.survey], Header[4]);
    }
  }

  /** Row A is in the window, has a real price, a per-unit price outside
      the low band and a sale deed. */
  lemma RowAPasses()
    ensures PassesStages(Columns, RowA)
  {
    assert LexLe(StartDate, RowA[0]);
    assert LexLe(RowA[0], EndDate);
    assert OutsideLowBand(RowA[2]) by {
      assert !LexLe(RowA[2], "10");
    }
    assert NotExcludedDeed(RowA[3]) by {
      assert forall k :: 0 <= k < |ExcludedDeeds| ==> |ExcludedDeeds[k]| != |RowA[3]|;
    }
  }

  /** Row B fails the date test, and on their own the price and deed tests
      too; its per-unit price "5" sorts after "10" as text, so the low band
      does not catch it. */
  lemma RowBFails()
    ensures !DateStage(Columns, RowB)
    ensures !NotSentinelPrice(RowB[1]) && !NotExcludedDeed(RowB[3])
    ensures OutsideLowBand(RowB[2])
  {
    assert !LexLe(StartDate, RowB[0]) by {
      assert StartDate[..3] == "202" && RowB[0][..3] == "201";
    }
    assert !LexLe(RowB[2], "10");
    assert RowB[3] == ExcludedDeeds[0];
  }

  /** An empty exclusion text excludes nothing. */
  lemma NothingExcluded()
    ensures ExcludedNumbers("") == {}
  {
    assert ReplaceChar("", ' ', ',') == "";
    assert ExclusionPieces("") == [""];
    assert Strip("") == "";
    assert StrippedPieces("") == [""];
    assert !AllDigits("");
    assert ExcludedTokens("") == [];
    ExcludedNumbersFromTokens("");
  }

  /** Only row A survives the four queries. */
  lemma SurvivorsScenario()
    ensures Survivors([RowA, RowB], Columns, {}) == [RowA]
  {
    RowAPasses();
    RowBFails();
    FilterStagesConjunction([RowA, RowB], Columns);
    assert [RowA, RowB][1..] == [RowB];
    assert Filter([RowA, RowB], StagesTest(Columns)) == [RowA];
    assert SurveyStage(Columns, {}, RowA);
    assert FilterSurvey([RowA], Columns, {}) == [RowA];
  }

  /** Row A alone is ranked, keyed by the number its cell parses to. */
  lemma RankingScenario(parse: NumericParser)
    requires parse("50") == Some(50.0)
    ensures Ranking([RowA, RowB], Columns, {}, parse) == [Ranked(RowA, Some(50.0))]
  {
    SurvivorsScenario();
    var keyed := KeyRows([RowA], Columns, parse);
    assert keyed == [Ranked(RowA, Some(50.0))];
    assert Rank(keyed) == Insert(keyed[0], Rank([]));
  }

  /** A single row forms the top half, and the mean is its number. */
  lemma SingleRowSummary(x: Ranked, v: real)
    requires x.perSqM == Some(v)
    ensures TopHalf([x]) == [x]
    ensures MeanOf([x]) == Value(v)
  {
    assert Keys([x]) == [Some(v)];
    assert Numbers([Some(v)]) == Numbers([]) + [v];
    assert Sum([v]) == Sum([]) + v;
  }

  /** The top half is that one row and the mean is its per-unit price. */
  lemma SummarizeScenario(parse: NumericParser)
    requires parse("50") == Some(50.0)
    ensures Summarize(Header, [RowA, RowB], Columns, {}, parse)
      == Summary(Header, 1, Value(50.0), [Ranked(RowA, Some(50.0))])
  {
    RankingScenario(parse);
    SingleRowSummary(Ranked(RowA, Some(50.0)), 50.0);
  }

  /** Reshaping, translating and normalising the extracted frame leaves
      the header and the two transactions. */
  lemma PreparedScenario(tr: Translator)
    ensures NormalizeDates(TranslatedFrame(PromoteHeader(Extracted(Document).value), tr))
      == Frame(Header, [RowA, RowB])
  {
    ExtractScenario();
    var f := Frame(HeaderNames(Header, 5), [Header, RowA, RowB]);
    assert PromoteHeader(f) == Frame(Header, [RowA, RowB]);
    TranslateScenario(tr);
    NormalizeScenario();
  }

  /** The whole run on the document: row A alone is reported. */
  lemma ProcessScenario(tr: Translator, parse: NumericParser)
    requires parse("50") == Some(50.0)
    ensures Process(Document, tr, "", parse) == Summary(Header, 1, Value(50.0), [Ranked(RowA, Some(50.0))])
  {
    ExtractScenario();
    assert !IsEmpty(Extracted(Document).value);
    PreparedScenario(tr);
    ResolveScenario();
    ProcessOfPrepared(Document, tr, "", parse, Frame(Header, [RowA, RowB]));
    NothingExcluded();
    SummarizeScenario(parse);
  }

  /** The lines rendered for that summary. */
  lemma RenderScenario(fmt2: real -> string, detail: string)
    requires fmt2(50.0) == "50.00"
    ensures var out := Render(Summary(Header, 1, Value(50.0), [Ranked(RowA, Some(50.0))]), fmt2, detail);
      out.english == "The average of these " + "1" + " purchase and sale transactions is Rs. " + "50.00" + "/- per sq. m."
      && out.marathi == "सदर " + "1" + " खरेदी विक्री व्यवहारांची सरासरी रु. " + "50.00" + "/- प्रती चौ. मी."
      && out.columns == Header && out.rows == [Ranked(RowA, Some(50.0))]
  {
    assert NatToString(1) == "1";
    assert MeanText(Value(50.0), fmt2) == "50.00";
  }

  /** The report counts one transaction at 50.00 per square metre, in
      English and in Marathi, and shows row A. */
  lemma ReportScenario(tr: Translator, parse: NumericParser, fmt2: real -> string, detail: string)
    requires parse("50") == Some(50.0)
    requires fmt2(50.0) == "50.00"
    ensures var out := Render(Process(Document, tr, "", parse), fmt2, detail);
      out.english == "The average of these " + "1" + " purchase and sale transactions is Rs. " + "50.00" + "/- per sq. m."
      && out.marathi == "सदर " + "1" + " खरेदी विक्री व्यवहारांची सरासरी रु. " + "50.00" + "/- प्रती चौ. मी."
      && out.columns == Header && out.rows == [Ranked(RowA, Some(50.0))]
  {
    ProcessScenario(tr, parse);
    RenderScenario(fmt2, detail);
  }

  /** Without the title row extraction keeps the two transactions. */
  lemma ExtractWithoutTitleRow()
    ensures Extracted(NoTitleDocument) == Some(Frame(HeaderNames(Header, 5), [RowA, RowB]))
  {
    var t := NoTitleDocument[1];
    assert |t| == 3 && |t[1]| == 5;
    assert Fit(RowA, 5) == RowA && Fit(RowB, 5) == RowB;
    assert seq(2, i requires 0 <= i < 2 => Fit(t[i + 1], 5)) == [RowA, RowB];
  }

  /** ... and the first of them becomes the header, untouched by
      translation and by date normalisation. */
  lemma PreparedWithoutTitleRow(tr: Translator)
    ensures NormalizeDates(TranslatedFrame(PromoteHeader(Extracted(NoTitleDocument).value), tr))
      == Frame(RowA, [RowB])
  {
    ExtractWithoutTitleRow();
    var g := Frame(RowA, [RowB]);
    assert PromoteHeader(Frame(HeaderNames(Header, 5), [RowA, RowB])) == g;
    RowsAreAscii();
    TranslatedFrameUnchanged(g, tr);
    assert DateColumn !in RowA by {
      assert forall k :: 0 <= k < |RowA| ==> RowA[k] != DateColumn;
    }
    NormalizeDatesEffect(g);
  }

  /** No cell of row A answers to `Date`. */
  lemma RowAHasNoDate()
    ensures !Resolvable(RowA)
  {
    assert !Names(RowA, DateColumn) by {
      forall j | 0 <= j < |RowA| ensures !SameIdentifier(RowA[j], DateColumn) {
        if j == 4 {
          assert AsciiLower(RowA[4])[0] == '1';
        } else {
          assert |RowA[j]| != |DateColumn|;
        }
      }
    }
    assert RequiredColumns[0] == DateColumn;
  }

  /** Without the title row the first transaction becomes the header, no
      column is named `Date`, and the run ends in the error message. */
  lemma ProcessWithoutTitleRow(tr: Translator, parse: NumericParser, fmt2: real -> string, detail: string)
    ensures Process(NoTitleDocument, tr, "", parse) == Failed
    ensures Render(Process(NoTitleDocument, tr, "", parse), fmt2, detail).english == ErrorPrefix + detail
  {
    ExtractWithoutTitleRow();
    assert !IsEmpty(Extracted(NoTitleDocument).value);
    PreparedWithoutTitleRow(tr);
    RowAHasNoDate();
    ProcessOfPrepared(NoTitleDocument, tr, "", parse, Frame(RowA, [RowB]));
  }
}
