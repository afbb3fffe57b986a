/** Script test and translation (main.py:46-65). Only text holding a
    Devanagari character (U+0900..U+097F) goes to the translator, which is an
    outside service: here a total function that answers Some(translation) or
    None for a call that raised. A failed call leaves the text as it was.
    Column names and every cell pass through the same test. */
module Translation {
  import opened Wrappers
  import opened Extraction

  /** The outside translator, Marathi to English; None stands for an exception. */
  type Translator = string -> Option<string>

  predicate IsDevanagari(c: char) {
    '\U{0900}' <= c <= '\U{097F}'
  }

  /** `contains_devanagari`: some character lies in the Devanagari block. */
  predicate ContainsDevanagari(s: string) {
    exists i :: 0 <= i < |s| && IsDevanagari(s[i])
  }

  /** `translate_devanagari_only`: the translator's answer for Devanagari
      text it could translate, the text itself otherwise. */
  function TranslateText(text: string, tr: Translator): (r: string)
    ensures !ContainsDevanagari(text) ==> r == text
    ensures tr(text).None? ==> r == text
    ensures r != text ==> ContainsDevanagari(text) && tr(text) == Some(r)
    ensures ContainsDevanagari(text) && tr(text).Some? ==> r == tr(text).value
  {
    if ContainsDevanagari(text) then
      match tr(text)
      case Some(translated) => translated
      case None => text
    else text
  }

  /** Translating twice is translating once when the translator never
      answers with Devanagari text. */
  lemma TranslateTextIdempotent(text: string, tr: Translator)
    requires forall s :: tr(s).Some? ==> !ContainsDevanagari(tr(s).value)
    ensures TranslateText(TranslateText(text, tr), tr) == TranslateText(text, tr)
  {
  }

  /** The frame `translate_dataframe_content` returns: every column name and
      every cell passed through TranslateText, in place. */
  function TranslatedFrame(f: Frame, tr: Translator): Frame {
    Frame(seq(|f.columns|, j requires 0 <= j < |f.columns| => TranslateText(f.columns[j], tr)),
          seq(|f.rows|, i requires 0 <= i < |f.rows| =>
            seq(|f.rows[i]|, k requires 0 <= k < |f.rows[i]| => TranslateText(f.rows[i][k], tr))))
  }

  /** Cell `k` of every row replaced by its translation. */
  function TranslateColumn(rows: seq<Row>, k: nat, tr: Translator): (r: seq<Row>)
    ensures |r| == |rows|
    ensures forall i :: 0 <= i < |rows| ==> |r[i]| == |rows[i]|
    ensures forall i, m :: 0 <= i < |rows| && 0 <= m < |rows[i]| ==>
      r[i][m] == if m == k then TranslateText(rows[i][m], tr) else rows[i][m]
  {
    seq(|rows|, i requires 0 <= i < |rows| =>
      if k < |rows[i]| then rows[i][k := TranslateText(rows[i][k], tr)] else rows[i])
  }

  /** `translate_dataframe_content`: renames the columns, then reassigns
      the columns one after another. */
  method TranslateFrame(f: Frame, tr: Translator) returns (g: Frame)
    requires WellShaped(f)
    ensures g == TranslatedFrame(f, tr)
  {
    var columns := seq(|f.columns|, j requires 0 <= j < |f.columns| => TranslateText(f.columns[j], tr));
    var rows := f.rows;
    var k := 0;
    while k < |columns|
      invariant 0 <= k <= |columns|
      invariant |rows| == |f.rows|
      invariant forall i :: 0 <= i < |rows| ==> |rows[i]| == |f.columns|
      invariant forall i, m :: 0 <= i < |rows| && 0 <= m < |f.columns| ==>
        rows[i][m] == if m < k then TranslateText(f.rows[i][m], tr) else f.rows[i][m]
    {
      rows := TranslateColumn(rows, k, tr);
      k := k + 1;
    }
    var expected := TranslatedFrame(f, tr);
    forall i | 0 <= i < |rows| ensures rows[i] == expected.rows[i] {
      assert |rows[i]| == |expected.rows[i]|;
    }
    g := Frame(columns, rows);
  }

  /** Translation keeps the frame's shape: the number and order of columns,
      the number of rows, every row's width; text without Devanagari, and
      text the translator failed on, stays as it was. */
  lemma TranslatedFrameShape(f: Frame, tr: Translator)
    requires WellShaped(f)
    ensures var g := TranslatedFrame(f, tr);
      |g.columns| == |f.columns| && |g.rows| == |f.rows| && WellShaped(g)
      && (forall j :: 0 <= j < |f.columns| ==>
            g.columns[j] == TranslateText(f.columns[j], tr))
      && (forall i, k :: 0 <= i < |f.rows| && 0 <= k < |f.columns| ==>
            (g.rows[i][k] == f.rows[i][k] || ContainsDevanagari(f.rows[i][k])))
  {
    var g := TranslatedFrame(f, tr);
    forall i, k | 0 <= i < |f.rows| && 0 <= k < |f.columns|
      ensures g.rows[i][k] == f.rows[i][k] || ContainsDevanagari(f.rows[i][k])
    {
      assert g.rows[i][k] == TranslateText(f.rows[i][k], tr);
    }
  }

  /** A frame with no Devanagari text anywhere is left as it is, whatever
      the translator would answer. */
  lemma TranslatedFrameUnchanged(f: Frame, tr: Translator)
    requires forall j :: 0 <= j < |f.columns| ==> !ContainsDevanagari(f.columns[j])
    requires forall i, k :: 0 <= i < |f.rows| && 0 <= k < |f.rows[i]| ==> !ContainsDevanagari(f.rows[i][k])
    ensures TranslatedFrame(f, tr) == f
  {
    var g := TranslatedFrame(f, tr);
    forall i | 0 <= i < |f.rows| ensures g.rows[i] == f.rows[i] {
    }
  }
}
