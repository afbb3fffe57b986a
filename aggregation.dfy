/** Ranking and averaging (main.py:114-118). The `Per sq. M.` text of each
    surviving row is read as a number, with unreadable text becoming NaN
    (here None); rows are ordered by that number, largest first and NaN
    last; the first half, rounded up, is kept; and the mean of its numbers
    is taken, skipping NaN. */
module Aggregation {
  import opened Wrappers
  import opened Extraction

  /** `pd.to_numeric(..., errors='coerce')` on one cell: a number, or None
      for NaN. Floating-point parsing is not modelled; it is a parameter. */
  type NumericParser = string -> Option<real>

  /** A surviving row and the number read from its `Per sq. M.` cell. */
  datatype Ranked = Ranked(cells: Row, perSqM: Option<real>)

  /** The sort order: larger numbers first, NaN after every number. */
  predicate KeyGe(a: Option<real>, b: Option<real>) {
    match a
    case None => b.None?
    case Some(x) => b.None? || x >= b.value
  }

  /** Every key is at least the next one. */
  predicate DescendingKeys(keys: seq<Option<real>>) {
    forall i :: 0 <= i < |keys| - 1 ==> KeyGe(keys[i], keys[i + 1])
  }

  function Keys(rows: seq<Ranked>): (keys: seq<Option<real>>)
    ensures |keys| == |rows|
    ensures forall i :: 0 <= i < |rows| ==> keys[i] == rows[i].perSqM
  {
    seq(|rows|, i requires 0 <= i < |rows| => rows[i].perSqM)
  }

  lemma KeysConcat(a: seq<Ranked>, b: seq<Ranked>)
    ensures Keys(a + b) == Keys(a) + Keys(b)
  {
  }

  lemma KeysPrefix(rows: seq<Ranked>, n: nat)
    requires n <= |rows|
    ensures Keys(rows[..n]) == Keys(rows)[..n]
  {
  }

  /** One more row adds its key. */
  lemma KeysSnoc(init: seq<Ranked>, x: Ranked)
    ensures multiset(Keys(init + [x])) == multiset(Keys(init)) + multiset{x.perSqM}
  {
    KeysConcat(init, [x]);
    assert Keys([x]) == [x.perSqM];
  }

  /** Taking row `j` out takes its key out. */
  lemma KeysRemove(b: seq<Ranked>, j: nat)
    requires j < |b|
    ensures multiset(Keys(b)) == multiset(Keys(b[..j] + b[j + 1..])) + multiset{b[j].perSqM}
  {
    assert b == (b[..j] + [b[j]]) + b[j + 1..];
    KeysConcat(b[..j] + [b[j]], b[j + 1..]);
    KeysSnoc(b[..j], b[j]);
    KeysConcat(b[..j], b[j + 1..]);
  }

  /** Removing the same row from two rearrangements of each other leaves
      rearrangements of each other. */
  lemma RemoveMatching(a: seq<Ranked>, b: seq<Ranked>, j: nat)
    requires multiset(a) == multiset(b) && |a| > 0
    requires j < |b| && b[j] == a[|a| - 1]
    ensures multiset(a[..|a| - 1]) == multiset(b[..j] + b[j + 1..])
  {
    var x := a[|a| - 1];
    assert a == a[..|a| - 1] + [x];
    assert b == b[..j] + [x] + b[j + 1..];
    assert multiset(b) == multiset(b[..j] + b[j + 1..]) + multiset{x};
    assert multiset(a) == multiset(a[..|a| - 1]) + multiset{x};
    assert multiset(a[..|a| - 1]) == multiset(a) - multiset{x};
    assert multiset(b[..j] + b[j + 1..]) == multiset(b) - multiset{x};
  }

  /** Rearranging rows rearranges their keys. */
  lemma {:induction false} MultisetKeys(a: seq<Ranked>, b: seq<Ranked>)
    requires multiset(a) == multiset(b)
    ensures multiset(Keys(a)) == multiset(Keys(b))
  {
    if |a| == 0 {
      assert |multiset(b)| == 0;
    } else {
      var x := a[|a| - 1];
      var init := a[..|a| - 1];
      assert x in multiset(b) by {
        assert x in multiset(a);
      }
      var j :| 0 <= j < |b| && b[j] == x;
      RemoveMatching(a, b, j);
      MultisetKeys(init, b[..j] + b[j + 1..]);
      assert a == init + [x];
      KeysSnoc(init, x);
      KeysRemove(b, j);
    }
  }

  /** `sort_values(by='Per sq. M.', ascending=False)` as an ordering. */
  predicate Descending(rows: seq<Ranked>) {
    DescendingKeys(Keys(rows))
  }

  /** One row placed into a descending sequence after every row whose key
      is at least its own. */
  function Insert(x: Ranked, sorted: seq<Ranked>): (r: seq<Ranked>)
    ensures multiset(r) == multiset(sorted) + multiset{x}
    ensures |r| == |sorted| + 1
  {
    if |sorted| == 0 then [x]
    else if KeyGe(sorted[0].perSqM, x.perSqM) then
      assert sorted == [sorted[0]] + sorted[1..];
      [sorted[0]] + Insert(x, sorted[1..])
    else [x] + sorted
  }

  /** Inserting adds the row's key to the keys and nothing else. */
  lemma {:induction false} InsertKeys(x: Ranked, sorted: seq<Ranked>)
    ensures multiset(Keys(Insert(x, sorted))) == multiset(Keys(sorted)) + multiset{x.perSqM}
  {
    if |sorted| > 0 {
      if KeyGe(sorted[0].perSqM, x.perSqM) {
        InsertKeys(x, sorted[1..]);
        KeysConcat([sorted[0]], Insert(x, sorted[1..]));
        KeysConcat([sorted[0]], sorted[1..]);
        assert sorted == [sorted[0]] + sorted[1..];
      } else {
        KeysConcat([x], sorted);
      }
    }
  }

  /** Inserting into a descending sequence keeps it descending. */
  lemma {:induction false} InsertDescending(x: Ranked, sorted: seq<Ranked>)
    requires Descending(sorted)
    ensures Descending(Insert(x, sorted))
    ensures |sorted| > 0 ==> Insert(x, sorted)[0] == sorted[0] || Insert(x, sorted)[0] == x
  {
    if |sorted| > 0 && KeyGe(sorted[0].perSqM, x.perSqM) {
      var tail := sorted[1..];
      assert Descending(tail) by {
        forall i | 0 <= i < |tail| - 1 ensures KeyGe(Keys(tail)[i], Keys(tail)[i + 1]) {
          assert Keys(tail)[i] == Keys(sorted)[i + 1];
          assert Keys(tail)[i + 1] == Keys(sorted)[i + 2];
        }
      }
      InsertDescending(x, tail);
      var r := Insert(x, sorted);
      var rest := Insert(x, tail);
      assert r == [sorted[0]] + rest;
      forall i | 0 <= i < |r| - 1 ensures KeyGe(Keys(r)[i], Keys(r)[i + 1]) {
        if i == 0 {
          if |tail| > 0 && rest[0] == tail[0] {
            assert Keys(sorted)[0] == sorted[0].perSqM && Keys(sorted)[1] == tail[0].perSqM;
          }
        } else {
          assert Keys(r)[i] == Keys(rest)[i - 1];
          assert Keys(r)[i + 1] == Keys(rest)[i];
        }
      }
    } else if |sorted| > 0 {
      var r := Insert(x, sorted);
      assert r == [x] + sorted;
      forall i | 0 <= i < |r| - 1 ensures KeyGe(Keys(r)[i], Keys(r)[i + 1]) {
        if i > 0 {
          assert Keys(r)[i] == Keys(sorted)[i - 1];
          assert Keys(r)[i + 1] == Keys(sorted)[i];
        }
      }
    }
  }

  /** The ranking: an insertion sort, so rows with equal keys keep their
      order. Any other tie order gives the same keys (SortedKeysUnique). */
  function Rank(rows: seq<Ranked>): (r: seq<Ranked>)
    ensures multiset(r) == multiset(rows)
    ensures |r| == |rows|
  {
    if |rows| == 0 then []
    else
      assert rows == rows[..|rows| - 1] + [rows[|rows| - 1]];
      Insert(rows[|rows| - 1], Rank(rows[..|rows| - 1]))
  }

  /** The ranking is descending. */
  lemma {:induction false} RankDescending(rows: seq<Ranked>)
    ensures Descending(Rank(rows))
  {
    if |rows| > 0 {
      RankDescending(rows[..|rows| - 1]);
      InsertDescending(rows[|rows| - 1], Rank(rows[..|rows| - 1]));
    }
  }

  /** The ranking rearranges the keys and changes none of them. */
  lemma {:induction false} RankKeys(rows: seq<Ranked>)
    ensures multiset(Keys(Rank(rows))) == multiset(Keys(rows))
  {
    if |rows| > 0 {
      var init := rows[..|rows| - 1];
      var last := rows[|rows| - 1];
      var ranked := Rank(init);
      assert Rank(rows) == Insert(last, ranked);
      calc {
        multiset(Keys(Rank(rows)));
        { InsertKeys(last, ranked); }
        multiset(Keys(ranked)) + multiset{last.perSqM};
        { RankKeys(init); }
        multiset(Keys(init)) + multiset{last.perSqM};
        { KeysSnoc(init, last); }
        multiset(Keys(init + [last]));
        { assert rows == init + [last]; }
        multiset(Keys(rows));
      }
    }
  }

  /** KeyGe is a total order on keys. */
  lemma KeyGeTransitive(a: Option<real>, b: Option<real>, c: Option<real>)
    requires KeyGe(a, b) && KeyGe(b, c)
    ensures KeyGe(a, c)
  {
  }

  lemma KeyGeAntisymmetric(a: Option<real>, b: Option<real>)
    requires KeyGe(a, b) && KeyGe(b, a)
    ensures a == b
  {
  }

  /** A descending sequence is ordered between any two positions. */
  lemma {:induction false} DescendingPairwise(keys: seq<Option<real>>, i: nat, j: nat)
    requires DescendingKeys(keys)
    requires i <= j < |keys|
    ensures KeyGe(keys[i], keys[j])
    decreases j - i
  {
    if i < j {
      DescendingPairwise(keys, i + 1, j);
      KeyGeTransitive(keys[i], keys[i + 1], keys[j]);
    }
  }

  /** The first key of a descending sequence is at least every key in it. */
  lemma HeadIsGreatest(keys: seq<Option<real>>, x: Option<real>)
    requires DescendingKeys(keys) && x in multiset(keys)
    ensures KeyGe(keys[0], x)
  {
    var j :| 0 <= j < |keys| && keys[j] == x;
    DescendingPairwise(keys, 0, j);
  }

  /** Two descending arrangements of the same keys are the same sequence:
      how ties are broken cannot change which numbers sit at which rank. */
  lemma {:induction false} SortedKeysUnique(a: seq<Option<real>>, b: seq<Option<real>>)
    requires DescendingKeys(a) && DescendingKeys(b)
    requires multiset(a) == multiset(b)
    ensures a == b
  {
    if |a| == 0 {
      assert |multiset(b)| == 0;
    } else {
      assert |b| == |multiset(b)| == |multiset(a)| == |a|;
      assert a[0] in multiset(b) && b[0] in multiset(a);
      HeadIsGreatest(b, a[0]);
      HeadIsGreatest(a, b[0]);
      KeyGeAntisymmetric(a[0], b[0]);
      assert a == [a[0]] + a[1..] && b == [b[0]] + b[1..];
      assert multiset(a[1..]) == multiset(a) - multiset{a[0]};
      assert multiset(b[1..]) == multiset(b) - multiset{b[0]};
      SortedKeysUnique(a[1..], b[1..]);
    }
  }

  /** `math.ceil(n / 2) if n > 0 else 0`. */
  function HalfRows(n: nat): (h: nat)
    ensures h <= n
    ensures 2 * h >= n && 2 * h <= n + 1
  {
    (n + 1) / 2
  }

  /** `sorted_df.head(half_rows)`. */
  function TopHalf(ranked: seq<Ranked>): (top: seq<Ranked>)
    ensures |top| == HalfRows(|ranked|)
    ensures top == ranked[..|top|]
  {
    ranked[..HalfRows(|ranked|)]
  }

  /** The mean as the source ends up holding it: None when the top half is
      empty, NaN when it holds no number, a value otherwise. */
  datatype Mean = Undefined | NotANumber | Value(v: real)

  /** The numbers among the keys, NaN skipped. */
  function Numbers(keys: seq<Option<real>>): (xs: seq<real>)
    ensures |xs| <= |keys|
  {
    if |keys| == 0 then []
    else Numbers(keys[..|keys| - 1]) + (if keys[|keys| - 1].Some? then [keys[|keys| - 1].value] else [])
  }

  function Sum(xs: seq<real>): real {
    if |xs| == 0 then 0.0 else Sum(xs[..|xs| - 1]) + xs[|xs| - 1]
  }

  /** pandas' `Series.mean()`, which skips NaN, on the keys of a non-empty
      selection; Undefined for an empty one. */
  function MeanOfKeys(keys: seq<Option<real>>): Mean {
    if |keys| == 0 then Undefined
    else
      var xs := Numbers(keys);
      if |xs| == 0 then NotANumber else Value(Sum(xs) / (|xs| as real))
  }

  function MeanOf(rows: seq<Ranked>): Mean {
    MeanOfKeys(Keys(rows))
  }

  /** Python truth of the mean: None and 0.0 are false, NaN is true. */
  predicate Truthy(m: Mean) {
    m.NotANumber? || (m.Value? && m.v != 0.0)
  }

  /** Every number of a selection is one of its keys, and every numeric key
      is among the numbers, as often as it occurs among the keys; only the
      NaN keys are dropped. */
  lemma {:induction false} NumbersMembers(keys: seq<Option<real>>)
    ensures forall x :: x in Numbers(keys) <==> Some(x) in keys
    ensures forall x :: multiset(Numbers(keys))[x] == multiset(keys)[Some(x)]
    ensures |Numbers(keys)| == |keys| - multiset(keys)[None]
  {
    if |keys| > 0 {
      var init := keys[..|keys| - 1];
      var last := keys[|keys| - 1];
      NumbersMembers(init);
      assert keys == init + [last];
      assert multiset(keys) == multiset(init) + multiset{last};
      if last.Some? {
        assert Numbers(keys) == Numbers(init) + [last.value];
        assert multiset(Numbers(keys)) == multiset(Numbers(init)) + multiset{last.value};
      } else {
        assert Numbers(keys) == Numbers(init);
      }
    }
  }

  /** Each number comes from a numeric key. */
  lemma NumberIsKey(keys: seq<Option<real>>, i: nat)
    requires i < |Numbers(keys)|
    ensures Some(Numbers(keys)[i]) in keys
  {
    NumbersMembers(keys);
    assert Numbers(keys)[i] in Numbers(keys);
  }

  /** A sum of numbers each at least `lo` is at least `lo` times their count. */
  lemma {:induction false} SumAtLeast(xs: seq<real>, lo: real)
    requires forall i :: 0 <= i < |xs| ==> xs[i] >= lo
    ensures Sum(xs) >= (|xs| as real) * lo
  {
    if |xs| > 0 {
      SumAtLeast(xs[..|xs| - 1], lo);
    }
  }

  /** A sum of numbers each at most `hi` is at most `hi` times their count. */
  lemma {:induction false} SumAtMost(xs: seq<real>, hi: real)
    requires forall i :: 0 <= i < |xs| ==> xs[i] <= hi
    ensures Sum(xs) <= (|xs| as real) * hi
  {
    if |xs| > 0 {
      SumAtMost(xs[..|xs| - 1], hi);
    }
  }

  /** The mean is at least any lower bound of the numbers it averages. */
  lemma MeanAtLeast(keys: seq<Option<real>>, lo: real)
    requires forall i :: 0 <= i < |keys| && keys[i].Some? ==> lo <= keys[i].value
    requires MeanOfKeys(keys).Value?
    ensures MeanOfKeys(keys).v >= lo
  {
    var xs := Numbers(keys);
    forall i | 0 <= i < |xs| ensures xs[i] >= lo {
      NumberIsKey(keys, i);
      var k :| 0 <= k < |keys| && keys[k] == Some(xs[i]);
    }
    SumAtLeast(xs, lo);
    var n := |xs| as real;
    assert Sum(xs) >= n * lo;
  }

  /** The mean is at most any upper bound of the numbers it averages. */
  lemma MeanAtMost(keys: seq<Option<real>>, hi: real)
    requires forall i :: 0 <= i < |keys| && keys[i].Some? ==> keys[i].value <= hi
    requires MeanOfKeys(keys).Value?
    ensures MeanOfKeys(keys).v <= hi
  {
    var xs := Numbers(keys);
    forall i | 0 <= i < |xs| ensures xs[i] <= hi {
      NumberIsKey(keys, i);
      var k :| 0 <= k < |keys| && keys[k] == Some(xs[i]);
    }
    SumAtMost(xs, hi);
    var n := |xs| as real;
    assert Sum(xs) <= n * hi;
  }

  /** The rows kept are the highest-valued half: each of them ranks at least
      as high as every row left out. */
  lemma TopHalfDominates(ranked: seq<Ranked>, i: nat, j: nat)
    requires Descending(ranked)
    requires i < HalfRows(|ranked|) <= j < |ranked|
    ensures KeyGe(TopHalf(ranked)[i].perSqM, ranked[j].perSqM)
  {
    DescendingPairwise(Keys(ranked), i, j);
  }

  /** The average of the top half is at least every number left out of it. */
  lemma MeanAtLeastRest(ranked: seq<Ranked>, j: nat)
    requires Descending(ranked)
    requires HalfRows(|ranked|) <= j < |ranked| && ranked[j].perSqM.Some?
    requires MeanOf(TopHalf(ranked)).Value?
    ensures MeanOf(TopHalf(ranked)).v >= ranked[j].perSqM.value
  {
    var keys := Keys(TopHalf(ranked));
    var lo := ranked[j].perSqM.value;
    forall i | 0 <= i < |keys| && keys[i].Some? ensures lo <= keys[i].value {
      TopHalfDominates(ranked, i, j);
    }
    MeanAtLeast(keys, lo);
  }

  /** The mean depends only on the keys the ranking places in the top half,
      and those do not depend on how ties were broken: any two descending
      arrangements of the same rows give the same top-half keys and mean. */
  lemma AnyRankingSameMean(r1: seq<Ranked>, r2: seq<Ranked>)
    requires Descending(r1) && Descending(r2)
    requires multiset(Keys(r1)) == multiset(Keys(r2))
    ensures |r1| == |r2|
    ensures Keys(TopHalf(r1)) == Keys(TopHalf(r2))
    ensures MeanOf(TopHalf(r1)) == MeanOf(TopHalf(r2))
  {
    SortedKeysUnique(Keys(r1), Keys(r2));
    KeysPrefix(r1, HalfRows(|r1|));
    KeysPrefix(r2, HalfRows(|r2|));
  }
}
