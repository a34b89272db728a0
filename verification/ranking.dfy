/** The ranking behind the analytics view (main.py, `nlargest(10, 'Total')`
    in `display_analytics`): the first `k` records of the dataset after a
    stable sort by `Total`, largest first. Ties keep table order, so the
    ranking works on record positions: position `i` ranks before position
    `j` when record `i` has more medals in total, or as many and comes
    earlier in the table. */
module Ranking {

  import opened Medals
  import opened Table

  /** Position `i` ranks strictly before position `j`. */
  predicate Beats(data: Dataset, i: nat, j: nat) {
    && i < |data| && j < |data|
    && (data[i].total > data[j].total || (data[i].total == data[j].total && i < j))
  }

  /** Every entry of `s` is a position of `data`. */
  predicate Positions(data: Dataset, s: seq<nat>) {
    forall a :: 0 <= a < |s| ==> s[a] < |data|
  }

  /** `s` lists positions in strictly decreasing rank (hence without
      repetition). */
  predicate Ranked(data: Dataset, s: seq<nat>) {
    forall a, b :: 0 <= a < b < |s| ==> Beats(data, s[a], s[b])
  }

  predicate Distinct(s: seq<nat>) {
    forall a, b :: 0 <= a < b < |s| ==> s[a] != s[b]
  }

  /** Places position `i` in front of the first entry of `s` it ranks
      before (at the end when there is none). */
  function Insert(data: Dataset, i: nat, s: seq<nat>): (r: seq<nat>)
    ensures multiset(r) == multiset(s) + multiset{i}
  {
    if s == [] then [i]
    else if Beats(data, i, s[0]) then [i] + s
    else
      assert s == [s[0]] + s[1..];
      [s[0]] + Insert(data, i, s[1..])
  }

  /** Insertion sort of the positions in `s` by rank. */
  function Sort(data: Dataset, s: seq<nat>): (r: seq<nat>)
    ensures multiset(r) == multiset(s)
  {
    if s == [] then []
    else
      assert s == [s[0]] + s[1..];
      Insert(data, s[0], Sort(data, s[1..]))
  }

  /** Rank order is a strict total order on positions. */
  lemma BeatsTotal(data: Dataset, i: nat, j: nat)
    requires i < |data| && j < |data|
    ensures i != j ==> Beats(data, i, j) != Beats(data, j, i)
    ensures !Beats(data, i, i)
  {
  }

  lemma BeatsTransitive(data: Dataset, i: nat, j: nat, l: nat)
    requires Beats(data, i, j) && Beats(data, j, l)
    ensures Beats(data, i, l)
  {
  }

  /** Inserting a new position into a ranked list keeps it ranked. */
  lemma {:induction false} InsertRanked(data: Dataset, i: nat, s: seq<nat>)
    requires i < |data| && i !in s && Positions(data, s) && Ranked(data, s)
    ensures Ranked(data, Insert(data, i, s))
  {
    if s != [] {
      var r := Insert(data, i, s);
      if Beats(data, i, s[0]) {
        forall b | 0 < b < |r|
          ensures Beats(data, r[0], r[b])
        {
          if b > 1 {
            BeatsTransitive(data, i, s[0], s[b - 1]);
          }
        }
      } else {
        BeatsTotal(data, i, s[0]);
        var rest := Insert(data, i, s[1..]);
        InsertRanked(data, i, s[1..]);
        assert r == [s[0]] + rest;
        forall b | 0 <= b < |rest|
          ensures Beats(data, s[0], rest[b])
        {
          assert rest[b] in multiset(rest);
          if rest[b] != i {
            var c :| 0 <= c < |s[1..]| && s[1..][c] == rest[b];
            assert s[c + 1] == rest[b];
          }
        }
      }
    }
  }

  /** Sorting distinct positions yields them in rank order. */
  lemma {:induction false} SortRanked(data: Dataset, s: seq<nat>)
    requires Positions(data, s) && Distinct(s)
    ensures Ranked(data, Sort(data, s))
  {
    if s != [] {
      SortRanked(data, s[1..]);
      PermutedPositions(data, s[1..], Sort(data, s[1..]));
      assert s[0] !in multiset(s[1..]);
      InsertRanked(data, s[0], Sort(data, s[1..]));
    }
  }

  /** A rearrangement of positions of `data` holds only positions of `data`. */
  lemma PermutedPositions(data: Dataset, s: seq<nat>, r: seq<nat>)
    requires Positions(data, s) && multiset(r) == multiset(s)
    ensures Positions(data, r)
  {
    forall a | 0 <= a < |r|
      ensures r[a] < |data|
    {
      assert r[a] in multiset(s);
      var c :| 0 <= c < |s| && s[c] == r[a];
    }
  }

  /** All positions of `data`, in table order. */
  function AllPositions(data: Dataset): (s: seq<nat>)
    ensures |s| == |data| && Positions(data, s) && Distinct(s)
    ensures forall a :: 0 <= a < |s| ==> s[a] == a
  {
    seq(|data|, a => a)
  }

  function Min(a: nat, b: nat): nat {
    if a <= b then a else b
  }

  /** The positions of the `k` best-ranked records, best first. */
  function TopPositions(data: Dataset, k: nat): (idx: seq<nat>)
    ensures |idx| == Min(k, |data|)
    ensures Positions(data, idx) && Ranked(data, idx)
  {
    var all := AllPositions(data);
    var order := Sort(data, all);
    SortRanked(data, all);
    PermutedPositions(data, all, order);
    assert |order| == |multiset(order)| == |data|;
    order[..Min(k, |data|)]
  }

  /** The records at the given positions. */
  function Pick(data: Dataset, s: seq<nat>): (r: Dataset)
    requires Positions(data, s)
    ensures |r| == |s|
  {
    if s == [] then [] else [data[s[0]]] + Pick(data, s[1..])
  }

  /** `nlargest(k, 'Total')`: `min(k, |data|)` records of `data`, ordered by
      total, largest first. */
  function TopK(data: Dataset, k: nat): (r: Dataset)
    ensures |r| == Min(k, |data|)
    ensures forall a :: 0 <= a < |r| ==> r[a] in data
    ensures forall a, b :: 0 <= a < b < |r| ==> r[a].total >= r[b].total
  {
    var idx := TopPositions(data, k);
    PickAt(data, idx);
    Pick(data, idx)
  }

  /** The top-`k` specification on positions: `idx` holds `min(k, |data|)`
      positions in strictly decreasing rank, and every position left out
      ranks below every position taken. */
  predicate IsTopK(data: Dataset, k: nat, idx: seq<nat>) {
    && |idx| == Min(k, |data|)
    && Positions(data, idx)
    && Ranked(data, idx)
    && forall j, a :: 0 <= j < |data| && j !in idx && 0 <= a < |idx| ==> Beats(data, idx[a], j)
  }

  /** The ranking meets the specification. */
  lemma TopPositionsMeetSpec(data: Dataset, k: nat)
    ensures IsTopK(data, k, TopPositions(data, k))
  {
    var all := AllPositions(data);
    var order := Sort(data, all);
    var idx := TopPositions(data, k);
    var m := Min(k, |data|);
    SortRanked(data, all);
    assert |order| == |multiset(order)| == |data|;
    assert idx == order[..m];
    forall j, a | 0 <= j < |data| && j !in idx && 0 <= a < |idx|
      ensures Beats(data, idx[a], j)
    {
      assert all[j] == j;
      assert j in multiset(order);
      var p :| 0 <= p < |order| && order[p] == j;
      assert p >= m;
    }
  }

  /** Against a second solution `y` that agrees with `x` before entry `a`,
      `x[a]` is either `y[a]` itself or ranks below it. */
  lemma Dominated(data: Dataset, k: nat, x: seq<nat>, y: seq<nat>, a: nat)
    requires IsTopK(data, k, x) && IsTopK(data, k, y)
    requires a < |x| && x[..a] == y[..a]
    ensures x[a] == y[a] || Beats(data, y[a], x[a])
  {
    var u := x[a];
    forall b | 0 <= b < a
      ensures y[b] != u
    {
      assert y[b] == y[..a][b] == x[..a][b] == x[b];
      assert Beats(data, x[b], x[a]);
    }
    if u in y {
      var b :| 0 <= b < |y| && y[b] == u;
      if b > a {
        assert Beats(data, y[a], y[b]);
      }
    }
  }

  lemma {:induction false} PrefixAgree(data: Dataset, k: nat, x: seq<nat>, y: seq<nat>, n: nat)
    requires IsTopK(data, k, x) && IsTopK(data, k, y) && n <= |x|
    ensures x[..n] == y[..n]
  {
    if n > 0 {
      PrefixAgree(data, k, x, y, n - 1);
      Dominated(data, k, x, y, n - 1);
      Dominated(data, k, y, x, n - 1);
      BeatsTotal(data, x[n - 1], y[n - 1]);
      assert x[..n] == x[..n - 1] + [x[n - 1]];
      assert y[..n] == y[..n - 1] + [y[n - 1]];
    }
  }

  /** The top-`k` specification has exactly one solution, so it determines
      the ranking completely. */
  lemma TopKUnique(data: Dataset, k: nat, x: seq<nat>, y: seq<nat>)
    requires IsTopK(data, k, x) && IsTopK(data, k, y)
    ensures x == y
  {
    PrefixAgree(data, k, x, y, |x|);
  }

  /** Any solution of the specification is the ranking that `TopK` returns. */
  lemma TopKBySpec(data: Dataset, k: nat, idx: seq<nat>)
    requires IsTopK(data, k, idx)
    ensures TopPositions(data, k) == idx
    ensures TopK(data, k) == Pick(data, idx)
  {
    TopPositionsMeetSpec(data, k);
    TopKUnique(data, k, TopPositions(data, k), idx);
  }

  /** Every record left out of the top `k` has at most as many medals as
      every record shown, and fewer than those shown after it in the table. */
  lemma TopKDominates(data: Dataset, k: nat)
    ensures var idx := TopPositions(data, k);
      forall j, a :: 0 <= j < |data| && j !in idx && 0 <= a < |idx| ==>
        && data[j].total <= TopK(data, k)[a].total
        && (idx[a] > j ==> data[j].total < TopK(data, k)[a].total)
  {
    TopPositionsMeetSpec(data, k);
    PickAt(data, TopPositions(data, k));
  }

  lemma {:induction false} PickAt(data: Dataset, s: seq<nat>)
    requires Positions(data, s)
    ensures forall a :: 0 <= a < |s| ==> Pick(data, s)[a] == data[s[a]]
  {
    if s != [] {
      PickAt(data, s[1..]);
    }
  }

  lemma InsertPositions(data: Dataset, i: nat, s: seq<nat>)
    requires i < |data| && Positions(data, s)
    ensures Positions(data, Insert(data, i, s))
  {
    PermutedPositions(data, s + [i], Insert(data, i, s));
  }

  /** Picking after a leading position is picking that record, then the rest. */
  lemma PickCons(data: Dataset, x: nat, s: seq<nat>)
    requires x < |data| && Positions(data, s)
    ensures Positions(data, [x] + s)
    ensures Pick(data, [x] + s) == [data[x]] + Pick(data, s)
  {
    assert ([x] + s)[0] == x;
    assert ([x] + s)[1..] == s;
  }

  /** Putting the same position in front of two position lists keeps the
      multiset relation between their records. */
  lemma PickConsStep(data: Dataset, x: nat, i: nat, rest: seq<nat>, tail: seq<nat>)
    requires x < |data| && i < |data| && Positions(data, rest) && Positions(data, tail)
    requires multiset(Pick(data, rest)) == multiset(Pick(data, tail)) + multiset{data[i]}
    ensures Positions(data, [x] + rest) && Positions(data, [x] + tail)
    ensures multiset(Pick(data, [x] + rest)) == multiset(Pick(data, [x] + tail)) + multiset{data[i]}
  {
    PickCons(data, x, rest);
    PickCons(data, x, tail);
  }

  lemma {:induction false} PickInsert(data: Dataset, i: nat, s: seq<nat>)
    requires i < |data| && Positions(data, s)
    ensures Positions(data, Insert(data, i, s))
    ensures multiset(Pick(data, Insert(data, i, s))) == multiset(Pick(data, s)) + multiset{data[i]}
    decreases |s|, 1
  {
    if s == [] {
      PickCons(data, i, []);
    } else if Beats(data, i, s[0]) {
      PickCons(data, i, s);
    } else {
      PickInsertBehind(data, i, s);
    }
  }

  /** The case where `i` goes behind the first entry of `s`. */
  lemma {:induction false} PickInsertBehind(data: Dataset, i: nat, s: seq<nat>)
    requires i < |data| && Positions(data, s) && s != [] && !Beats(data, i, s[0])
    ensures Positions(data, Insert(data, i, s))
    ensures multiset(Pick(data, Insert(data, i, s))) == multiset(Pick(data, s)) + multiset{data[i]}
    decreases |s|, 0
  {
    var tail := s[1..];
    var rest := Insert(data, i, tail);
    PickInsert(data, i, tail);
    PickConsStep(data, s[0], i, rest, tail);
    assert [s[0]] + tail == s;
    assert Insert(data, i, s) == [s[0]] + rest;
  }

  lemma {:induction false} PickSort(data: Dataset, s: seq<nat>)
    requires Positions(data, s)
    ensures Positions(data, Sort(data, s))
    ensures multiset(Pick(data, Sort(data, s))) == multiset(Pick(data, s))
  {
    PermutedPositions(data, s, Sort(data, s));
    if s != [] {
      PickSort(data, s[1..]);
      PickInsert(data, s[0], Sort(data, s[1..]));
    }
  }

  /** When `k` is at least the number of records, the view shows every record
      exactly once: the result is a rearrangement of the dataset. */
  lemma TopKWhole(data: Dataset, k: nat)
    requires k >= |data|
    ensures multiset(TopK(data, k)) == multiset(data)
  {
    var all := AllPositions(data);
    TopPositionsWhole(data, k);
    PickSort(data, all);
    PickAll(data);
  }

  lemma TopPositionsWhole(data: Dataset, k: nat)
    requires k >= |data|
    ensures TopPositions(data, k) == Sort(data, AllPositions(data))
  {
    var order := Sort(data, AllPositions(data));
    assert |order| == |multiset(order)| == |data|;
    assert order[..|data|] == order;
  }

  lemma PickAll(data: Dataset)
    ensures Pick(data, AllPositions(data)) == data
  {
    PickAt(data, AllPositions(data));
  }

  function SampleRecord(country: string, total: nat): MedalRecord {
    MedalRecord(country, total, 0, 0, total)
  }

  /** Four countries with totals 10, 20, 20 and 5. */
  function SampleTable(): Dataset {
    [SampleRecord("A", 10), SampleRecord("B", 20), SampleRecord("C", 20), SampleRecord("D", 5)]
  }

  lemma SampleSpec()
    ensures IsTopK(SampleTable(), 2, [1, 2])
  {
    var data := SampleTable();
    var idx: seq<nat> := [1, 2];
    assert data[0].total == 10 && data[1].total == 20 && data[2].total == 20 && data[3].total == 5;
    assert forall j :: 0 <= j < |data| && j !in idx ==> j == 0 || j == 3;
  }

  /** The top two of the sample are the two 20-medal countries, in table
      order. */
  lemma SampleTopTwo()
    ensures TopK(SampleTable(), 2) == [SampleRecord("B", 20), SampleRecord("C", 20)]
  {
    SampleSpec();
    TopKBySpec(SampleTable(), 2, [1, 2]);
  }
}
