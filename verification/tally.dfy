/** The tallies: a sender -> channel key -> count matrix, the nested
    `defaultdict(lambda: defaultdict(int))` of the script. A missing sender or
    key reads as 0, as the defaultdicts make it. */
module Tally {

  type Counts = map<string, nat>
  type Matrix = map<string, Counts>

  function Get(c: Counts, k: string): nat {
    if k in c then c[k] else 0
  }

  function RowOf(m: Matrix, s: string): Counts {
    if s in m then m[s] else map[]
  }

  function Count(m: Matrix, s: string, k: string): nat {
    Get(RowOf(m, s), k)
  }

  /** `sender_stats[s][k] += 1`: the one cell goes up by one, nothing else
      changes, and the sender and key become present. */
  function Credit(m: Matrix, s: string, k: string): (r: Matrix)
    ensures r.Keys == m.Keys + {s}
    ensures RowOf(r, s).Keys == RowOf(m, s).Keys + {k}
    ensures Count(r, s, k) == Count(m, s, k) + 1
    ensures forall s', k' :: (s' != s || k' != k) ==> Count(r, s', k') == Count(m, s', k')
    ensures forall s' :: s' != s ==> RowOf(r, s') == RowOf(m, s')
  {
    var row := RowOf(m, s);
    m[s := row[k := Get(row, k) + 1]]
  }

  /** Cell-wise sum of two rows over the union of their keys. */
  function AddCounts(a: Counts, b: Counts): (r: Counts)
    ensures r.Keys == a.Keys + b.Keys
    ensures forall k :: Get(r, k) == Get(a, k) + Get(b, k)
  {
    map k | k in a.Keys + b.Keys :: Get(a, k) + Get(b, k)
  }

  /** `all_sender_stats[s][k] += count` for every cell of a channel's tally:
      counts add up, never overwrite, and every sender and key of either side
      is present afterwards. */
  function AddInto(g: Matrix, c: Matrix): (r: Matrix)
    ensures r.Keys == g.Keys + c.Keys
    ensures forall s :: RowOf(r, s) == AddCounts(RowOf(g, s), RowOf(c, s))
  {
    var r := map s | s in g.Keys + c.Keys :: AddCounts(RowOf(g, s), RowOf(c, s));
    assert forall s :: RowOf(r, s) == AddCounts(RowOf(g, s), RowOf(c, s)) by {
      forall s ensures RowOf(r, s) == AddCounts(RowOf(g, s), RowOf(c, s)) {
        if s !in r {
          EmptyAdd();
        }
      }
    }
    r
  }

  lemma EmptyAdd()
    ensures AddCounts(map[], map[]) == map[]
  {
  }

  /** The merge of every channel's tally, in the order the channels are processed. */
  function MergeAll(ts: seq<Matrix>): Matrix {
    if ts == [] then map[] else AddInto(MergeAll(ts[..|ts| - 1]), ts[|ts| - 1])
  }

  /** The reference for a merged cell: the sum of that cell over the channels. */
  function CellSum(ts: seq<Matrix>, s: string, k: string): nat {
    if ts == [] then 0 else CellSum(ts[..|ts| - 1], s, k) + Count(ts[|ts| - 1], s, k)
  }

  /** Every entry of the tally is under the one channel key. */
  predicate OnlyKey(m: Matrix, key: string) {
    forall s :: s in m ==> m[s].Keys == {key}
  }

  // ----- sums of counts

  ghost function Sum(c: Counts): nat
    decreases |c.Keys|
  {
    if c == map[] then 0
    else
      var k :| k in c;
      c[k] + Sum(c - {k})
  }

  /** `sum(channel_counts.values())` for every sender. */
  ghost function Totals(m: Matrix): Counts {
    map s | s in m :: Sum(m[s])
  }

  /** The number of messages a matrix credits altogether. */
  ghost function Grand(m: Matrix): nat {
    Sum(Totals(m))
  }

  // ----- the merge is order-independent

  /** Two matrices with the same senders and the same rows are equal. */
  lemma MatrixExt(a: Matrix, b: Matrix)
    requires a.Keys == b.Keys
    requires forall s :: RowOf(a, s) == RowOf(b, s)
    ensures a == b
  {
    forall s | s in a
      ensures a[s] == b[s]
    {
      assert RowOf(a, s) == RowOf(b, s);
    }
  }

  lemma CountsExt(a: Counts, b: Counts)
    requires a.Keys == b.Keys
    requires forall k :: Get(a, k) == Get(b, k)
    ensures a == b
  {
    forall k | k in a
      ensures a[k] == b[k]
    {
      assert Get(a, k) == Get(b, k);
    }
  }

  lemma CountsSwap(p: Counts, q: Counts, r: Counts)
    ensures AddCounts(AddCounts(p, q), r) == AddCounts(AddCounts(p, r), q)
  {
    CountsExt(AddCounts(AddCounts(p, q), r), AddCounts(AddCounts(p, r), q));
  }

  lemma CountsNone(p: Counts)
    ensures AddCounts(p, map[]) == p
  {
    CountsExt(AddCounts(p, map[]), p);
  }

  /** A channel whose tally is empty adds no sender and no key. */
  lemma AddEmpty(g: Matrix)
    ensures AddInto(g, map[]) == g
  {
    forall s
      ensures RowOf(AddInto(g, map[]), s) == RowOf(g, s)
    {
      CountsNone(RowOf(g, s));
    }
    MatrixExt(AddInto(g, map[]), g);
  }

  lemma AddSwap(g: Matrix, x: Matrix, y: Matrix)
    ensures AddInto(AddInto(g, x), y) == AddInto(AddInto(g, y), x)
  {
    var a, b := AddInto(AddInto(g, x), y), AddInto(AddInto(g, y), x);
    forall s
      ensures RowOf(a, s) == RowOf(b, s)
    {
      CountsSwap(RowOf(g, s), RowOf(x, s), RowOf(y, s));
    }
    MatrixExt(a, b);
  }

  lemma {:induction false} MergeMoveLast(p: seq<Matrix>, x: Matrix, q: seq<Matrix>)
    ensures MergeAll(p + [x] + q) == MergeAll(p + q + [x])
    decreases |q|
  {
    if q == [] {
      assert p + [x] + q == p + q + [x];
    } else {
      var q', y := q[..|q| - 1], q[|q| - 1];
      assert p + [x] + q == (p + [x] + q') + [y];
      assert p + q + [x] == (p + q) + [x];
      assert p + q == (p + q') + [y];
      assert p + q' + [x] == (p + q') + [x];
      MergeMoveLast(p, x, q');
      AddSwap(MergeAll(p + q'), x, y);
    }
  }

  /** Processing the channels in any order gives the same matrix. */
  lemma {:induction false} MergePermutation(ts: seq<Matrix>, us: seq<Matrix>)
    requires multiset(ts) == multiset(us)
    ensures MergeAll(ts) == MergeAll(us)
    decreases |ts|
  {
    if ts == [] {
      assert |us| == |multiset(us)| == 0;
    } else {
      var ts', x := ts[..|ts| - 1], ts[|ts| - 1];
      assert ts == ts' + [x];
      assert x in multiset(us);
      var j :| 0 <= j < |us| && us[j] == x;
      var p, q := us[..j], us[j + 1..];
      assert us == p + [x] + q;
      RemoveOne(ts', x, p, q);
      MergeMoveLast(p, x, q);
      MergePermutation(ts', p + q);
      assert p + q + [x] == (p + q) + [x];
    }
  }

  lemma RemoveOne(ts: seq<Matrix>, x: Matrix, p: seq<Matrix>, q: seq<Matrix>)
    requires multiset(ts + [x]) == multiset(p + [x] + q)
    ensures multiset(ts) == multiset(p + q)
  {
    var rest := multiset(p) + multiset(q);
    assert multiset(p + [x] + q) == rest + multiset{x};
    assert multiset(ts + [x]) == multiset(ts) + multiset{x};
    assert multiset(ts) == (multiset(ts) + multiset{x}) - multiset{x};
    assert rest == (rest + multiset{x}) - multiset{x};
  }

  /** Every merged cell is the sum of that cell over all channel tallies. */
  lemma {:induction false} MergeCells(ts: seq<Matrix>, s: string, k: string)
    ensures Count(MergeAll(ts), s, k) == CellSum(ts, s, k)
  {
    if ts != [] {
      MergeCells(ts[..|ts| - 1], s, k);
    }
  }

  /** A sender is in the merged matrix iff some channel tally has it. */
  lemma {:induction false} MergeSenders(ts: seq<Matrix>, s: string)
    ensures s in MergeAll(ts) <==> exists i :: 0 <= i < |ts| && s in ts[i]
  {
    if ts != [] {
      var ts' := ts[..|ts| - 1];
      MergeSenders(ts', s);
      if s in MergeAll(ts') {
        var i :| 0 <= i < |ts'| && s in ts'[i];
        assert ts[i] == ts'[i];
      }
      if exists i :: 0 <= i < |ts| && s in ts[i] {
        var i :| 0 <= i < |ts| && s in ts[i];
        if i < |ts'| {
          assert s in ts'[i];
        }
      }
    }
  }

  // ----- totals

  lemma {:induction false} SumRemove(c: Counts, k: string)
    requires k in c
    ensures Sum(c) == c[k] + Sum(c - {k})
    decreases |c.Keys|
  {
    var k' :| k' in c && Sum(c) == c[k'] + Sum(c - {k'});
    if k' != k {
      SumRemove(c - {k'}, k);
      SumRemove(c - {k}, k');
      assert c - {k'} - {k} == c - {k} - {k'};
    }
  }

  lemma AddCountsRemove(a: Counts, b: Counts, k: string)
    ensures AddCounts(a, b) - {k} == AddCounts(a - {k}, b - {k})
  {
    var l, r := AddCounts(a, b) - {k}, AddCounts(a - {k}, b - {k});
    forall j
      ensures Get(l, j) == Get(r, j)
    {
      if j != k {
        assert Get(l, j) == Get(AddCounts(a, b), j);
        assert Get(a - {k}, j) == Get(a, j) && Get(b - {k}, j) == Get(b, j);
      }
    }
    CountsExt(l, r);
  }

  lemma {:induction false} SumAdd(a: Counts, b: Counts)
    ensures Sum(AddCounts(a, b)) == Sum(a) + Sum(b)
    decreases |a.Keys|
  {
    var r := AddCounts(a, b);
    if a == map[] {
      CountsExt(r, b);
    } else {
      var k :| k in a;
      AddCountsRemove(a, b, k);
      SumAdd(a - {k}, b - {k});
      SumAddStep(a, b, k);
    }
  }

  lemma SumAddStep(a: Counts, b: Counts, k: string)
    requires k in a
    requires Sum(AddCounts(a - {k}, b - {k})) == Sum(a - {k}) + Sum(b - {k})
    requires AddCounts(a, b) - {k} == AddCounts(a - {k}, b - {k})
    ensures Sum(AddCounts(a, b)) == Sum(a) + Sum(b)
  {
    var r := AddCounts(a, b);
    SumRemove(a, k);
    SumRemove(r, k);
    assert r[k] == Get(a, k) + Get(b, k);
    SumGet(b, k);
  }

  /** Taking one key out of a row, whether or not it is there. */
  lemma SumGet(c: Counts, k: string)
    ensures Sum(c) == Get(c, k) + Sum(c - {k})
  {
    if k in c {
      SumRemove(c, k);
    } else {
      assert c - {k} == c;
    }
  }

  lemma TotalsAdd(g: Matrix, c: Matrix)
    ensures Totals(AddInto(g, c)) == AddCounts(Totals(g), Totals(c))
  {
    var lhs, rhs := Totals(AddInto(g, c)), AddCounts(Totals(g), Totals(c));
    TotalsKeys(AddInto(g, c));
    TotalsKeys(g);
    TotalsKeys(c);
    forall s
      ensures Get(lhs, s) == Get(rhs, s)
    {
      TotalAt(g, c, s);
    }
    CountsExt(lhs, rhs);
  }

  lemma TotalsKeys(m: Matrix)
    ensures Totals(m).Keys == m.Keys
  {
  }

  lemma TotalOf(m: Matrix, s: string)
    ensures Get(Totals(m), s) == Sum(RowOf(m, s))
  {
    if s !in m {
      assert RowOf(m, s) == map[];
    }
  }

  lemma TotalAt(g: Matrix, c: Matrix, s: string)
    ensures Get(Totals(AddInto(g, c)), s) == Get(Totals(g), s) + Get(Totals(c), s)
  {
    TotalOf(AddInto(g, c), s);
    TotalOf(g, s);
    TotalOf(c, s);
    SumAdd(RowOf(g, s), RowOf(c, s));
  }

  /** Merging a tally adds its message count to the grand total. */
  lemma GrandAdd(g: Matrix, c: Matrix)
    ensures Grand(AddInto(g, c)) == Grand(g) + Grand(c)
  {
    TotalsAdd(g, c);
    SumAdd(Totals(g), Totals(c));
  }

  /** One credit is the merge of a one-message tally. */
  lemma CreditIsAdd(m: Matrix, s: string, k: string)
    ensures Credit(m, s, k) == AddInto(m, map[s := map[k := 1]])
  {
    var unit: Matrix := map[s := map[k := 1]];
    var a, b := Credit(m, s, k), AddInto(m, unit);
    forall s'
      ensures RowOf(a, s') == RowOf(b, s')
    {
      if s' == s {
        CreditRow(RowOf(m, s), k);
      } else {
        CountsNone(RowOf(m, s'));
      }
    }
    MatrixExt(a, b);
  }

  lemma CreditRow(row: Counts, k: string)
    ensures row[k := Get(row, k) + 1] == AddCounts(row, map[k := 1])
  {
    CountsExt(row[k := Get(row, k) + 1], AddCounts(row, map[k := 1]));
  }

  /** Each credit counts exactly one more message. */
  lemma GrandCredit(m: Matrix, s: string, k: string)
    ensures Grand(Credit(m, s, k)) == Grand(m) + 1
  {
    CreditIsAdd(m, s, k);
    GrandAdd(m, map[s := map[k := 1]]);
    GrandUnit(s, k);
  }

  lemma GrandUnit(s: string, k: string)
    ensures Grand(map[s := map[k := 1]]) == 1
  {
    var row: Counts := map[k := 1];
    SumRemove(row, k);
    assert row - {k} == map[];
    var totals: Counts := map[s := 1];
    assert Totals(map[s := row]) == totals;
    SumRemove(totals, s);
    assert totals - {s} == map[];
  }

  ghost function GrandSum(ts: seq<Matrix>): nat {
    if ts == [] then 0 else GrandSum(ts[..|ts| - 1]) + Grand(ts[|ts| - 1])
  }

  /** The merged matrix credits as many messages as all channels together. */
  lemma {:induction false} MergeGrand(ts: seq<Matrix>)
    ensures Grand(MergeAll(ts)) == GrandSum(ts)
  {
    if ts == [] {
      assert Totals(map[]) == map[];
    } else {
      MergeGrand(ts[..|ts| - 1]);
      GrandAdd(MergeAll(ts[..|ts| - 1]), ts[|ts| - 1]);
    }
  }
}
