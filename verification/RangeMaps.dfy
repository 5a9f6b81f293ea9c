/** rangemap_t: a B-tree of disjoint character ranges, each with the set of states
    that its characters lead to. */
module RangeMaps {
  import opened Graphs
  import opened BTree
  import opened MultiStates

  const NROFRANGE: nat := 10
  const NROFRANGECHILD: nat := 20
  const RANGECAPS := Caps(1, NROFRANGE, NROFRANGECHILD)

  datatype RangeVal = RangeVal(to: Char32, ms: MultiState)

  /** range_t: the characters from key to val.to. */
  type Entry = Item<RangeVal>

  predicate Holds(e: Entry, c: nat) {
    e.key <= c <= e.val.to
  }

  /** The border left of c cuts the range in two. */
  predicate Cuts(e: Entry, c: nat) {
    e.key < c <= e.val.to
  }

  /** Ranges are not empty, disjoint and in ascending order. */
  predicate Ranges(es: seq<Entry>) {
    && (forall i :: 0 <= i < |es| ==> es[i].key <= es[i].val.to)
    && (forall i, j :: 0 <= i < j < |es| ==> es[i].val.to < es[j].key)
  }

  predicate Cov(es: seq<Entry>, c: nat) {
    exists i :: 0 <= i < |es| && Holds(es[i], c)
  }

  predicate Straddles(es: seq<Entry>, c: nat) {
    exists i :: 0 <= i < |es| && Cuts(es[i], c)
  }

  /** [from..to] is the union of some of the ranges. */
  predicate Exact(es: seq<Entry>, from: nat, to: nat) {
    && (forall c :: from <= c <= to ==> Cov(es, c))
    && !Straddles(es, from) && !Straddles(es, to + 1)
  }

  /** The range is part of [from..to]. */
  predicate Inside(e: Entry, from: nat, to: nat) {
    from <= e.key && e.val.to <= to
  }

  /** There is no range at either side of the border left of c. */
  predicate Open(es: seq<Entry>, c: nat) {
    c > 0 && !Cov(es, c) && !Cov(es, c - 1)
  }

  /** The characters from `from` on, and below n, have been added: there are new borders at from and n only, and every
      gap is filled by one range. */
  ghost predicate Kept(es: seq<Entry>, es': seq<Entry>, from: nat, n: nat) {
    && (forall c: nat :: Cov(es', c) <==> Cov(es, c) || from <= c < n)
    && (forall c: nat :: Straddles(es', c) <==>
          c != from && c != n && (Straddles(es, c) || (from < c < n && Open(es, c))))
  }

  /** Whatever was an exact union of ranges remains one. */
  lemma ExactKept(es: seq<Entry>, es': seq<Entry>, from: nat, n: nat, f: nat, t: nat)
    requires Kept(es, es', from, n) && Exact(es, f, t) && f <= t
    ensures Exact(es', f, t)
  {
    assert Cov(es, f) && Cov(es, t);
  }

  lemma KeptTwice(es0: seq<Entry>, es1: seq<Entry>, es2: seq<Entry>, from: nat, m: nat, n: nat)
    requires from <= m <= n && Kept(es0, es1, from, m) && Kept(es1, es2, m, n)
    requires m > from ==> Cov(es0, m) && !Straddles(es0, m)
    ensures Kept(es0, es2, from, n)
  {
    hide Cov, Straddles;
    if from == n {
      forall c: nat ensures Straddles(es2, c) <==> c != from && Straddles(es0, c) {
      }
    }
    forall c: nat
      ensures Straddles(es2, c) <==> c != from && c != n && (Straddles(es0, c) || (from < c < n && Open(es0, c)))
    {
      assert Cov(es1, c) <==> Cov(es0, c) || from <= c < m;
      assert c > 0 ==> (Cov(es1, c - 1) <==> Cov(es0, c - 1) || from <= c - 1 < m);
      assert Straddles(es1, c) <==>
        c != from && c != m && (Straddles(es0, c) || (from < c < m && Open(es0, c)));
    }
  }

  function Vals(es: seq<Entry>): (r: seq<RangeVal>)
    ensures |r| == |es| && forall i :: 0 <= i < |es| ==> r[i] == es[i].val
  {
    seq(|es|, i requires 0 <= i < |es| => es[i].val)
  }

  /** The multistates of the old ranges stay with the upper ends of these ranges, and
      at most one range is new. */
  ghost predicate OneMore(es: seq<Entry>, es': seq<Entry>, ms: MultiState) {
    es' == es || exists k: nat, to: Char32 :: k <= |es| && Vals(es') == Ins(Vals(es), k, RangeVal(to, ms))
  }

  lemma LocatedAt(all: seq<Entry>, a: nat, items: seq<Entry>, x: nat)
    requires Located(all, a, items, x)
    ensures a + |items| <= |all| && all[a..a + |items|] == items
  {
  }

  /** What addrange2_rangemap decides to do in a leaf. */
  datatype Plan = Plan(insert: bool, items: seq<Entry>, low: nat, from: Char32, to: Char32, again: bool, next: nat)

  /** The new items of the leaf, once the new range has got its multistate. */
  function Planned(p: Plan, ms: MultiState): seq<Entry>
    requires p.low <= |p.items|
  {
    Ins(p.items, p.low, Item(p.from, RangeVal(p.to, ms)))
  }

  /** Where the search for `from` stands: everything left of item k lies below `from`, and
      what lies between the first character and `from` has borders there already. */
  ghost predicate Searched(all: seq<Entry>, k: nat, from0: nat, from: nat) {
    && k <= |all| && from0 <= from
    && (forall i :: 0 <= i < k ==> all[i].val.to < from)
    && (forall c :: from0 <= c < from ==> Cov(all, c))
    && (from > from0 ==> !Straddles(all, from0))
  }

  lemma InsCov(es: seq<Entry>, k: nat, e: Entry, c: nat)
    requires k <= |es|
    ensures Cov(Ins(es, k, e), c) <==> Cov(es, c) || Holds(e, c)
    ensures Straddles(Ins(es, k, e), c) <==> Straddles(es, c) || Cuts(e, c)
  {
    var es' := Ins(es, k, e);
    assert es'[k] == e;
    forall i | 0 <= i < |es| ensures es[i] == es'[if i < k then i else i + 1] {
    }
    forall i | 0 <= i < |es'| && i != k ensures es'[i] == es[if i < k then i else i - 1] {
    }
  }

  lemma InsGet<T>(s: seq<T>, k: nat, x: T, i: nat)
    requires k <= |s| && i < |Ins(s, k, x)|
    ensures |Ins(s, k, x)| == |s| + 1
    ensures Ins(s, k, x)[i] == if i < k then s[i] else if i == k then x else s[i - 1]
  {
  }

  lemma InsRanges(es: seq<Entry>, k: nat, e: Entry)
    requires Ranges(es) && k <= |es| && e.key <= e.val.to
    requires k > 0 ==> es[k - 1].val.to < e.key
    requires k < |es| ==> e.val.to < es[k].key
    ensures Ranges(Ins(es, k, e))
  {
    forall i | 0 <= i < k ensures es[i].val.to < e.key {
      assert i < k - 1 ==> es[i].val.to < es[k - 1].key;
    }
    forall i | k <= i < |es| ensures e.val.to < es[i].key {
      assert k < i ==> es[k].val.to < es[i].key;
    }
    var es' := Ins(es, k, e);
    assert |es'| == |es| + 1;
    hide Ins;
    forall i | 0 <= i < |es'| ensures es'[i].key <= es'[i].val.to {
      InsGet(es, k, e, i);
    }
    forall i, j | 0 <= i < j < |es'| ensures es'[i].val.to < es'[j].key {
      InsGet(es, k, e, i);
      InsGet(es, k, e, j);
    }
  }

  lemma InsVals(es: seq<Entry>, k: nat, e: Entry)
    requires k <= |es|
    ensures Vals(Ins(es, k, e)) == Ins(Vals(es), k, e.val)
  {
  }

  /** A new range in a gap. */
  lemma GapFilledIn(all: seq<Entry>, k: nat, from0: nat, from: Char32, to: Char32, ms: MultiState)
    requires Ranges(all) && Searched(all, k, from0, from) && from <= to
    requires k < |all| ==> to < all[k].key
    ensures var all' := Ins(all, k, Item(from, RangeVal(to, ms)));
      Ranges(all') && Kept(all, all', from0, to + 1) && OneMore(all, all', ms)
  {
    var e := Item(from, RangeVal(to, ms));
    var all' := Ins(all, k, e);
    InsRanges(all, k, e);
    InsVals(all, k, e);
    hide Ins;
    forall i | 0 <= i < |all| ensures all[i].val.to < from || to < all[i].key {
      assert k < i ==> all[k].val.to < all[i].key;
    }
    forall c: nat
      ensures Cov(all', c) <==> Cov(all, c) || from <= c <= to
      ensures Straddles(all', c) <==> Straddles(all, c) || from < c <= to
    {
      InsCov(all, k, e, c);
    }
  }

  /** A range cut in two. */
  lemma RangeCut(all: seq<Entry>, k: nat, m: Char32, ms: MultiState)
    requires Ranges(all) && k < |all| && Cuts(all[k], m)
    ensures var all' := Ins(all[k := Item(m, all[k].val)], k, Item(all[k].key, RangeVal(m - 1, ms)));
      && Ranges(all') && OneMore(all, all', ms) && !Straddles(all', m)
      && (forall c: nat :: Cov(all', c) <==> Cov(all, c))
      && (forall c: nat :: Straddles(all', c) <==> Straddles(all, c) && c != m)
  {
    var e := Item(all[k].key, RangeVal(m - 1, ms));
    var es := all[k := Item(m, all[k].val)];
    var all' := Ins(es, k, e);
    assert Vals(es) == Vals(all);
    InsRanges(es, k, e);
    InsVals(es, k, e);
    hide Ins;
    forall c: nat
      ensures Cov(all', c) <==> Cov(all, c)
      ensures Straddles(all', c) <==> Straddles(all, c) && c != m
    {
      InsCov(es, k, e, c);
      RaisedCov(all, k, m, c);
    }
  }

  /** A range loses what lies below m. */
  lemma RaisedCov(all: seq<Entry>, k: nat, m: Char32, c: nat)
    requires Ranges(all) && k < |all| && Cuts(all[k], m)
    ensures var es := all[k := Item(m, all[k].val)];
      && (Cov(es, c) <==> Cov(all, c) && !(all[k].key <= c < m))
      && (Straddles(es, c) <==> Straddles(all, c) && !(all[k].key < c <= m))
  {
    var es := all[k := Item(m, all[k].val)];
    forall i | 0 <= i < |all| && i != k
      ensures es[i] == all[i] && !(all[k].key <= all[i].val.to && all[i].key <= all[k].val.to)
    {
    }
    assert es[k] == Item(m, all[k].val);
  }

  /** The new range fills the gap before item `low` of the leaf. */
  ghost predicate GapPlan(all: seq<Entry>, a: nat, items: seq<Entry>, from0: nat, n: nat, p: Plan) {
    && p.low <= |items| && p.items == items && p.from <= p.to && n == p.to + 1
    && Searched(all, a + p.low, from0, p.from)
    && (a + p.low < |all| ==> p.to < all[a + p.low].key)
  }

  /** Item `low` of the leaf is cut in two at m. */
  ghost predicate CutPlan(all: seq<Entry>, a: nat, items: seq<Entry>, from0: nat, n: nat, p: Plan, m: nat) {
    && p.low < |items| && Cuts(items[p.low], m) && n == m && m == p.to + 1
    && p.items == items[p.low := Item(m, items[p.low].val)] && p.from == items[p.low].key
    && (m == from0 || Searched(all, a + p.low, from0, p.from))
  }

  ghost predicate PlanOk(all: seq<Entry>, a: nat, items: seq<Entry>, from0: nat, to: nat, p: Plan) {
    var n := if p.again then p.next else to + 1;
    && from0 <= n <= to + 1
    && (n == to + 1 ==> !p.again)
    && (n == from0 ==> Straddles(all, from0))
    && (p.again && n > from0 ==> Cov(all, n) && !Straddles(all, n))
    && if !p.insert then Kept(all, all, from0, n)
       else GapPlan(all, a, items, from0, n, p) || exists m :: CutPlan(all, a, items, from0, n, p, m)
  }

  lemma PlanApplied(all: seq<Entry>, a: nat, items: seq<Entry>, from0: nat, to: nat, p: Plan, ms: MultiState)
    requires Ranges(all) && Located(all, a, items, from0) && PlanOk(all, a, items, from0, to, p) && p.insert
    ensures PlanDone(all, a, items, from0, if p.again then p.next else to + 1, p, ms)
  {
    var n := if p.again then p.next else to + 1;
    if GapPlan(all, a, items, from0, n, p) {
      EditGap(all, a, items, from0, n, p, ms);
      GapKept(all, a, items, from0, n, p, ms);
      GapApplied(all, a, items, from0, n, p, ms);
    } else {
      var m :| CutPlan(all, a, items, from0, n, p, m);
      EditCut(all, a, items, from0, n, p, m, ms);
      CutKept(all, a, items, from0, n, p, m, ms);
      CutApplied(all, a, items, from0, n, p, m, ms);
    }
  }

  /** The plan gives the leaf admissible new items and keeps what has to be kept. */
  ghost predicate PlanDone(all: seq<Entry>, a: nat, items: seq<Entry>, from0: nat, n: nat, p: Plan, ms: MultiState) {
    && a + |items| <= |all| && p.low <= |p.items|
    && Edit(all, a, items, Planned(p, ms))
    && var all' := all[..a] + Planned(p, ms) + all[a + |items|..];
       Ranges(all') && OneMore(all, all', ms) && Kept(all, all', from0, n)
  }

  /** The items of the leaf are ranges among all ranges. */
  lemma LeafRanges(all: seq<Entry>, a: nat, items: seq<Entry>, x: nat)
    requires Ranges(all) && Located(all, a, items, x)
    ensures a + |items| <= |all| && Ranges(items)
    ensures forall i :: 0 <= i < |items| ==> all[a + i] == items[i]
    ensures a + |items| < |all| ==> items[|items| - 1].key <= items[|items| - 1].val.to < all[a + |items|].key
  {
    forall i | 0 <= i < |items| ensures all[a + i] == items[i] {
      assert all[a..a + |items|][i] == items[i];
    }
    hide Sorted, Located;
  }

  lemma GapApplied(all: seq<Entry>, a: nat, items: seq<Entry>, from0: nat, n: nat, p: Plan, ms: MultiState)
    requires a + |items| <= |all| && all[a..a + |items|] == items && p.low <= |items| && p.items == items
    requires Edit(all, a, items, Planned(p, ms)) && GapResult(all, a, from0, n, p, ms)
    ensures PlanDone(all, a, items, from0, n, p, ms)
  {
    InsWithin(all, a, items, p.low, Item(p.from, RangeVal(p.to, ms)));
    hide Kept, OneMore, Edit, Ranges, Ins;
  }

  ghost predicate GapResult(all: seq<Entry>, a: nat, from0: nat, n: nat, p: Plan, ms: MultiState) {
    && a + p.low <= |all|
    && var all' := Ins(all, a + p.low, Item(p.from, RangeVal(p.to, ms)));
       Ranges(all') && OneMore(all, all', ms) && Kept(all, all', from0, n)
  }

  lemma GapKept(all: seq<Entry>, a: nat, items: seq<Entry>, from0: nat, n: nat, p: Plan, ms: MultiState)
    requires Ranges(all) && GapPlan(all, a, items, from0, n, p)
    ensures GapResult(all, a, from0, n, p, ms)
  {
    GapFilledIn(all, a + p.low, from0, p.from, p.to, ms);
  }

  lemma EditGap(all: seq<Entry>, a: nat, items: seq<Entry>, from0: nat, n: nat, p: Plan, ms: MultiState)
    requires Ranges(all) && Located(all, a, items, from0) && GapPlan(all, a, items, from0, n, p)
    ensures Edit(all, a, items, Planned(p, ms))
  {
    GapEdges(all, a, items, from0, p);
    hide Located, Ranges, Searched;
    EditByGap(items, p.low, Item(p.from, RangeVal(p.to, ms)));
  }

  lemma GapEdges(all: seq<Entry>, a: nat, items: seq<Entry>, from0: nat, p: Plan)
    requires Ranges(all) && Located(all, a, items, from0)
    requires p.low <= |items| && Searched(all, a + p.low, from0, p.from) && p.from <= p.to
    requires a + p.low < |all| ==> p.to < all[a + p.low].key
    ensures items != [] && Ranges(items)
    ensures p.low > 0 ==> items[p.low - 1].val.to < p.from
    ensures p.low < |items| ==> p.to < items[p.low].key
    ensures a > 0 ==> p.low > 0
    ensures a + |items| < |all| ==> items[|items| - 1].key < all[a + |items|].key
  {
    LeafRanges(all, a, items, from0);
    hide Sorted;
    assert p.low > 0 ==> all[a + p.low - 1] == items[p.low - 1];
    assert p.low < |items| ==> all[a + p.low] == items[p.low];
  }

  lemma EditByGap(items: seq<Entry>, low: nat, e: Entry)
    requires items != [] && Ranges(items) && low <= |items| && e.key <= e.val.to
    requires low > 0 ==> items[low - 1].val.to < e.key
    requires low < |items| ==> e.val.to < items[low].key
    ensures var items' := Ins(items, low, e);
      && Sorted(items') && |items'| == |items| + 1 && items'[0].key <= items[0].key
      && (low > 0 ==> items'[0].key == items[0].key)
      && items'[|items|].key == (if low == |items| then e.key else items[|items| - 1].key)
  {
    InsRanges(items, low, e);
    RangesAscend(Ins(items, low, e));
  }

  lemma RangesAscend(es: seq<Entry>)
    requires Ranges(es)
    ensures Sorted(es)
  {
  }

  lemma CutApplied(all: seq<Entry>, a: nat, items: seq<Entry>, from0: nat, n: nat, p: Plan, m: nat, ms: MultiState)
    requires a + |items| <= |all| && all[a..a + |items|] == items && CutPlan(all, a, items, from0, n, p, m)
    requires Edit(all, a, items, Planned(p, ms)) && CutResult(all, a, items, from0, n, p, m, ms)
    ensures PlanDone(all, a, items, from0, n, p, ms)
  {
    SpliceCut(all, a, items, p.low, Item(m, items[p.low].val), Item(p.from, RangeVal(p.to, ms)));
    hide Kept, OneMore, Edit, Ranges, Searched, Ins;
  }

  ghost predicate CutResult(all: seq<Entry>, a: nat, items: seq<Entry>, from0: nat, n: nat, p: Plan, m: nat,
                            ms: MultiState) {
    var k := a + p.low;
    && p.low < |items| && k < |all| && all[k] == items[p.low] && m <= all[k].val.to
    && var all' := Ins(all[k := Item(m, all[k].val)], k, Item(p.from, RangeVal(p.to, ms)));
       Ranges(all') && OneMore(all, all', ms) && Kept(all, all', from0, n)
  }

  lemma SpliceCut(all: seq<Entry>, a: nat, items: seq<Entry>, low: nat, x: Entry, e: Entry)
    requires a + |items| <= |all| && all[a..a + |items|] == items && low < |items|
    ensures all[..a] + Ins(items[low := x], low, e) + all[a + |items|..] == Ins(all[a + low := x], a + low, e)
  {
    var all1 := all[a + low := x];
    assert all1[a..a + |items|] == items[low := x];
    assert all1[..a] == all[..a] && all1[a + |items|..] == all[a + |items|..];
    InsWithin(all1, a, items[low := x], low, e);
  }

  lemma CutKept(all: seq<Entry>, a: nat, items: seq<Entry>, from0: nat, n: nat, p: Plan, m: nat, ms: MultiState)
    requires Ranges(all) && Located(all, a, items, from0) && CutPlan(all, a, items, from0, n, p, m)
    ensures CutResult(all, a, items, from0, n, p, m, ms)
  {
    var k := a + p.low;
    assert k < |all| && all[k] == items[p.low];
    hide Located;
    RangeCut(all, k, m, ms);
    CutBorders(all, k, from0, m);
    hide Ins, OneMore, Ranges, Cov, Straddles, Searched;
  }

  lemma CutBorders(all: seq<Entry>, k: nat, from0: nat, m: nat)
    requires Ranges(all) && k < |all| && Cuts(all[k], m)
    requires m == from0 || Searched(all, k, from0, all[k].key)
    ensures from0 <= m
    ensures m == from0 || !Straddles(all, from0)
    ensures forall c :: from0 <= c < m ==> Cov(all, c)
  {
    if m != from0 {
      forall c | from0 <= c < m ensures Cov(all, c) {
        assert all[k].key <= c ==> Holds(all[k], c);
      }
      if all[k].key == from0 {
        assert forall i :: k < i < |all| ==> all[k].val.to < all[i].key;
      }
    }
  }

  lemma EditCut(all: seq<Entry>, a: nat, items: seq<Entry>, from0: nat, n: nat, p: Plan, m: nat, ms: MultiState)
    requires Ranges(all) && Located(all, a, items, from0) && CutPlan(all, a, items, from0, n, p, m)
    ensures Edit(all, a, items, Planned(p, ms))
  {
    LeafRanges(all, a, items, from0);
    assert items != [];
    hide Located, Sorted;
    EditByCut(items, p.low, m, ms);
    hide Ins, Ranges, Searched;
  }

  lemma EditByCut(items: seq<Entry>, low: nat, m: nat, ms: MultiState)
    requires items != [] && Ranges(items) && low < |items| && Cuts(items[low], m)
    ensures var items' := Ins(items[low := Item(m, items[low].val)], low, Item(items[low].key, RangeVal(m - 1, ms)));
      && Sorted(items') && |items'| == |items| + 1 && items'[0].key == items[0].key
      && items'[|items|].key <= items[|items| - 1].val.to
  {
    var items' := Ins(items[low := Item(m, items[low].val)], low, Item(items[low].key, RangeVal(m - 1, ms)));
    RangeCut(items, low, m, ms);
    RangesAscend(items');
    hide Ranges, Sorted;
    assert items'[|items|].val == items[|items| - 1].val;
  }

  /** The first range of the leaf that does not lie below from. */
  method SearchRange(items: seq<Entry>, from: nat) returns (low: nat)
    requires Ranges(items)
    ensures low <= |items|
    ensures forall i :: 0 <= i < low ==> items[i].val.to < from
    ensures low < |items| ==> from <= items[low].val.to
  {
    var high := |items|;
    low := 0;
    while low < high
      invariant 0 <= low <= high <= |items|
      invariant forall i :: 0 <= i < low ==> items[i].val.to < from
      invariant high < |items| ==> from <= items[high].val.to
      decreases high - low
    {
      var mid := (high + low) / 2;
      if items[mid].val.to < from {
        low := mid + 1;
      } else {
        high := mid;
      }
    }
  }

  lemma SearchStart(all: seq<Entry>, a: nat, items: seq<Entry>, from: nat, low: nat)
    requires Ranges(all) && Located(all, a, items, from)
    requires low <= |items| && forall i :: 0 <= i < low ==> items[i].val.to < from
    ensures Searched(all, a + low, from, from)
  {
    LeafRanges(all, a, items, from);
    hide Sorted;
    forall i | 0 <= i < a + low ensures all[i].val.to < from {
      if i < a {
        assert all[i].val.to < all[a].key && all[a] == items[0];
      } else {
        assert all[a + (i - a)] == items[i - a];
      }
    }
  }

  lemma SearchStep(all: seq<Entry>, k: nat, from0: nat, from: nat)
    requires Ranges(all) && Searched(all, k, from0, from) && k < |all| && all[k].key == from
    ensures Searched(all, k + 1, from0, all[k].val.to + 1)
    ensures Kept(all, all, from0, all[k].val.to + 1)
  {
    forall c | from0 <= c < all[k].val.to + 1 ensures Cov(all, c) {
      if from <= c { assert Holds(all[k], c); }
    }
    forall i | 0 <= i < |all| ensures !Cuts(all[i], from) && !Cuts(all[i], all[k].val.to + 1) {
    }
  }

  /** The search has come to item `low` of the leaf; what lies beyond `to` is left for the next call. */
  ghost predicate Seeking(all: seq<Entry>, a: nat, items: seq<Entry>, from0: nat, to0: nat, low: nat, from: nat,
                          to: nat, again: bool, next: nat) {
    var b := a + |items|;
    && low <= |items| && from0 <= from <= to <= to0 && next == to + 1 && (again <==> next <= to0)
    && (b < |all| ==> to < all[b].key) && (again ==> Cov(all, next) && !Straddles(all, next))
    && Searched(all, a + low, from0, from)
    && (low < |items| ==> from <= items[low].val.to)
    && (from > from0 && low < |items| ==> from <= items[low].key)
  }

  lemma KeyBorder(all: seq<Entry>, k: nat)
    requires Ranges(all) && k < |all|
    ensures Cov(all, all[k].key) && !Straddles(all, all[k].key)
  {
    assert Holds(all[k], all[k].key);
    forall i | 0 <= i < |all| ensures !Cuts(all[i], all[k].key) {
      if i < k { assert all[i].val.to < all[k].key; }
    }
  }

  /** The leaf stands at position a among the ranges. */
  ghost predicate Among(all: seq<Entry>, a: nat, items: seq<Entry>) {
    var b := a + |items|;
    && Ranges(all) && Ranges(items) && b <= |all|
    && forall i :: 0 <= i < |items| ==> all[a + i] == items[i]
  }

  /** The range at `low` starts where the search stands. */
  lemma SeekOn(all: seq<Entry>, a: nat, items: seq<Entry>, from0: nat, to0: nat, low: nat, from: nat, to: Char32,
               again: bool, next: nat)
    requires Among(all, a, items) && Seeking(all, a, items, from0, to0, low, from, to, again, next)
    requires low < |items| && items[low].key == from
    ensures to > items[low].val.to ==>
      Seeking(all, a, items, from0, to0, low + 1, items[low].val.to + 1, to, again, next)
    ensures to == items[low].val.to ==> Kept(all, all, from0, next)
  {
    assert all[a + low] == items[low];
    SearchStep(all, a + low, from0, from);
    hide Searched, Kept;
  }

  /** All of [from0..to] has borders already. */
  lemma SeekOk(all: seq<Entry>, a: nat, items: seq<Entry>, from0: nat, to0: nat, low: nat, from: Char32, to: Char32,
               again: bool, next: nat, p: Plan)
    requires Seeking(all, a, items, from0, to0, low, from, to, again, next) && Kept(all, all, from0, next)
    requires p == Plan(false, items, low, from, to, again, next)
    ensures PlanOk(all, a, items, from0, to0, p)
  {
  }

  /** The range at `low` starts where the search stands and reaches beyond `to`. */
  lemma SeekInside(all: seq<Entry>, a: nat, items: seq<Entry>, from0: nat, to0: nat, low: nat, from: Char32,
                   to: Char32, again: bool, next: nat, p: Plan)
    requires Among(all, a, items) && Seeking(all, a, items, from0, to0, low, from, to, again, next)
    requires low < |items| && items[low].key == from && to < items[low].val.to
    requires p == Plan(true, items[low := Item(to + 1, items[low].val)], low, from, to, again, next)
    ensures PlanOk(all, a, items, from0, to0, p)
  {
    assert CutPlan(all, a, items, from0, next, p, next);
  }

  /** What is to be done if the range at `low` starts left of where the search stands. */
  lemma SeekLeft(all: seq<Entry>, a: nat, items: seq<Entry>, from0: Char32, to0: nat, low: nat, from: Char32, to: nat,
                 again: bool, next: nat, p: Plan)
    requires Among(all, a, items) && Seeking(all, a, items, from0, to0, low, from, to, again, next)
    requires low < |items| && items[low].key < from
    requires p == Plan(true, items[low := Item(from, items[low].val)], low, items[low].key, from - 1, true, from)
    ensures PlanOk(all, a, items, from0, to0, p)
  {
    assert all[a + low] == items[low];
    assert Cuts(all[a + low], from0);
    assert CutPlan(all, a, items, from0, from0, p, from0);
  }

  /** What is to be done in a gap. */
  lemma SeekGap(all: seq<Entry>, a: nat, items: seq<Entry>, from0: nat, to0: nat, low: nat, from: Char32, to: Char32,
                again: bool, next: nat, p: Plan)
    requires Among(all, a, items) && Seeking(all, a, items, from0, to0, low, from, to, again, next)
    requires low < |items| ==> from < items[low].key
    requires p == if low < |items| && items[low].key <= to
      then Plan(true, items, low, from, items[low].key - 1, true, items[low].key)
      else Plan(true, items, low, from, to, again, next)
    ensures PlanOk(all, a, items, from0, to0, p)
  {
    assert low < |items| ==> all[a + low] == items[low];
    if low < |items| { KeyBorder(all, a + low); }
    hide Searched, Kept, Cov, Straddles;
    assert GapPlan(all, a, items, from0, p.to + 1, p);
  }

  lemma SeekStart(all: seq<Entry>, a: nat, items: seq<Entry>, from0: nat, to0: nat, more: bool, upper: nat, low: nat)
    requires Ranges(all) && Located(all, a, items, from0) && from0 <= to0
    requires more == (a + |items| < |all|) && (more ==> upper == all[a + |items|].key)
    requires low <= |items| && (forall i :: 0 <= i < low ==> items[i].val.to < from0)
    requires (low < |items| ==> from0 <= items[low].val.to)
    ensures Among(all, a, items) && (more ==> from0 < upper)
    ensures var again := more && upper <= to0;
      var next := if again then upper else to0 + 1;
      Seeking(all, a, items, from0, to0, low, from0, next - 1, again, next)
  {
    LeafRanges(all, a, items, from0);
    SearchStart(all, a, items, from0, low);
    if more { KeyBorder(all, a + |items|); }
    hide Searched, Ranges, Sorted, Cov, Straddles;
  }

  /** The part of addrange2_rangemap that decides what to do in the leaf. */
  method PlanRange(items: seq<Entry>, from0: Char32, to0: Char32, more: bool, upper: nat, ghost all: seq<Entry>,
                   ghost a: nat)
    returns (p: Plan)
    requires Ranges(all) && Located(all, a, items, from0) && from0 <= to0
    requires more <==> a + |items| < |all|
    requires more ==> upper == all[a + |items|].key
    ensures PlanOk(all, a, items, from0, to0, p)
  {
    hide Located, PlanOk, Ranges, Among, Searched, Kept;
    var from: Char32, to: Char32, again, next := from0, to0, false, to0 + 1;
    LeafRanges(all, a, items, from0);
    var low := SearchRange(items, from);
    SeekStart(all, a, items, from0, to0, more, upper, low);
    if more && upper <= to {
      again, next, to := true, upper, upper - 1;
    }
    while low < |items| && items[low].key <= from
      invariant Seeking(all, a, items, from0, to0, low, from, to, again, next)
      decreases |items| - low
    {
      if items[low].key == from {
        SeekOn(all, a, items, from0, to0, low, from, to, again, next);
        if to == items[low].val.to {
          p := Plan(false, items, low, from, to, again, next);
          SeekOk(all, a, items, from0, to0, low, from, to, again, next, p);
          return;
        } else if to > items[low].val.to {
          from := items[low].val.to + 1;
          low := low + 1;
        } else {
          p := Plan(true, items[low := Item(to + 1, items[low].val)], low, from, to, again, next);
          SeekInside(all, a, items, from0, to0, low, from, to, again, next, p);
          return;
        }
      } else {
        p := Plan(true, items[low := Item(from, items[low].val)], low, items[low].key, from - 1, true, from);
        SeekLeft(all, a, items, from0, to0, low, from, to, again, next, p);
        return;
      }
    }
    p := if low < |items| && items[low].key <= to
      then Plan(true, items, low, from, items[low].key - 1, true, items[low].key) else Plan(true, items, low, from, to,
                again, next);
    SeekGap(all, a, items, from0, to0, low, from, to, again, next, p);
  }

  /** No two ranges share a multistate. */
  ghost predicate DistinctSets(es: seq<Entry>) {
    forall i, j :: 0 <= i < j < |es| ==> es[i].val.ms != es[j].val.ms
  }

  ghost predicate MapOk(es: seq<Entry>, objs: set<MultiState>) {
    Ranges(es) && DistinctSets(es) && forall i :: 0 <= i < |es| ==> es[i].val.ms in objs
  }

  lemma OneMoreOk(es: seq<Entry>, es': seq<Entry>, ms: MultiState, objs: set<MultiState>)
    requires MapOk(es, objs) && ms !in objs && OneMore(es, es', ms) && Ranges(es')
    ensures MapOk(es', objs + {ms})
  {
    OneMoreVals(es, es', ms);
    hide OneMore, Ranges;
    forall i | 0 <= i < |es'| ensures es'[i].val.ms in objs + {ms} {
      if es'[i].val in Vals(es) {
        var j :| 0 <= j < |es| && Vals(es)[j] == es'[i].val;
      }
    }
  }

  /** One call gets from `from` to `next`; it makes no progress only if it cuts a range at `from`. */
  ghost predicate Advanced(es: seq<Entry>, es': seq<Entry>, from: nat, to: nat, again: bool, next: nat,
                           ms: MultiState) {
    && from <= next <= to + 1 && (again <==> next <= to)
    && (next == from ==> Straddles(es, from))
    && (again && next > from ==> Cov(es, next) && !Straddles(es, next))
    && Kept(es, es', from, next) && OneMore(es, es', ms)
  }

  lemma OneMoreVals(es: seq<Entry>, es': seq<Entry>, ms: MultiState)
    requires OneMore(es, es', ms) && DistinctSets(es) && forall i :: 0 <= i < |es| ==> es[i].val.ms != ms
    ensures DistinctSets(es')
    ensures forall i :: 0 <= i < |es'| ==> es'[i].val in Vals(es) || es'[i].val.ms == ms
    ensures forall i :: 0 <= i < |es| ==> es[i].val in Vals(es')
  {
    hide Ins;
    if es' != es {
      var k: nat, to: Char32 :| k <= |es| && Vals(es') == Ins(Vals(es), k, RangeVal(to, ms));
      var v := RangeVal(to, ms);
      forall i, j | 0 <= i < j < |es'| ensures es'[i].val.ms != es'[j].val.ms {
        InsertedVal(es, es', k, v, i);
        InsertedVal(es, es', k, v, j);
      }
      forall i | 0 <= i < |es'| ensures es'[i].val in Vals(es) || es'[i].val.ms == ms {
        InsertedVal(es, es', k, v, i);
      }
      forall i | 0 <= i < |es| ensures es[i].val in Vals(es') {
        InsLength(Vals(es), k, v);
        InsertedVal(es, es', k, v, if i < k then i else i + 1);
      }
    }
  }

  lemma InsertedVal(es: seq<Entry>, es': seq<Entry>, k: nat, v: RangeVal, i: nat)
    requires k <= |es| && Vals(es') == Ins(Vals(es), k, v) && i < |es'|
    ensures |es'| == |es| + 1
    ensures es'[i].val == if i < k then es[i].val else if i == k then v else es[i - 1].val
    ensures es'[i].val in Vals(es') && (i != k ==> es'[i].val in Vals(es))
  {
    InsLength(Vals(es), k, v);
    InsGet(Vals(es), k, v, i);
    assert es'[i].val == Vals(es')[i];
    assert i < k ==> Vals(es)[i] == es[i].val;
    assert i > k ==> Vals(es)[i - 1] == es[i - 1].val;
  }

  lemma InsLength<T>(s: seq<T>, k: nat, x: T)
    requires k <= |s|
    ensures |Ins(s, k, x)| == |s| + 1
  {
  }

  ghost function ItemsIn(size: nat, nodes: Nodes<RangeVal>, levels: Levels): seq<Entry> {
    if size == 0 then [] else AllItems(nodes, levels)
  }

  ghost function SetAt(es: seq<Entry>, objs: set<MultiState>, i: int): set<nat>
    reads objs
  {
    if 0 <= i < |es| && es[i].val.ms in objs then es[i].val.ms.Contents() else {}
  }

  class RangeMap {
    var size: nat
    var root: nat
    var nodes: Nodes<RangeVal>
    var top: nat
    ghost var levels: Levels
    ghost var low: Low
    ghost var objs: set<MultiState>  // the multistates of all ranges

    /** The ranges in ascending order. */
    ghost function Entries(): seq<Entry>
      reads this
    {
      ItemsIn(size, nodes, levels)
    }

    ghost predicate Shape()
      reads this
    {
      && (size > 0 ==> BTree.Valid(nodes, root, top, levels, low, RANGECAPS))
      && size == |Entries()| && MapOk(Entries(), objs)
    }

    constructor ()
      ensures Shape() && Entries() == [] && objs == {}
    {
      size, root, nodes, top, levels, low, objs := 0, 0, map[], 1, [], map[], {};
    }

    /** Reads the ranges through the chain of leaves: init_rangemapiter, next_rangemapiter. */
    method ToSeq() returns (es: seq<Entry>)
      requires Shape()
      ensures es == Entries()
    {
      if size == 0 {
        return [];
      }
      es := ReadLeaves(nodes, root, top, levels, low, RANGECAPS);
    }

    /** addrange2_rangemap: adds the characters from `from` on, as far as one leaf can tell.
        If it does not get to `to`, `next` is where to go on. */
    method AddRange2(from: Char32, to: Char32) returns (again: bool, next: nat, ghost ms: MultiState)
      requires Shape() && from <= to
      modifies this
      ensures Shape()
      ensures Advanced(old(Entries()), Entries(), from, to, again, next, ms)
      ensures fresh(ms) && ms.Valid() && ms.Members() == []
      ensures objs == old(objs) + {ms}
    {
      hide BTree.Valid, MapOk, Advanced, AllItems, MultiState.Valid;
      var new_ms := new MultiState();
      ms := new_ms;
      assert ms !in objs;
      var n, r, t, inserted;
      ghost var l, w;
      again, next, inserted, n, r, t, l, w := AddNodes(size, nodes, root, top, levels, low, objs, from, to, new_ms);
      nodes, root, top, levels, low, objs := n, r, t, l, w, objs + {ms};
      size := if inserted then size + 1 else size;
    }

    static method AddNodes(size: nat, nodes0: Nodes<RangeVal>, root0: nat, top0: nat, ghost levels0: Levels,
                           ghost low0: Low, ghost objs: set<MultiState>, from: Char32, to: Char32, ms: MultiState)
      returns (again: bool, next: nat, inserted: bool, nodes: Nodes<RangeVal>, root: nat, top: nat,
               ghost levels: Levels, ghost low: Low)
      requires from <= to && ms !in objs && size == |ItemsIn(size, nodes0, levels0)|
      requires MapOk(ItemsIn(size, nodes0, levels0), objs)
      requires size > 0 ==> BTree.Valid(nodes0, root0, top0, levels0, low0, RANGECAPS)
      ensures BTree.Valid(nodes, root, top, levels, low, RANGECAPS) && MapOk(AllItems(nodes, levels), objs + {ms})
      ensures |AllItems(nodes, levels)| == size + (if inserted then 1 else 0) > 0
      ensures Advanced(ItemsIn(size, nodes0, levels0), AllItems(nodes, levels), from, to, again, next, ms)
    {
      ghost var was := ItemsIn(size, nodes0, levels0);
      if size == 0 {
        var items := [Item(from, RangeVal(to, ms))];
        again, next, inserted, nodes, root, top, levels, low :=
          false, to + 1, true, map[1 := Leaf(items, 0)], 1, 2, [[1]], map[1 := from];
        FirstRange(items, nodes, levels, low, from, to, ms);
      } else {
        again, next, inserted, nodes, root, top, levels, low := PutRange(nodes0, root0, top0, levels0, low0, from, to,
            ms);
      }
      OneMoreOk(was, AllItems(nodes, levels), ms, objs);
      hide BTree.Valid, MapOk, Kept, OneMore, Ranges;
    }

    /** addrange_rangemap */
    method AddRange(from: Char32, to: Char32) returns (err: Err)
      requires Shape()
      modifies this
      ensures Shape()
      ensures err == EINVAL <==> from > to
      ensures err == EINVAL ==> unchanged(this)
      ensures err == OK ==> Kept(old(Entries()), Entries(), from, to + 1)
      ensures EndsKept(old(Entries()), Entries())
      ensures objs >= old(objs) && fresh(objs - old(objs))
      ensures forall ms :: ms in objs - old(objs) ==> ms.Valid() && ms.Members() == []
    {
      if from > to {
        return EINVAL;
      }
      var again, next := true, from;
      ghost var es0 := Entries();
      hide BTree.Valid, MapOk, Kept, Straddles, Cov, Filling, Advanced, EndsKept, OneMore;
      FillingStart(es0, from);
      while again
        invariant Shape() && from <= next <= to + 1 && (again <==> next <= to)
        invariant Filling(es0, Entries(), from, next, again)
        invariant EndsKept(es0, Entries())
        invariant objs >= old(objs) && fresh(objs - old(objs))
        invariant forall ms :: ms in objs - old(objs) ==> ms.Valid() && ms.Members() == []
        decreases 1 + to - next, Straddles(Entries(), next)
      {
        ghost var es, n0 := Entries(), next;
        ghost var ms;
        again, next, ms := AddRange2(next, to);
        EndsKeptOneMore(es0, es, Entries(), ms);
        FillingStep(es0, es, Entries(), from, n0, to, again, next, ms);
      }
      FillingDone(es0, Entries(), from, to + 1);
      return OK;
    }

    /** All multistates are valid; they are the only objects reached through this one. */
    ghost predicate Valid()
      reads this, objs
    {
      Shape() && forall ms :: ms in objs ==> ms.Valid()
    }

    /** addstate_rangemap: adds the state to all ranges within [from..to]. */
    method AddState(from: Char32, to: Char32, state: nat) returns (err: Err)
      requires Valid()
      modifies objs
      ensures Valid()
      ensures err == OK <==> from <= to && Exact(Entries(), from, to)
      ensures Marks(Entries(), objs, old(Sets()), from, to, state, if err == OK then size else 0)
    {
      ghost var was := Sets();
      MarksNone(from, to, state);
      if from > to || size == 0 {
        assert size == 0 && from <= to ==> !Cov(Entries(), from);
        return EINVAL;
      }
      err := AddToNodes(nodes, root, top, levels, low, objs, was, from, to, state);
    }

    lemma MarksNone(from: nat, to: nat, state: nat)
      requires Valid()
      ensures Marks(Entries(), objs, Sets(), from, to, state, 0)
    {
    }

    /** The sets of states of the ranges. */
    ghost function Sets(): seq<set<nat>>
      reads this, objs
    {
      seq(|Entries()|, i reads this, objs => SetAt(Entries(), objs, i))
    }

    /** Looks for the first range and walks on from there. */
    static method AddToNodes(nodes: Nodes<RangeVal>, root: nat, ghost top: nat, ghost levels: Levels, ghost low: Low,
                             ghost objs: set<MultiState>, ghost was: seq<set<nat>>,
                             from: Char32, to: Char32, state: nat)
      returns (err: Err)
      requires BTree.Valid(nodes, root, top, levels, low, RANGECAPS) && MapOk(AllItems(nodes, levels), objs)
      requires from <= to && Marks(AllItems(nodes, levels), objs, was, from, to, state, 0)
      modifies objs
      ensures err == OK <==> Exact(AllItems(nodes, levels), from, to)
      ensures Marks(AllItems(nodes, levels), objs, was, from, to, state,
        if err == OK then |AllItems(nodes, levels)| else 0)
    {
      var found, leaf, i;
      ghost var k;
      found, leaf, i, k := FindRange(nodes, root, top, levels, low, from, to);
      if !found {
        return EINVAL;
      }
      hide BTree.Valid, Walking, AtItem, Ranges, Exact, Marks;
      err := Walk(nodes, leaf, i, root, top, levels, low, AllItems(nodes, levels), objs, was, k, from, to, state);
    }

    static method FindRange(nodes: Nodes<RangeVal>, root: nat, ghost top: nat, ghost levels: Levels, ghost low: Low,
                            from: Char32, ghost to: Char32)
      returns (found: bool, leaf: nat, i: nat, ghost k: nat)
      requires BTree.Valid(nodes, root, top, levels, low, RANGECAPS) && Ranges(AllItems(nodes, levels)) && from <= to
      ensures !found ==> !Exact(AllItems(nodes, levels), from, to)
      ensures found ==> AtItem(nodes, levels, leaf, i, k) && Walking(AllItems(nodes, levels), k, from, to, from)
    {
      hide BTree.Valid, AllItems, At, AtItem, Located, Ranges, Walking;
      ghost var all := AllItems(nodes, levels);
      var node, items, path, _, _, pos, a := Locate(nodes, root, top, levels, low, RANGECAPS, from);
      leaf := node;
      LeafRanges(all, a, items, from);
      LocatedAt(all, a, items, from);
      i := SearchRange(items, from);
      found, k := i < |items|, a + i;
      if found {
        WalkStart(all, a, items, from, to, i);
        AtFound(nodes, levels, path, pos, leaf, items, a, i);
      } else {
        SearchEnd(all, a, items, from);
      }
    }

    /** Adds the state to one range after the other, as long as they cover [from..to] exactly. */
    static method Walk(nodes: Nodes<RangeVal>, leaf0: nat, i0: nat, ghost root: nat, ghost top: nat,
                       ghost levels: Levels, ghost low: Low,
                       ghost all: seq<Entry>, ghost objs: set<MultiState>, ghost was: seq<set<nat>>, ghost k0: nat,
                       from: Char32, to: Char32, state: nat)
      returns (err: Err)
      requires BTree.Valid(nodes, root, top, levels, low, RANGECAPS) && all == AllItems(nodes, levels)
      requires AtItem(nodes, levels, leaf0, i0, k0) && DistinctSets(all) && Walking(all, k0, from, to, from)
      requires Marks(all, objs, was, from, to, state, 0)
      modifies objs
      ensures err == OK <==> Exact(all, from, to)
      ensures Marks(all, objs, was, from, to, state, if err == OK then |all| else 0)
    {
      var leaf, i, start: nat := leaf0, i0, from;
      ghost var k := k0;
      MarksFrom(all, objs, was, from, to, state, k0);
      assert k < |all|;
      hide BTree.Valid, AtItem, Walking, Exact, Ranges, Marks, DistinctSets;
      var done := false;
      err := OK;
      while !done
        invariant done ==> (err == OK <==> Exact(all, from, to))
        invariant done ==> Marks(all, objs, was, from, to, state, if err == OK then |all| else 0)
        invariant !done ==> AtItem(nodes, levels, leaf, i, k) && k < |all| && Walking(all, k, from, to, start)
        invariant !done ==> Marks(all, objs, was, from, to, state, k)
        decreases !done, |all| - k
      {
        done, err, leaf, i, start := WalkOne(nodes, leaf, i, root, top, levels, low, all, objs, was, k, from, to,
                                             start, state);
        k := k + 1;
      }
    }

    static method WalkOne(nodes: Nodes<RangeVal>, leaf0: nat, i0: nat, ghost root: nat, ghost top: nat,
                          ghost levels: Levels, ghost low: Low,
                          ghost all: seq<Entry>, ghost objs: set<MultiState>, ghost was: seq<set<nat>>, ghost k: nat,
                          from: Char32, to: Char32, start0: nat, state: nat)
      returns (done: bool, err: Err, leaf: nat, i: nat, start: nat)
      requires BTree.Valid(nodes, root, top, levels, low, RANGECAPS)
      requires all == AllItems(nodes, levels) && DistinctSets(all)
      requires k < |all| && AtItem(nodes, levels, leaf0, i0, k) && Walking(all, k, from, to, start0)
      requires Marks(all, objs, was, from, to, state, k)
      modifies objs
      ensures done ==>
        (err == OK <==> Exact(all, from, to)) && Marks(all, objs, was, from, to, state, if err == OK then |all| else 0)
      ensures !done ==> k + 1 < |all| && AtItem(nodes, levels, leaf, i, k + 1) && Walking(all, k + 1, from, to, start)
      ensures !done ==> Marks(all, objs, was, from, to, state, k + 1)
    {
      hide BTree.Valid, AtItem, Walking, Exact, Ranges, Marks, DistinctSets;
      done, err, leaf, i, start := true, EINVAL, leaf0, i0, start0;
      var range := ItemAtPlace(nodes, levels, leaf, i, k);
      if range.key != start || range.val.to > to {
        WalkFails(all, k, from, to, start);
        MarksLess(all, objs, was, from, to, state, k);
        return;
      }
      WalkStep(all, k, from, to, start);
      Mark(all, objs, was, from, to, state, k, range);
      if range.val.to == to {
        MarksAll(all, objs, was, from, to, state, k + 1);
        err := OK;
        return;
      }
      leaf, i := NextItem(nodes, leaf, i, root, top, levels, low, RANGECAPS, k);
      if leaf == 0 {
        WalkFails(all, k, from, to, start);
        MarksLess(all, objs, was, from, to, state, k + 1);
        return;
      }
      done, start := false, range.val.to + 1;
    }

    static method Mark(ghost all: seq<Entry>, ghost objs: set<MultiState>, ghost was: seq<set<nat>>, ghost from: nat,
                       ghost to: nat, state: nat, ghost k: nat, range: Entry)
      requires DistinctSets(all) && Marks(all, objs, was, from, to, state, k)
      requires k < |all| && range == all[k] && Inside(range, from, to)
      modifies objs
      ensures Marks(all, objs, was, from, to, state, k + 1)
    {
      ghost var ms := range.val.ms;
      assert forall j :: 0 <= j < |all| && j != k ==> all[j].val.ms != ms;
      assert Marked(all[k], was[k], from, to, state, false);
      var _ := range.val.ms.Add(state);
    }

    static method PutRange(nodes0: Nodes<RangeVal>, root0: nat, top0: nat, ghost levels0: Levels, ghost low0: Low,
                           from: Char32, to: Char32, ms: MultiState)
      returns (again: bool, next: nat, inserted: bool, nodes: Nodes<RangeVal>, root: nat, top: nat,
               ghost levels: Levels, ghost low: Low)
      requires BTree.Valid(nodes0, root0, top0, levels0, low0, RANGECAPS)
      requires Ranges(AllItems(nodes0, levels0)) && from <= to
      ensures BTree.Valid(nodes, root, top, levels, low, RANGECAPS) && Ranges(AllItems(nodes, levels))
      ensures |AllItems(nodes, levels)| == |AllItems(nodes0, levels0)| + (if inserted then 1 else 0)
      ensures Advanced(AllItems(nodes0, levels0), AllItems(nodes, levels), from, to, again, next, ms)
    {
      hide Edit, BTree.Valid, Located, At, Ranges, PlanOk, PlanDone, Advanced, Planned;
      nodes, root, top, levels, low := nodes0, root0, top0, levels0, low0;
      ghost var all := AllItems(nodes, levels);
      var leaf, items, path, more, upper, pos, a := Locate(nodes, root, top, levels, low, RANGECAPS, from);
      var p := PlanRange(items, from, to, more, upper, all, a);
      again, next, inserted := p.again, if p.again then p.next else to + 1, p.insert;
      if p.insert {
        PlanApplied(all, a, items, from, to, p, ms);
        PlanParts(all, a, items, from, next, p, ms);
        nodes, root, top, levels, low := Put(nodes, root, top, RANGECAPS, leaf, path, Planned(p, ms), levels, low, pos,
                                             items, a);
        PlanPut(all, a, items, from, to, p, ms, AllItems(nodes, levels));
      } else {
        PlanSkip(all, a, items, from, to, p, ms);
      }
    }
  }

  lemma PlanParts(all: seq<Entry>, a: nat, items: seq<Entry>, from0: nat, n: nat, p: Plan, ms: MultiState)
    requires PlanDone(all, a, items, from0, n, p, ms)
    ensures Edit(all, a, items, Planned(p, ms))
  {
  }

  /** The new range has been put into the tree. */
  lemma PlanPut(all: seq<Entry>, a: nat, items: seq<Entry>, from: nat, to: nat, p: Plan, ms: MultiState,
                all': seq<Entry>)
    requires PlanOk(all, a, items, from, to, p) && p.insert && a + |items| <= |all|
    requires PlanDone(all, a, items, from, if p.again then p.next else to + 1, p, ms)
    requires all' == all[..a] + Planned(p, ms) + all[a + |items|..]
    ensures Ranges(all') && |all'| == |all| + 1
    ensures Advanced(all, all', from, to, p.again, if p.again then p.next else to + 1, ms)
  {
    hide Ranges, OneMore, Kept, GapPlan, CutPlan, Planned;
  }

  lemma PlanSkip(all: seq<Entry>, a: nat, items: seq<Entry>, from: nat, to: nat, p: Plan, ms: MultiState)
    requires PlanOk(all, a, items, from, to, p) && !p.insert
    ensures Advanced(all, all, from, to, p.again, if p.again then p.next else to + 1, ms)
  {
    hide Ranges, Kept, GapPlan, CutPlan;
  }

  lemma AdvancedKept(es0: seq<Entry>, es1: seq<Entry>, es2: seq<Entry>, from: nat, m: nat, to: nat, again: bool,
                     n: nat, ms: MultiState)
    requires from <= m && Kept(es0, es1, from, m) && Advanced(es1, es2, m, to, again, n, ms)
    requires m > from ==> Cov(es0, m) && !Straddles(es0, m)
    ensures Kept(es0, es2, from, n) && (again ==> n > from && Cov(es0, n) && !Straddles(es0, n))
    ensures !Straddles(es2, n)
    ensures n == m ==> Straddles(es1, m)
    ensures from <= m <= n <= to + 1 && (again <==> n <= to)
  {
    KeptTwice(es0, es1, es2, from, m, n);
  }

  /** The characters below `next` have been added; at first, nothing has. */
  ghost predicate Filling(es0: seq<Entry>, es: seq<Entry>, from: nat, next: nat, again: bool) {
    || (Kept(es0, es, from, next) && (again && next > from ==> Cov(es0, next) && !Straddles(es0, next)))
    || (again && es == es0 && next == from && Straddles(es0, from))
  }

  lemma FillingStart(es0: seq<Entry>, from: nat)
    ensures Filling(es0, es0, from, from, true) && EndsKept(es0, es0)
  {
    assert forall i :: 0 <= i < |es0| ==> es0[i].val == Vals(es0)[i];
  }

  lemma FillingStep(es0: seq<Entry>, es: seq<Entry>, es': seq<Entry>, from: nat, m: nat, to: nat, again: bool, n: nat,
                    ms: MultiState)
    requires from <= m && Filling(es0, es, from, m, true) && Advanced(es, es', m, to, again, n, ms)
    ensures Filling(es0, es', from, n, again) && !Straddles(es', n) && (n == m ==> Straddles(es, m))
    ensures m <= n <= to + 1 && (again <==> n <= to)
  {
    hide Cov, Straddles, OneMore;
    if Kept(es0, es, from, m) {
      AdvancedKept(es0, es, es', from, m, to, again, n, ms);
    }
  }

  lemma FillingDone(es0: seq<Entry>, es: seq<Entry>, from: nat, n: nat)
    requires Filling(es0, es, from, n, false)
    ensures Kept(es0, es, from, n)
  {
  }

  /** The upper ends of the ranges, and the multistates there, are kept. */
  ghost predicate EndsKept(es: seq<Entry>, es': seq<Entry>) {
    forall i :: 0 <= i < |es| ==> es[i].val in Vals(es')
  }

  lemma EndsKeptOneMore(es0: seq<Entry>, es: seq<Entry>, es': seq<Entry>, ms: MultiState)
    requires EndsKept(es0, es) && OneMore(es, es', ms)
    ensures EndsKept(es0, es')
  {
    if es' != es {
      var k: nat, to: Char32 :| k <= |es| && Vals(es') == Ins(Vals(es), k, RangeVal(to, ms));
      forall i | 0 <= i < |es0| ensures es0[i].val in Vals(es') {
        var j :| 0 <= j < |es| && Vals(es)[j] == es0[i].val;
        InsAt(Vals(es), k, RangeVal(to, ms), j);
      }
    }
  }

  /** Range number i of the leaf. */
  method ItemAtPlace(nodes: Nodes<RangeVal>, ghost levels: Levels, leaf: nat, i: nat, ghost k: nat) returns (e: Entry)
    requires AtItem(nodes, levels, leaf, i, k)
    ensures k < |AllItems(nodes, levels)| && e == AllItems(nodes, levels)[k]
  {
    e := nodes[leaf].items[i];
  }

  /** The walk over [from..to] has come to range k, which should start at `start`. */
  ghost predicate Walking(all: seq<Entry>, k: nat, from: nat, to: nat, start: nat) {
    && Ranges(all) && k < |all| && Searched(all, k, from, start) && from <= start <= to
    && start <= all[k].val.to && (start > from ==> start <= all[k].key)
    && forall i :: 0 <= i < k && from <= all[i].key ==> all[i].val.to <= to
  }

  /** Range k does not start or end where it should. */
  lemma WalkFails(all: seq<Entry>, k: nat, from: nat, to: nat, start: nat)
    requires Walking(all, k, from, to, start)
    requires all[k].key != start || all[k].val.to > to || (k + 1 == |all| && all[k].val.to < to)
    ensures !Exact(all, from, to)
  {
    if all[k].key < start {
      assert Cuts(all[k], from);
    } else if all[k].key > start {
      forall i | 0 <= i < |all| ensures !Holds(all[i], start) {
        assert k < i ==> all[k].val.to < all[i].key;
      }
      assert !Cov(all, start);
    } else if all[k].val.to > to {
      assert Cuts(all[k], to + 1);
    } else {
      forall i | 0 <= i < |all| ensures !Holds(all[i], to) {
        assert i < k ==> all[i].val.to < all[k].key;
      }
      assert !Cov(all, to);
    }
  }

  /** Nothing in the leaf reaches up to `from`. */
  lemma SearchEnd(all: seq<Entry>, a: nat, items: seq<Entry>, from: nat)
    requires Ranges(all) && Located(all, a, items, from) && forall i :: 0 <= i < |items| ==> items[i].val.to < from
    ensures !Cov(all, from)
  {
    SearchStart(all, a, items, from, |items|);
    var b := a + |items|;
    forall i | b <= i < |all| ensures from < all[i].key {
      assert b < i ==> all[b].val.to < all[i].key;
    }
  }

  lemma WalkStart(all: seq<Entry>, a: nat, items: seq<Entry>, from: nat, to: nat, i: nat)
    requires Ranges(all) && Located(all, a, items, from) && from <= to
    requires i < |items| && from <= items[i].val.to && forall j :: 0 <= j < i ==> items[j].val.to < from
    ensures Walking(all, a + i, from, to, from)
  {
    SearchStart(all, a, items, from, i);
    assert all[a + i] == items[i];
  }

  lemma WalkStep(all: seq<Entry>, k: nat, from: nat, to: nat, start: nat)
    requires Walking(all, k, from, to, start) && all[k].key == start && all[k].val.to <= to
    ensures all[k].val.to == to ==> Exact(all, from, to) && forall i :: k < i < |all| ==> !Inside(all[i], from, to)
    ensures all[k].val.to < to && k + 1 < |all| ==> Walking(all, k + 1, from, to, all[k].val.to + 1)
    ensures Inside(all[k], from, to)
  {
    SearchStep(all, k, from, start);
  }

  /** What adding the state does to the multistate of one range. */
  ghost predicate Marked(e: Entry, was: set<nat>, from: nat, to: nat, state: nat, done: bool)
    reads e.val.ms
  {
    && was <= e.val.ms.Contents() <= was + {state}
    && (!Inside(e, from, to) ==> e.val.ms.Contents() == was)
    && (Inside(e, from, to) && done ==> state in e.val.ms.Contents())
  }

  /** The ranges left of range k have got the state, as far as they lie within [from..to]. */
  ghost predicate Marks(all: seq<Entry>, objs: set<MultiState>, was: seq<set<nat>>, from: nat, to: nat, state: nat,
                        k: nat)
    reads objs
  {
    && |was| == |all|
    && (forall ms :: ms in objs ==> ms.Valid())
    && forall j :: 0 <= j < |all| ==> all[j].val.ms in objs && Marked(all[j], was[j], from, to, state, j < k)
  }

  lemma MarksLess(all: seq<Entry>, objs: set<MultiState>, was: seq<set<nat>>, from: nat, to: nat, state: nat, k: nat)
    requires Marks(all, objs, was, from, to, state, k)
    ensures Marks(all, objs, was, from, to, state, 0)
  {
    forall j | 0 <= j < |all| ensures Marked(all[j], was[j], from, to, state, false) {
      assert Marked(all[j], was[j], from, to, state, j < k);
    }
  }

  lemma MarksFrom(all: seq<Entry>, objs: set<MultiState>, was: seq<set<nat>>, from: nat, to: nat, state: nat, k: nat)
    requires Marks(all, objs, was, from, to, state, 0) && Walking(all, k, from, to, from)
    ensures Marks(all, objs, was, from, to, state, k)
  {
    forall j | 0 <= j < |all| ensures Marked(all[j], was[j], from, to, state, j < k) {
      assert Marked(all[j], was[j], from, to, state, false);
      assert j < k ==> all[j].key <= all[j].val.to < from;
    }
  }

  lemma MarksAll(all: seq<Entry>, objs: set<MultiState>, was: seq<set<nat>>, from: nat, to: nat, state: nat, k: nat)
    requires Marks(all, objs, was, from, to, state, k)
    requires forall i :: k <= i < |all| ==> !Inside(all[i], from, to)
    ensures Marks(all, objs, was, from, to, state, |all|)
  {
    forall j | 0 <= j < |all| ensures Marked(all[j], was[j], from, to, state, true) {
      assert Marked(all[j], was[j], from, to, state, j < k);
    }
  }

  lemma FirstRange(items: seq<Entry>, nodes: Nodes<RangeVal>, levels: Levels, low: Low, from: Char32, to: Char32,
                   ms: MultiState)
    requires from <= to && items == [Item(from, RangeVal(to, ms))]
    requires nodes == map[1 := Leaf(items, 0)] && levels == [[1]] && low == map[1 := items[0].key]
    ensures BTree.Valid(nodes, 1, 2, levels, low, RANGECAPS) && AllItems(nodes, levels) == items && Ranges(items)
    ensures Advanced([], items, from, to, false, to + 1, ms)
  {
    assert LeafOk(nodes, low, RANGECAPS, levels[0], 0);
    ItemsOne(nodes, 1);
    forall c: nat ensures Cov(items, c) <==> Holds(items[0], c) {
    }
    assert Vals(items) == Ins(Vals([]), 0, items[0].val);
  }

  /** A leaf holds up to 10 ranges, an inner node up to 20 children; all nodes but the root are half full at least. */
  lemma RangeNodes(nodes: Nodes<RangeVal>, root: nat, top: nat, levels: Levels, low: Low, k: nat, i: nat)
    requires BTree.Valid(nodes, root, top, levels, low, RANGECAPS) && k < |levels| && i < |levels[k]|
    ensures levels[k][i] in nodes && (nodes[levels[k][i]].Leaf? <==> k == 0)
    ensures var id, n := levels[k][i], nodes[levels[k][i]];
      if k == 0 then (if id == root then 1 else 5) <= |n.items| <= 10
      else (if id == root then 2 else 10) <= |n.child| <= 20
  {
    hide BTree.Valid;
    NodeFill(nodes, root, top, levels, low, RANGECAPS, k, i);
  }
}
