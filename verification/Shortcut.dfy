/** remove_single_empty_transitions: chains of states with a single empty
    transition are shortened. */
module Shortcut {
  import opened Graphs
  import opened Languages
  import opened Thompson
  import opened Chains

  /** k single empty transitions lead from y to z. */
  predicate Forward(g: Graph, y: nat, z: nat, k: nat)
    decreases k
  {
    if k == 0 then y == z else Single(g, y) && Forward(g, g[y].empty[0], z, k - 1)
  }

  ghost predicate Leads(g: Graph, y: nat, z: nat) {
    exists k: nat :: Forward(g, y, z, k)
  }

  lemma {:induction false} ForwardSnoc(g: Graph, y: nat, z: nat, k: nat)
    requires Forward(g, y, z, k) && Single(g, z)
    ensures Forward(g, y, g[z].empty[0], k + 1)
    decreases k
  {
    if k > 0 {
      ForwardSnoc(g, g[y].empty[0], z, k - 1);
    }
  }

  lemma {:induction false} ForwardReads(g: Graph, y: nat, z: nat, k: nat)
    requires Forward(g, y, z, k)
    ensures Reads(g, y, [], z)
    decreases k
  {
    if k == 0 {
      ReadsNothing(g, y);
    } else {
      ForwardReads(g, g[y].empty[0], z, k - 1);
      assert Eps(g, y, g[y].empty[0]);
      EpsThenReads(g, y, g[y].empty[0], [], z);
    }
  }

  /** A path to a state that is not single cannot avoid the chain. */
  lemma {:induction false} ForwardGo(g: Graph, y: nat, z: nat, k: nat, w: Word, e: nat, n: nat)
    requires Forward(g, y, z, k) && !Single(g, e) && Go(g, y, w, e, n)
    ensures k <= n && Go(g, z, w, e, n - k)
    decreases k
  {
    if k > 0 {
      assert n > 0;
      assert !exists r :: w != [] && Chr(g, y, w[0], r);
      var r :| Eps(g, y, r) && Go(g, r, w, e, n - 1);
      assert r == g[y].empty[0];
      ForwardGo(g, r, z, k - 1, w, e, n - 1);
    }
  }

  lemma {:induction false} ForwardInside(g: Graph, st: seq<nat>, f: Rank, y: nat, z: nat, k: nat)
    requires WellFormed(g, st) && RankedBy(g, st, f) && y in st && Forward(g, y, z, k)
    ensures z in st && Of(f, z) + k <= Of(f, y)
    decreases k
  {
    if k > 0 {
      EdgesStay(g, st, y);
      ForwardInside(g, st, f, g[y].empty[0], z, k - 1);
    }
  }

  /** The chain from y does not notice a change at a state of higher rank. */
  lemma {:induction false} ForwardFrame(g: Graph, st: seq<nat>, f: Rank, x: nat, n: Node, y: nat, z: nat, k: nat)
    requires WellFormed(g, st) && RankedBy(g, st, f) && y in st && Forward(g, y, z, k)
    requires Of(f, y) < Of(f, x)
    ensures Forward(g[x := n], y, z, k)
    decreases k
  {
    if k > 0 {
      EdgesStay(g, st, y);
      ForwardFrame(g, st, f, x, n, g[y].empty[0], z, k - 1);
    }
  }

  /** The transitions n2 are those of n1 with their targets moved on along chains. */
  ghost predicate Moved(g: Graph, n1: Node, n2: Node) {
    && |n1.empty| == |n2.empty| && |n1.ranges| == |n2.ranges| && n1.chunks == n2.chunks
    && (forall i :: 0 <= i < |n1.empty| ==> Leads(g, n1.empty[i], n2.empty[i]))
    && (forall i :: 0 <= i < |n1.ranges| ==>
          n2.ranges[i].from == n1.ranges[i].from && n2.ranges[i].to == n1.ranges[i].to
          && Leads(g, n1.ranges[i].target, n2.ranges[i].target))
  }

  lemma ChainEnds(g: Graph, st: seq<nat>, f: Rank, y: nat, z: nat)
    requires WellFormed(g, st) && RankedBy(g, st, f) && y in st && Leads(g, y, z)
    ensures z in st && Of(f, z) <= Of(f, y) && (!Single(g, y) ==> z == y)
  {
    var k: nat :| Forward(g, y, z, k);
    ForwardInside(g, st, f, y, z, k);
  }

  lemma MovedEdges(g: Graph, st: seq<nat>, f: Rank, x: nat, n: Node)
    requires WellFormed(g, st) && RankedBy(g, st, f) && x in st && Moved(g, g[x], n)
    ensures forall r :: r in n.empty ==> r in st
    ensures forall t :: t in n.ranges ==> t.target in st
    ensures x == End(st) ==> n.empty != [] && n.empty[|n.empty| - 1] == x
    ensures Single(g[x := n], x) ==> Of(f, n.empty[0]) < Of(f, x)
  {
    EdgesStay(g, st, x);
    forall i | 0 <= i < |n.empty| ensures n.empty[i] in st {
      ChainEnds(g, st, f, g[x].empty[i], n.empty[i]);
    }
    forall i | 0 <= i < |n.ranges| ensures n.ranges[i].target in st {
      ChainEnds(g, st, f, g[x].ranges[i].target, n.ranges[i].target);
    }
    var j := |n.empty| - 1;
    if x == End(st) {
      ChainEnds(g, st, f, g[x].empty[j], n.empty[j]);
    }
    if Single(g[x := n], x) {
      ChainEnds(g, st, f, g[x].empty[0], n.empty[0]);
    }
  }

  lemma MovedKeeps(g: Graph, st: seq<nat>, f: Rank, x: nat, n: Node)
    requires WellFormed(g, st) && RankedBy(g, st, f) && x in st && Moved(g, g[x], n)
    ensures WellFormed(g[x := n], st) && RankedBy(g[x := n], st, f)
  {
    MovedEdges(g, st, f, x, n);
    var g' := g[x := n];
    forall p | p in st
      ensures p in g'
      ensures forall r :: r in g'[p].empty ==> r in st
      ensures forall t :: t in g'[p].ranges ==> t.target in st
    {
      EdgesStay(g, st, p);
    }
    ClosedBy(g', st);
  }

  lemma {:induction false} MovedReads(g: Graph, x: nat, n: Node, p: nat, w: Word, e: nat, m: nat)
    requires x in g && Moved(g, g[x], n) && Go(g[x := n], p, w, e, m)
    ensures Reads(g, p, w, e)
    decreases m
  {
    var g' := g[x := n];
    if m == 0 {
      ReadsNothing(g, p);
    } else if r :| Eps(g', p, r) && Go(g', r, w, e, m - 1) {
      MovedReads(g, x, n, r, w, e, m - 1);
      if p == x {
        var i :| 0 <= i < |n.empty| && n.empty[i] == r;
        var k: nat :| Forward(g, g[x].empty[i], r, k);
        ForwardReads(g, g[x].empty[i], r, k);
        ReadsConcat(g, g[x].empty[i], [], r, w, e);
        assert [] + w == w;
        assert Eps(g, x, g[x].empty[i]);
        EpsThenReads(g, x, g[x].empty[i], w, e);
      } else {
        EpsThenReads(g, p, r, w, e);
      }
    } else {
      var r :| Chr(g', p, w[0], r) && Go(g', r, w[1..], e, m - 1);
      MovedReads(g, x, n, r, w[1..], e, m - 1);
      if p == x {
        var i :| 0 <= i < |n.ranges| && Hit(n.ranges[i], w[0]) && n.ranges[i].target == r;
        var t := g[x].ranges[i];
        var k: nat :| Forward(g, t.target, r, k);
        ForwardReads(g, t.target, r, k);
        ReadsConcat(g, t.target, [], r, w[1..], e);
        assert [] + w[1..] == w[1..];
        assert t in g[x].ranges && Hit(t, w[0]);
        ChrThenReads(g, x, t.target, w, e);
      } else {
        ChrThenReads(g, p, r, w, e);
      }
    }
  }

  /** Paths to the end only get shorter when targets move on along chains. */
  lemma {:induction false} MovedGo(g: Graph, x: nat, n: Node, p: nat, w: Word, e: nat, m: nat)
    requires x in g && Moved(g, g[x], n) && !Single(g, e) && Go(g, p, w, e, m)
    ensures Reads(g[x := n], p, w, e)
    decreases m
  {
    var g' := g[x := n];
    if m == 0 {
      ReadsNothing(g', p);
    } else if r :| Eps(g, p, r) && Go(g, r, w, e, m - 1) {
      if p == x {
        var i :| 0 <= i < |g[x].empty| && g[x].empty[i] == r;
        var k: nat :| Forward(g, r, n.empty[i], k);
        ForwardGo(g, r, n.empty[i], k, w, e, m - 1);
        MovedGo(g, x, n, n.empty[i], w, e, m - 1 - k);
        assert Eps(g', x, n.empty[i]);
        EpsThenReads(g', x, n.empty[i], w, e);
      } else {
        MovedGo(g, x, n, r, w, e, m - 1);
        assert Eps(g', p, r);
        EpsThenReads(g', p, r, w, e);
      }
    } else {
      var r :| Chr(g, p, w[0], r) && Go(g, r, w[1..], e, m - 1);
      if p == x {
        var i :| 0 <= i < |g[x].ranges| && Hit(g[x].ranges[i], w[0]) && g[x].ranges[i].target == r;
        var t := n.ranges[i];
        var k: nat :| Forward(g, r, t.target, k);
        ForwardGo(g, r, t.target, k, w[1..], e, m - 1);
        MovedGo(g, x, n, t.target, w[1..], e, m - 1 - k);
        assert t in n.ranges && Hit(t, w[0]);
        assert Chr(g', x, w[0], t.target);
        ChrThenReads(g', x, t.target, w, e);
      } else {
        MovedGo(g, x, n, r, w[1..], e, m - 1);
        assert Chr(g', p, w[0], r);
        ChrThenReads(g', p, r, w, e);
      }
    }
  }

  /** Every state of g' accepts the words it accepts in g. */
  /** No path is added, and none is lost that leads to a state which is not bypassed. */
  ghost predicate SameReads(g: Graph, g': Graph) {
    && (forall p, w: Word, e :: Reads(g', p, w, e) ==> Reads(g, p, w, e))
    && (forall p, w: Word, e :: !Single(g, e) && Reads(g, p, w, e) ==> Reads(g', p, w, e))
    && (forall e :: !Single(g, e) ==> !Single(g', e))
  }

  ghost predicate SameRanges(n1: Node, n2: Node) {
    && |n1.ranges| == |n2.ranges| && n1.chunks == n2.chunks && |n1.empty| == |n2.empty|
    && forall i :: 0 <= i < |n1.ranges| ==> n2.ranges[i].from == n1.ranges[i].from && n2.ranges[i].to == n1.ranges[i].to
  }

  ghost predicate NoSingle(g: Graph, st: seq<nat>) {
    forall s :: s in st ==> !Single(g, s)
  }

  /** What remove_single_empty_transitions keeps: the words every state leads to
      the end with, the characters of all ranges, and everything outside of st. */
  ghost predicate Simplified(g: Graph, g': Graph, st: seq<nat>) {
    && st != []
    && g'.Keys == g.Keys
    && SameReads(g, g')
    && (forall p :: p in g ==> SameRanges(g[p], g'[p]))
    && (forall p :: p in g && p !in st ==> g'[p] == g[p])
    && (NoSingle(g, st) ==> g' == g)
  }

  lemma SimplifiedRefl(g: Graph, st: seq<nat>)
    requires st != []
    ensures Simplified(g, g, st)
  {
  }

  lemma MovedSimplified(g0: Graph, g: Graph, st: seq<nat>, f: Rank, x: nat, n: Node)
    requires WellFormed(g, st) && RankedBy(g, st, f) && x in st && Moved(g, g[x], n)
    requires Simplified(g0, g, st)
    ensures WellFormed(g[x := n], st) && RankedBy(g[x := n], st, f) && Simplified(g0, g[x := n], st)
  {
    hide Moved, WellFormed, RankedBy;
    MovedKeeps(g, st, f, x, n);
    MovedSame(g, st, f, x, n);
    MovedRanges(g, st, f, x, n);
    hide Single, Reads;
    if NoSingle(g0, st) {
      MovedNothing(g, st, f, x, n);
    }
  }

  lemma MovedRanges(g: Graph, st: seq<nat>, f: Rank, x: nat, n: Node)
    requires WellFormed(g, st) && x in st && Moved(g, g[x], n)
    ensures x in g && SameRanges(g[x], n)
  {
    EdgesStay(g, st, x);
  }

  lemma MovedSame(g: Graph, st: seq<nat>, f: Rank, x: nat, n: Node)
    requires WellFormed(g, st) && RankedBy(g, st, f) && x in st && Moved(g, g[x], n)
    ensures SameReads(g, g[x := n])
  {
    hide Moved, Single, WellFormed, RankedBy;
    var g' := g[x := n];
    MovedRanges(g, st, f, x, n);
    forall p, w: Word, e | Reads(g', p, w, e) ensures Reads(g, p, w, e) {
      var m: nat :| Go(g', p, w, e, m);
      MovedReads(g, x, n, p, w, e, m);
    }
    forall p, w: Word, e | !Single(g, e) && Reads(g, p, w, e) ensures Reads(g', p, w, e) {
      var m: nat :| Go(g, p, w, e, m);
      MovedGo(g, x, n, p, w, e, m);
    }
    forall e | !Single(g, e) ensures !Single(g', e) {
      MovedSingle(g, st, f, x, n, e);
    }
  }

  lemma MovedSingle(g: Graph, st: seq<nat>, f: Rank, x: nat, n: Node, e: nat)
    requires WellFormed(g, st) && RankedBy(g, st, f) && x in st && Moved(g, g[x], n) && !Single(g, e)
    ensures !Single(g[x := n], e)
  {
    hide Leads;
    EdgesStay(g, st, x);
    if e == x && g[x].ranges == [] && |g[x].empty| == 1 {
      ChainEnds(g, st, f, g[x].empty[0], n.empty[0]);
    }
  }

  lemma MovedNothing(g: Graph, st: seq<nat>, f: Rank, x: nat, n: Node)
    requires WellFormed(g, st) && RankedBy(g, st, f) && x in st && Moved(g, g[x], n) && NoSingle(g, st)
    ensures n == g[x]
  {
    hide Leads;
    EdgesStay(g, st, x);
    forall i | 0 <= i < |n.empty| ensures n.empty[i] == g[x].empty[i] {
      ChainEnds(g, st, f, g[x].empty[i], n.empty[i]);
    }
    forall i | 0 <= i < |n.ranges| ensures n.ranges[i] == g[x].ranges[i] {
      ChainEnds(g, st, f, g[x].ranges[i].target, n.ranges[i].target);
    }
    assert n.empty == g[x].empty && n.ranges == g[x].ranges;
  }

  /** The invariant of both loops: g came about from g0 and still is an acyclic automaton. */
  ghost predicate Working(g0: Graph, g: Graph, st: seq<nat>, f: Rank) {
    WellFormed(g, st) && RankedBy(g, st, f) && Simplified(g0, g, st)
  }

  /** The chain from s, if there is one, has a single step. */
  predicate Direct(g: Graph, s: nat) {
    Single(g, s) ==> !Single(g, g[s].empty[0])
  }

  /** No chain is longer than one step, and no character leads to the start of a chain. */
  ghost predicate Shortened(g: Graph, st: seq<nat>) {
    && (forall s :: s in st ==> Direct(g, s))
    && (forall s, t :: s in st && s in g && t in g[s].ranges ==> !Single(g, t.target))
  }

  /** g2 has chains where g1 has, and those of a single step still do with one. */
  ghost predicate NoLonger(g1: Graph, g2: Graph, st: seq<nat>) {
    forall p :: p in st ==> Single(g1, p) == Single(g2, p) && (Direct(g1, p) ==> Direct(g2, p))
  }

  lemma NoLongerAfter(g1: Graph, g: Graph, st: seq<nat>, f: Rank, x: nat, last: nat)
    requires WellFormed(g, st) && RankedBy(g, st, f) && NoLonger(g1, g, st)
    requires x in st && Single(g, x) && last != x && !Single(g, last)
    ensures NoLonger(g1, g[x := g[x].(empty := [last])], st)
  {
    var g' := g[x := g[x].(empty := [last])];
    assert forall p :: Single(g, p) == Single(g', p);
  }

  lemma MoveOne(g: Graph, x: nat, z: nat, k: nat)
    requires Single(g, x) && Forward(g, g[x].empty[0], z, k)
    ensures Moved(g, g[x], g[x].(empty := [z]))
  {
    assert g[x].ranges == [];
  }

  lemma MoveRange(g: Graph, x: nat, i: nat)
    requires x in g && i < |g[x].ranges| && Single(g, g[x].ranges[i].target)
    ensures var t := g[x].ranges[i];
      Moved(g, g[x], g[x].(ranges := g[x].ranges[i := t.(target := g[t.target].empty[0])]))
  {
    var t := g[x].ranges[i];
    var z := g[t.target].empty[0];
    assert Forward(g, z, z, 0);
    assert Forward(g, t.target, z, 1);
    forall j | 0 <= j < |g[x].empty| ensures Leads(g, g[x].empty[j], g[x].empty[j]) {
      assert Forward(g, g[x].empty[j], g[x].empty[j], 0);
    }
    forall j | 0 <= j < |g[x].ranges| ensures Leads(g, g[x].ranges[j].target, g[x].ranges[j].target) {
      assert Forward(g, g[x].ranges[j].target, g[x].ranges[j].target, 0);
    }
  }

  /** Follows the chain that starts in s to its last state. */
  method FindLast(g: Graph, st: seq<nat>, ghost f: Rank, s: nat) returns (last: nat, nrsteps: nat)
    requires WellFormed(g, st) && RankedBy(g, st, f) && s in st && g[s].ranges == [] && |g[s].empty| == 1
    ensures Forward(g, s, last, nrsteps) && !Single(g, last)
  {
    last, nrsteps := s, 0;
    var target := g[s].empty[0];
    while target != last
      invariant last in st && Forward(g, s, last, nrsteps)
      invariant last in g && g[last].ranges == [] && g[last].empty == [target]
      decreases Of(f, last)
    {
      ForwardSnoc(g, s, last, nrsteps);
      EdgesStay(g, st, last);
      EdgesStay(g, st, target);
      nrsteps := nrsteps + 1;
      last := target;
      if |g[last].ranges| != 0 || |g[last].empty| != 1 {
        break;
      }
      target := g[last].empty[0];
    }
  }

  lemma ChainStep(g0: Graph, g1: Graph, g: Graph, st: seq<nat>, f: Rank, x: nat, last: nat, n: nat) returns (next: nat)
    requires Working(g0, g, st, f) && NoLonger(g1, g, st)
    requires x in st && Forward(g, x, last, n) && n > 1 && !Single(g, last)
    ensures Single(g, x) && next == g[x].empty[0]
    ensures next in st && last != x && Of(f, next) < Of(f, x)
    ensures var g' := g[x := g[x].(empty := [last])];
      Working(g0, g', st, f) && NoLonger(g1, g', st) && Forward(g', next, last, n - 1) && !Single(g', last)
  {
    next := g[x].empty[0];
    EdgesStay(g, st, x);
    ForwardInside(g, st, f, x, last, n);
    NoLongerAfter(g1, g, st, f, x, last);
    MoveOne(g, x, last, n - 1);
    MovedSimplified(g0, g, st, f, x, g[x].(empty := [last]));
    ForwardFrame(g, st, f, x, g[x].(empty := [last]), next, last, n - 1);
  }

  /** Lets every state of the chain from s but the last two lead to the last one directly. */
  method ShortenChain(g1: Graph, ghost g0: Graph, st: seq<nat>, ghost f: Rank, s: nat) returns (g: Graph)
    requires Working(g0, g1, st, f) && s in st && g1[s].ranges == [] && |g1[s].empty| == 1
    ensures Working(g0, g, st, f) && NoLonger(g1, g, st) && Direct(g, s)
  {
    hide Working, NoLonger, Forward, WellFormed, RankedBy;
    g := g1;
    WorkingParts(g0, g, st, f);
    var last, nrsteps := FindLast(g, st, f, s);
    var next := s;
    ghost var n := nrsteps;
    while nrsteps > 1
      invariant next in st && Working(g0, g, st, f) && Forward(g, next, last, nrsteps)
      invariant NoLonger(g1, g, st) && !Single(g, last)
      invariant if next == s then nrsteps == n else Of(f, next) < Of(f, s) && s in g && g[s].empty == [last]
    {
      var x := next;
      ghost var y := ChainStep(g0, g1, g, st, f, x, last, nrsteps);
      next := g[x].empty[0];
      g := g[x := g[x].(empty := [last])];
      nrsteps := nrsteps - 1;
    }
    if next == s {
      ShortIsDirect(g, s, last, nrsteps);
    }
  }

  lemma WorkingParts(g0: Graph, g: Graph, st: seq<nat>, f: Rank)
    requires Working(g0, g, st, f)
    ensures WellFormed(g, st) && RankedBy(g, st, f) && NoLonger(g, g, st)
  {
  }

  lemma ShortIsDirect(g: Graph, s: nat, last: nat, n: nat)
    requires Forward(g, s, last, n) && n <= 1 && !Single(g, last)
    ensures Direct(g, s)
  {
    if n == 1 {
      assert Forward(g, g[s].empty[0], last, 0);
    }
  }

  /** Moving the target of one range transition on, if it has a single empty transition. */
  lemma RangeStep(g0: Graph, g: Graph, st: seq<nat>, f: Rank, s: nat, i: nat)
    requires Working(g0, g, st, f) && s in st && s in g && i < |g[s].ranges|
    ensures g[s].ranges[i].target in g
    ensures var target := g[g[s].ranges[i].target];
      |target.empty| == 1 && |target.ranges| == 0 ==>
        Working(g0, g[s := g[s].(ranges := g[s].ranges[i := g[s].ranges[i].(target := target.empty[0])])], st, f)
  {
    EdgesStay(g, st, s);
    var t := g[s].ranges[i];
    EdgesStay(g, st, t.target);
    var target := g[t.target];
    if |target.empty| == 1 && |target.ranges| == 0 {
      var n := g[s].(ranges := g[s].ranges[i := t.(target := target.empty[0])]);
      if Single(g, t.target) {
        MoveRange(g, s, i);
        MovedSimplified(g0, g, st, f, s, n);
      } else {
        assert n.ranges == g[s].ranges;
        assert g[s := n] == g;
      }
    }
  }

  /** Only the range transitions of s differ. */
  ghost predicate OnlyRanges(g1: Graph, g: Graph, s: nat) {
    && g.Keys == g1.Keys && s in g1
    && g[s].empty == g1[s].empty && |g[s].ranges| == |g1[s].ranges|
    && forall p :: p in g1 && p != s ==> g[p] == g1[p]
  }

  lemma OnlyRangesSingle(g1: Graph, g: Graph, s: nat)
    requires OnlyRanges(g1, g, s)
    ensures forall p :: Single(g1, p) == Single(g, p) && Direct(g1, p) == Direct(g, p)
  {
  }

  /** The first i range transitions of s have been moved on. */
  ghost predicate RangesMoved(g0: Graph, g1: Graph, g: Graph, st: seq<nat>, f: Rank, s: nat, i: nat) {
    && Working(g0, g, st, f) && OnlyRanges(g1, g, s)
    && (forall p :: p in st ==> Direct(g, p))
    && forall j :: 0 <= j < i && j < |g[s].ranges| ==> !Single(g, g[s].ranges[j].target)
  }

  lemma RangesMovedStep(g0: Graph, g1: Graph, g: Graph, st: seq<nat>, f: Rank, s: nat, i: nat)
    requires s in st && RangesMoved(g0, g1, g, st, f, s, i) && i < |g1[s].ranges|
    ensures s in g && i < |g[s].ranges| && g[s].ranges[i].target in g
    ensures var target := g[g[s].ranges[i].target];
      if |target.empty| == 1 && |target.ranges| == 0 then
        RangesMoved(g0, g1, g[s := g[s].(ranges := g[s].ranges[i := g[s].ranges[i].(target := target.empty[0])])],
          st, f, s, i + 1)
      else RangesMoved(g0, g1, g, st, f, s, i + 1)
  {
    RangeStep(g0, g, st, f, s, i);
    TargetInside(g0, g, st, f, s, i);
    hide Working, WellFormed;
    var target := g[g[s].ranges[i].target];
    if |target.empty| == 1 && |target.ranges| == 0 {
      var g' := g[s := g[s].(ranges := g[s].ranges[i := g[s].ranges[i].(target := target.empty[0])])];
      OnlyRangesSingle(g, g', s);
    }
  }

  /** Lets range transitions of s to a state with a single empty transition bypass that state. */
  method ShortenRanges(g1: Graph, ghost g0: Graph, st: seq<nat>, ghost f: Rank, s: nat) returns (g: Graph)
    requires s in st && s in g1 && RangesMoved(g0, g1, g1, st, f, s, 0)
    ensures RangesMoved(g0, g1, g, st, f, s, |g1[s].ranges|)
  {
    g := g1;
    for i := 0 to |g1[s].ranges|
      invariant RangesMoved(g0, g1, g, st, f, s, i)
    {
      RangesMovedStep(g0, g1, g, st, f, s, i);
      hide RangesMoved;
      var t := g[s].ranges[i];
      var target := g[t.target];
      if |target.empty| == 1 && |target.ranges| == 0 {
        g := g[s := g[s].(ranges := g[s].ranges[i := t.(target := target.empty[0])])];
      }
    }
  }

  lemma TargetInside(g0: Graph, g: Graph, st: seq<nat>, f: Rank, s: nat, i: nat)
    requires Working(g0, g, st, f) && s in st && s in g && i < |g[s].ranges|
    requires forall p :: p in st ==> Direct(g, p)
    ensures var t := g[s].ranges[i].target;
      t in st && t in g && (|g[t].empty| == 1 && |g[t].ranges| == 0 ==> !Single(g, g[t].empty[0]))
  {
    EdgesStay(g, st, s);
    EdgesStay(g, st, g[s].ranges[i].target);
  }

  lemma ShortenedSoFar(g1: Graph, g: Graph, st: seq<nat>, i: nat)
    requires i < |st| && OnlyRanges(g1, g, st[i])
    requires forall p :: p in st ==> Direct(g, p)
    requires forall j, k :: 0 <= j < i && st[j] in g1 && 0 <= k < |g1[st[j]].ranges| ==>
      !Single(g1, g1[st[j]].ranges[k].target)
    requires forall k :: 0 <= k < |g[st[i]].ranges| ==> !Single(g, g[st[i]].ranges[k].target)
    ensures forall j, k :: 0 <= j <= i && st[j] in g && 0 <= k < |g[st[j]].ranges| ==>
      !Single(g, g[st[j]].ranges[k].target)
  {
    OnlyRangesSingle(g1, g, st[i]);
  }

  method RemoveSingleEmptyTransitions(g0: Graph, st: seq<nat>) returns (g: Graph)
    requires WellFormed(g0, st) && Ranked(g0, st)
    ensures WellFormed(g, st) && Ranked(g, st) && Simplified(g0, g, st) && Shortened(g, st)
  {
    hide Working, WellFormed, Simplified, RankedBy, Direct, Single;
    ghost var f := WorkingStart(g0, st);
    g := ShortenChains(g0, st, f);
    for i := 0 to |st|
      invariant Working(g0, g, st, f)
      invariant forall p :: p in st ==> Direct(g, p)
      invariant forall j, k :: 0 <= j < i && st[j] in g && 0 <= k < |g[st[j]].ranges| ==>
        !Single(g, g[st[j]].ranges[k].target)
    {
      InsideGraph(g0, g, st, f, st[i]);
      ghost var g1 := g;
      g := ShortenRanges(g, g0, st, f, st[i]);
      ShortenedSoFar(g1, g, st, i);
    }
    WorkingEnd(g0, g, st, f);
  }

  lemma WorkingStart(g: Graph, st: seq<nat>) returns (f: Rank)
    requires WellFormed(g, st) && Ranked(g, st)
    ensures Working(g, g, st, f)
  {
    f :| RankedBy(g, st, f);
    SimplifiedRefl(g, st);
  }

  lemma WorkingEnd(g0: Graph, g: Graph, st: seq<nat>, f: Rank)
    requires Working(g0, g, st, f)
    ensures WellFormed(g, st) && Ranked(g, st) && Simplified(g0, g, st)
  {
  }

  lemma InsideGraph(g0: Graph, g: Graph, st: seq<nat>, f: Rank, s: nat)
    requires Working(g0, g, st, f) && s in st
    ensures s in g
  {
    EdgesStay(g, st, s);
  }

  method ShortenChains(g0: Graph, st: seq<nat>, ghost f: Rank) returns (g: Graph)
    requires Working(g0, g0, st, f)
    ensures Working(g0, g, st, f)
    ensures forall p :: p in st ==> Direct(g, p)
  {
    hide Working, Direct, NoLonger;
    g := g0;
    for i := 0 to |st|
      invariant Working(g0, g, st, f)
      invariant forall j :: 0 <= j < i ==> Direct(g, st[j])
    {
      InsideGraph(g0, g, st, f, st[i]);
      if |g[st[i]].ranges| == 0 && |g[st[i]].empty| == 1 {
        ghost var g1 := g;
        g := ShortenChain(g, g0, st, f, st[i]);
        StillDirect(g1, g, st, i);
      } else {
        NotSingle(g, st[i]);
      }
    }
  }

  lemma StillDirect(g1: Graph, g: Graph, st: seq<nat>, i: nat)
    requires NoLonger(g1, g, st) && i <= |st| && forall j :: 0 <= j < i ==> Direct(g1, st[j])
    ensures forall j :: 0 <= j < i ==> Direct(g, st[j])
  {
    forall j | 0 <= j < i ensures Direct(g, st[j]) { assert st[j] in st; }
  }

  lemma NotSingle(g: Graph, s: nat)
    requires s in g && !(g[s].ranges == [] && |g[s].empty| == 1)
    ensures Direct(g, s)
  {
  }
}
