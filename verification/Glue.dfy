/** The glued automata built by opsequence, opor and oprepeat: well-formed,
    and free of single-transition cycles whenever their parts are. */
module Glue {
  import opened Sequences
  import opened Graphs
  import opened Languages
  import opened Thompson
  import opened Chains

  ghost predicate SequenceOf(g: Graph, st1: seq<nat>, st2: seq<nat>, g': Graph, s: nat, e: nat) {
    && WellFormed(g, st1) && WellFormed(g, st2)
    && Disjoint(st1, st2)
    && Glued(g, st1, g', Start(st2)) && Glued(g, st2, g', e)
    && s !in st1 && s !in st2 && e !in st1 && s != e
    && EpsState(g', s, [Start(st1)]) && EpsState(g', e, [e])
  }

  ghost predicate OrOf(g: Graph, st1: seq<nat>, st2: seq<nat>, g': Graph, s: nat, e: nat) {
    && WellFormed(g, st1) && WellFormed(g, st2)
    && Disjoint(st1, st2)
    && Glued(g, st1, g', e) && Glued(g, st2, g', e)
    && s !in st1 && s !in st2 && s != e
    && EpsState(g', s, [Start(st1), Start(st2)]) && EpsState(g', e, [e])
  }

  ghost predicate StarOf(g: Graph, st: seq<nat>, g': Graph, s: nat, e: nat) {
    && WellFormed(g, st)
    && Glued(g, st, g', s)
    && s != e && e !in st
    && EpsState(g', s, [Start(st), e]) && EpsState(g', e, [e])
  }

  ghost predicate PlusOf(g: Graph, st: seq<nat>, g': Graph, s0: nat, s: nat, e: nat) {
    && StarOf(g, st, g', s, e)
    && s0 != s && s0 != e && s0 !in st
    && EpsState(g', s0, [Start(st)])
  }

  ghost predicate Disjoint(a: seq<nat>, b: seq<nat>) {
    forall p :: p in a ==> p !in b
  }

  lemma GluedEdges(g: Graph, st: seq<nat>, g': Graph, x: nat, p: nat)
    requires Glued(g, st, g', x) && p in st
    ensures p in g'
    ensures forall r :: r in g'[p].empty ==> r in st || (r == x && p == End(st))
    ensures forall t :: t in g'[p].ranges ==> t.target in st
  {
    EdgesStay(g, st, p);
    assert p in States(st);
    if p == End(st) {
      forall r | r in g'[p].empty ensures r in st || r == x {
        var i :| 0 <= i < |g'[p].empty| && g'[p].empty[i] == r;
        if r != x { assert g[p].empty[i] == r; }
      }
    }
  }

  lemma DistinctConcat(a: seq<nat>, b: seq<nat>)
    requires Distinct(a) && Distinct(b) && Disjoint(a, b)
    ensures Distinct(a + b)
  {
    forall i, j | 0 <= i < j < |a + b| ensures (a + b)[i] != (a + b)[j] {
      if i < |a| <= j {
        assert a[i] in a && b[j - |a|] in b;
      }
    }
  }

  lemma SequenceWellFormed(g: Graph, st1: seq<nat>, st2: seq<nat>, g': Graph, s: nat, e: nat)
    requires SequenceOf(g, st1, st2, g', s, e)
    ensures WellFormed(g', [s] + st1 + st2 + [e])
  {
    BothWellFormed(g, st1, st2, g', s, e, Start(st2));
  }

  lemma OrWellFormed(g: Graph, st1: seq<nat>, st2: seq<nat>, g': Graph, s: nat, e: nat)
    requires OrOf(g, st1, st2, g', s, e)
    ensures WellFormed(g', [s] + st1 + st2 + [e])
  {
    BothWellFormed(g, st1, st2, g', s, e, e);
  }

  lemma BothWellFormed(g: Graph, st1: seq<nat>, st2: seq<nat>, g': Graph, s: nat, e: nat, x: nat)
    requires Disjoint(st1, st2)
    requires Glued(g, st1, g', x) && Glued(g, st2, g', e) && (x in st2 || x == e)
    requires s !in st1 && s !in st2 && e !in st1 && s != e
    requires s in g' && (forall r :: r in g'[s].empty ==> r in st1 || r in st2) && g'[s].ranges == []
    requires EpsState(g', e, [e])
    ensures WellFormed(g', [s] + st1 + st2 + [e])
  {
    var st := [s] + st1 + st2 + [e];
    DistinctConcat(st1, st2);
    DistinctConcat([s], st1 + st2);
    DistinctConcat([s] + (st1 + st2), [e]);
    assert [s] + (st1 + st2) + [e] == st;
    forall p | p in st
      ensures p in g'
      ensures forall r :: r in g'[p].empty ==> r in st
      ensures forall t :: t in g'[p].ranges ==> t.target in st
    {
      if p in st1 { GluedEdges(g, st1, g', x, p); }
      else if p in st2 { GluedEdges(g, st2, g', e, p); }
      else { assert p == s || p == e; }
    }
    ClosedBy(g', st);
  }

  lemma LoopWellFormed(g: Graph, st: seq<nat>, g': Graph, s: nat, e: nat)
    requires StarOf(g, st, g', s, e)
    ensures WellFormed(g', [s] + st + [e])
  {
    var st' := [s] + st + [e];
    DistinctConcat([s], st);
    DistinctConcat([s] + st, [e]);
    forall p | p in st'
      ensures p in g'
      ensures forall r :: r in g'[p].empty ==> r in st'
      ensures forall t :: t in g'[p].ranges ==> t.target in st'
    {
      if p in st { GluedEdges(g, st, g', s, p); }
      else { assert p == s || p == e; }
    }
    ClosedBy(g', st');
  }

  lemma PlusWellFormed(g: Graph, st: seq<nat>, g': Graph, s0: nat, s: nat, e: nat)
    requires PlusOf(g, st, g', s0, s, e)
    ensures WellFormed(g', [s0, s] + st + [e])
  {
    LoopWellFormed(g, st, g', s, e);
    var st1 := [s] + st + [e];
    DistinctConcat([s0], st1);
    var st' := [s0, s] + st + [e];
    assert st' == [s0] + st1;
    forall p | p in st'
      ensures p in g'
      ensures forall r :: r in g'[p].empty ==> r in st'
      ensures forall t :: t in g'[p].ranges ==> t.target in st'
    {
      if p != s0 { EdgesStay(g', st1, p); }
    }
    ClosedBy(g', st');
  }

  /** The ranks f1 on st1 and f2 on st2, lifted by d1 and d2, with ranks for s and e. */
  lemma MergeRanks(st1: seq<nat>, f1: Rank, d1: nat, st2: seq<nat>, f2: Rank, d2: nat, s: nat, rs: nat, e: nat, re: nat)
    returns (f: Rank)
    requires Disjoint(st1, st2)
    requires s !in st1 && s !in st2 && e !in st1 && e !in st2 && s != e
    ensures forall p :: p in st1 ==> Of(f, p) == Of(f1, p) + d1
    ensures forall p :: p in st2 ==> Of(f, p) == Of(f2, p) + d2
    ensures Of(f, s) == rs && Of(f, e) == re
  {
    var h1 := map p | p in st1 :: Of(f1, p) + d1;
    var h2 := map p | p in st2 :: Of(f2, p) + d2;
    f := h1 + h2 + map[s := rs, e := re];
  }

  lemma RankedParts(g: Graph, st1: seq<nat>, st2: seq<nat>, s: nat, e: nat, f: Rank)
    requires RankedBy(g, st1, f) && RankedBy(g, st2, f)
    requires Single(g, s) ==> Of(f, g[s].empty[0]) < Of(f, s)
    requires EpsState(g, e, [e])
    ensures Ranked(g, [s] + st1 + st2 + [e])
  {
    assert RankedBy(g, [s] + st1 + st2 + [e], f);
  }

  lemma SequenceRanked(g: Graph, st1: seq<nat>, st2: seq<nat>, g': Graph, s: nat, e: nat)
    requires SequenceOf(g, st1, st2, g', s, e)
    requires Ranked(g, st1) && Ranked(g, st2)
    ensures Ranked(g', [s] + st1 + st2 + [e])
  {
    var f1 :| RankedBy(g, st1, f1);
    var f2 :| RankedBy(g, st2, f2);
    var b1 := Bound(f1);
    var b2 := Bound(f2);
    var f := MergeRanks(st1, f1, b2 + 2, st2, f2, 1, s, b1 + b2 + 3, e, 0);
    GluedForward(g, st1, g', Start(st2), f1, f, b2 + 2);
    GluedForward(g, st2, g', e, f2, f, 1);
    RankedParts(g', st1, st2, s, e, f);
  }

  lemma OrRanked(g: Graph, st1: seq<nat>, st2: seq<nat>, g': Graph, s: nat, e: nat)
    requires OrOf(g, st1, st2, g', s, e)
    requires Ranked(g, st1) && Ranked(g, st2)
    ensures Ranked(g', [s] + st1 + st2 + [e])
  {
    var f1 :| RankedBy(g, st1, f1);
    var f2 :| RankedBy(g, st2, f2);
    var f := MergeRanks(st1, f1, 1, st2, f2, 1, s, 0, e, 0);
    GluedForward(g, st1, g', e, f1, f, 1);
    GluedForward(g, st2, g', e, f2, f, 1);
    RankedParts(g', st1, st2, s, e, f);
  }

  lemma StarRanked(g: Graph, st: seq<nat>, g': Graph, s: nat, e: nat)
    requires StarOf(g, st, g', s, e) && Ranked(g, st)
    ensures Ranked(g', [s] + st + [e])
  {
    var f1 :| RankedBy(g, st, f1);
    var f := MergeRanks(st, f1, 1, [], map[], 0, s, 0, e, 0);
    GluedForward(g, st, g', s, f1, f, 1);
    RankedParts(g', st, [], s, e, f);
    assert [s] + st + [] + [e] == [s] + st + [e];
  }

  lemma PlusRanked(g: Graph, st: seq<nat>, g': Graph, s0: nat, s: nat, e: nat)
    requires PlusOf(g, st, g', s0, s, e) && Ranked(g, st)
    ensures Ranked(g', [s0, s] + st + [e])
  {
    var f1 :| RankedBy(g, st, f1);
    var b := Bound(f1);
    var f := MergeRanks(st, f1, 1, [s], map[], 0, s0, b + 2, e, 0);
    GluedForward(g, st, g', s, f1, f, 1);
    RankedParts(g', [s] + st, [], s0, e, f);
    assert [s0] + ([s] + st) + [] + [e] == [s0, s] + st + [e];
  }

  /** One state t of a glued part: its only predecessor has the smaller rank. */
  lemma PartBackRanked(g: Graph, st: seq<nat>, g': Graph, x: nat, st': seq<nat>, f1: Rank, f: Rank, d: nat, s: nat,
                       t: nat)
    requires Glued(g, st, g', x) && st' != [] && End(st') !in st
    requires forall p :: p in st ==> p in st'
    requires BackRankedBy(g, st, f1)
    requires forall p :: p in st ==> Of(f, p) == Of(f1, p) + d
    requires t in st && t != Start(st) && s in st && OnlyFrom(g', st', s, t)
    ensures Of(f, s) < Of(f, t)
  {
    GluedBackward(g, st, g', x, st', s, t);
  }

  lemma OnlySource(g: Graph, st: seq<nat>, s: nat, t: nat)
    requires st != [] && OnlyFrom(g, st, s, t)
    ensures s in st && s != t && s in g && t in g[s].empty && forall r :: r in st && t in Inside(g, st, r) ==> r == s
  {
  }

  lemma SequenceBackRanked(g: Graph, st1: seq<nat>, st2: seq<nat>, g': Graph, s: nat, e: nat)
    requires SequenceOf(g, st1, st2, g', s, e)
    requires BackRanked(g, st1) && BackRanked(g, st2)
    ensures BackRanked(g', [s] + st1 + st2 + [e])
  {
    var f1 :| BackRankedBy(g, st1, f1);
    var f2 :| BackRankedBy(g, st2, f2);
    var b1 := Bound(f1);
    var b2 := Bound(f2);
    var f := MergeRanks(st1, f1, 1, st2, f2, b1 + 2, s, 0, e, b1 + b2 + 3);
    var st := [s] + st1 + st2 + [e];
    forall r, t | t in st && t != Start(st) && OnlyFrom(g', st, r, t) ensures Of(f, r) < Of(f, t) {
      if r in st1 { GluedEdges(g, st1, g', Start(st2), r); }
      if r in st2 { GluedEdges(g, st2, g', e, r); }
      if t in st1 {
        if t == Start(st1) {
          assert t in Inside(g', st, s);
        } else {
          PartBackRanked(g, st1, g', Start(st2), st, f1, f, 1, r, t);
        }
      } else if t in st2 {
        if t == Start(st2) {
          var a := g'[End(st1)].empty;
          assert a[|a| - 1] == t;
          assert t in Inside(g', st, End(st1));
        } else {
          PartBackRanked(g, st2, g', e, st, f2, f, b1 + 2, r, t);
        }
      }
    }
    assert BackRankedBy(g', st, f);
  }

  lemma OrBackRanked(g: Graph, st1: seq<nat>, st2: seq<nat>, g': Graph, s: nat, e: nat)
    requires OrOf(g, st1, st2, g', s, e)
    requires BackRanked(g, st1) && BackRanked(g, st2)
    ensures BackRanked(g', [s] + st1 + st2 + [e])
  {
    var f1 :| BackRankedBy(g, st1, f1);
    var f2 :| BackRankedBy(g, st2, f2);
    var b1 := Bound(f1);
    var b2 := Bound(f2);
    var f := MergeRanks(st1, f1, 1, st2, f2, 1, s, 0, e, b1 + b2 + 2);
    var st := [s] + st1 + st2 + [e];
    hide OnlyFrom, Glued, WellFormed;
    forall r, t | t in st && t != Start(st) && OnlyFrom(g', st, r, t) ensures Of(f, r) < Of(f, t) {
      OnlySource(g', st, r, t);
      if r in st1 { GluedEdges(g, st1, g', e, r); }
      if r in st2 { GluedEdges(g, st2, g', e, r); }
      if t == Start(st1) || t == Start(st2) {
        assert t in Inside(g', st, s);
      } else if t in st1 {
        PartBackRanked(g, st1, g', e, st, f1, f, 1, r, t);
      } else if t in st2 {
        PartBackRanked(g, st2, g', e, st, f2, f, 1, r, t);
      }
    }
    assert BackRankedBy(g', st, f);
  }

  lemma StarBackRanked(g: Graph, st: seq<nat>, g': Graph, s: nat, e: nat)
    requires StarOf(g, st, g', s, e) && BackRanked(g, st)
    ensures BackRanked(g', [s] + st + [e])
  {
    var f1 :| BackRankedBy(g, st, f1);
    var f := MergeRanks(st, f1, 1, [], map[], 0, s, 0, e, 1);
    var st' := [s] + st + [e];
    assert Start(st) in Inside(g', st', s);
    forall r, t | t in st' && t != Start(st') && OnlyFrom(g', st', r, t) ensures Of(f, r) < Of(f, t) {
      if r in st { GluedEdges(g, st, g', s, r); }
      if t in st {
        if t != Start(st) {
          PartBackRanked(g, st, g', s, st', f1, f, 1, r, t);
        }
      }
    }
    assert BackRankedBy(g', st', f);
  }

  lemma PlusBackRanked(g: Graph, st: seq<nat>, g': Graph, s0: nat, s: nat, e: nat)
    requires PlusOf(g, st, g', s0, s, e) && BackRanked(g, st)
    ensures BackRanked(g', [s0, s] + st + [e])
  {
    var f1 :| BackRankedBy(g, st, f1);
    var b := Bound(f1);
    var f := MergeRanks(st, f1, 1, [s], map[], b + 2, s0, 0, e, b + 3);
    var st' := [s0, s] + st + [e];
    assert Start(st) in Inside(g', st', s) && Start(st) in Inside(g', st', s0);
    forall r, t | t in st' && t != Start(st') && OnlyFrom(g', st', r, t) ensures Of(f, r) < Of(f, t) {
      if r in st { GluedEdges(g, st, g', s, r); }
      if t in st {
        if t != Start(st) {
          PartBackRanked(g, st, g', s, st', f1, f, 1, r, t);
        }
      }
    }
    assert BackRankedBy(g', st', f);
  }

  /** Free of cycles of single empty transitions, in either direction. */
  ghost predicate Acyclic(g: Graph, st: seq<nat>) {
    st != [] && Ranked(g, st) && BackRanked(g, st)
  }

  lemma AcyclicReversible(g: Graph, st: seq<nat>)
    requires Acyclic(g, st)
    ensures Reversible(g, st)
  {
    BackRankedReversible(g, st);
  }

  /** An operation on the automata st1 and st2 (or on st1 alone) has built st, which accepts L. */
  ghost predicate GlueResult(g: Graph, g': Graph, st1: seq<nat>, st2: seq<nat>, st: seq<nat>, L: Lang) {
    && Built(g, g', States(st1) + States(st2), st, L)
    && st1 != [] && st != []
    && (Ranked(g, st1) && (st2 == [] || Ranked(g, st2)) ==> Ranked(g', st))
    && (BackRanked(g, st1) && (st2 == [] || BackRanked(g, st2)) ==> BackRanked(g', st))
    && (Upright(g, st1) && Upright(g, st2) ==> Upright(g', st))
  }

  /** st2 itself, or a copy of it in new states. */
  ghost predicate Adopted(g: Graph, st2: seq<nat>, g': Graph, st: seq<nat>) {
    && st2 != []
    && WellFormed(g', st) && LangOf(g', st) == LangOf(g, st2)
    && (forall p :: p in g ==> p in g' && g'[p] == g[p])
    && (st == st2 || forall p :: p in st ==> p !in g)
    && st != [] && (Ranked(g, st2) ==> Ranked(g', st)) && (BackRanked(g, st2) ==> BackRanked(g', st))
    && (Upright(g, st2) ==> Upright(g', st))
  }

  lemma AdoptedBeside(g: Graph, st1: seq<nat>, st2: seq<nat>, g': Graph, st: seq<nat>)
    requires WellFormed(g, st1) && Disjoint(st1, st2) && Adopted(g, st2, g', st)
    ensures WellFormed(g', st1) && WellFormed(g', st) && Disjoint(st1, st)
    ensures LangOf(g', st1) == LangOf(g, st1) && LangOf(g', st) == LangOf(g, st2)
  {
    assert forall p :: p in st1 ==> p in States(st1);
    LangFrame(g, g', st1);
  }

  lemma UprightFrame(g: Graph, g': Graph, st: seq<nat>)
    requires WellFormed(g, st) && Agree(g, g', States(st))
    ensures Upright(g, st) == Upright(g', st)
  {
    assert forall p :: p in st ==> p in States(st) && UprightAt(g, p) == UprightAt(g', p);
  }

  lemma GluedUpright(g: Graph, st: seq<nat>, g': Graph, x: nat, p: nat)
    requires Glued(g, st, g', x) && Upright(g, st) && p in st
    ensures UprightAt(g', p)
  {
    EdgesStay(g, st, p);
    assert UprightAt(g, p);
  }

  lemma GlueAdopted(g: Graph, st1: seq<nat>, st2: seq<nat>, g1: Graph, st2': seq<nat>, g': Graph, st: seq<nat>, L: Lang)
    requires WellFormed(g, st1) && Adopted(g, st2, g1, st2') && GlueResult(g1, g', st1, st2', st, L)
    ensures GlueResult(g, g', st1, st2, st, L)
  {
    RankFrame(g, g1, st1);
    UprightFrame(g, g1, st1);
    hide WellFormed, LangOf, Ranked, BackRanked, Upright;
    assert Confined(g, g', States(st1) + States(st2), st) by {
      forall p | p in g ensures p in g' && (p !in States(st1) + States(st2) ==> g'[p] == g[p]) {
        assert p in g1 && g1[p] == g[p];
      }
    }
  }

  lemma SequenceDone(g: Graph, st1: seq<nat>, st2: seq<nat>, g': Graph, s: nat, e: nat)
    requires SequenceOf(g, st1, st2, g', s, e)
    requires Confined(g, g', States(st1) + States(st2), [s] + st1 + st2 + [e])
    ensures GlueResult(g, g', st1, st2, [s] + st1 + st2 + [e], Concat(LangOf(g, st1), LangOf(g, st2)))
  {
    SequenceWellFormed(g, st1, st2, g', s, e);
    SequenceLang(g, st1, st2, g', s, e);
    if Upright(g, st1) && Upright(g, st2) {
      forall p | p in [s] + st1 + st2 + [e] ensures UprightAt(g', p) {
        if p in st1 { GluedUpright(g, st1, g', Start(st2), p); }
        if p in st2 { GluedUpright(g, st2, g', e, p); }
      }
    }
    if Ranked(g, st1) && Ranked(g, st2) { SequenceRanked(g, st1, st2, g', s, e); }
    if BackRanked(g, st1) && BackRanked(g, st2) { SequenceBackRanked(g, st1, st2, g', s, e); }
  }

  lemma OrUpright(g: Graph, st1: seq<nat>, st2: seq<nat>, g': Graph, s: nat, e: nat)
    requires OrOf(g, st1, st2, g', s, e)
    ensures Upright(g, st1) && Upright(g, st2) ==> Upright(g', [s] + st1 + st2 + [e])
  {
    hide Glued, WellFormed;
    if Upright(g, st1) && Upright(g, st2) {
      forall p | p in [s] + st1 + st2 + [e] ensures UprightAt(g', p) {
        if p in st1 { GluedUpright(g, st1, g', e, p); }
        if p in st2 { GluedUpright(g, st2, g', e, p); }
      }
    }
  }

  lemma OrDone(g: Graph, st1: seq<nat>, st2: seq<nat>, g': Graph, s: nat, e: nat)
    requires OrOf(g, st1, st2, g', s, e)
    requires Confined(g, g', States(st1) + States(st2), [s] + st1 + st2 + [e])
    ensures GlueResult(g, g', st1, st2, [s] + st1 + st2 + [e], LangOf(g, st1) + LangOf(g, st2))
  {
    hide Ranked, BackRanked, LangOf, Upright;
    OrWellFormed(g, st1, st2, g', s, e);
    OrLang(g, st1, st2, g', s, e);
    OrUpright(g, st1, st2, g', s, e);
    if Ranked(g, st1) && Ranked(g, st2) { OrRanked(g, st1, st2, g', s, e); }
    if BackRanked(g, st1) && BackRanked(g, st2) { OrBackRanked(g, st1, st2, g', s, e); }
  }

  lemma StarDone(g: Graph, st: seq<nat>, g': Graph, s: nat, e: nat)
    requires StarOf(g, st, g', s, e)
    requires Confined(g, g', States(st) + States([]), [s] + st + [e])
    ensures GlueResult(g, g', st, [], [s] + st + [e], Star(LangOf(g, st)))
  {
    LoopWellFormed(g, st, g', s, e);
    StarLang(g, st, g', s, e);
    if Upright(g, st) {
      forall p | p in [s] + st + [e] ensures UprightAt(g', p) {
        if p in st { GluedUpright(g, st, g', s, p); }
      }
    }
    if Ranked(g, st) { StarRanked(g, st, g', s, e); }
    if BackRanked(g, st) { StarBackRanked(g, st, g', s, e); }
  }

  lemma PlusDone(g: Graph, st: seq<nat>, g': Graph, s0: nat, s: nat, e: nat)
    requires PlusOf(g, st, g', s0, s, e)
    requires Confined(g, g', States(st) + States([]), [s0, s] + st + [e])
    ensures GlueResult(g, g', st, [], [s0, s] + st + [e], Plus(LangOf(g, st)))
  {
    PlusWellFormed(g, st, g', s0, s, e);
    PlusLang(g, st, g', s0, s, e);
    if Upright(g, st) {
      forall p | p in [s0, s] + st + [e] ensures UprightAt(g', p) {
        if p in st { GluedUpright(g, st, g', s, p); }
      }
    }
    if Ranked(g, st) { PlusRanked(g, st, g', s0, s, e); }
    if BackRanked(g, st) { PlusBackRanked(g, st, g', s0, s, e); }
  }

  /** g' is g with new nodes, and changes to some old ones. */
  ghost predicate Edited(g: Graph, g': Graph, news: set<nat>, changed: set<nat>) {
    && g'.Keys == g.Keys + news && (forall p :: p in news ==> p !in g)
    && forall p :: p in g && p !in changed ==> g'[p] == g[p]
  }

  lemma EndsIn(g: Graph, st: seq<nat>)
    requires WellFormed(g, st)
    ensures |st| >= 2 && Start(st) in g && End(st) in g && g[End(st)].empty != []
    ensures forall p :: p in st ==> p in g
  {
    assert Start(st) in States(st);
    forall p | p in st ensures p in g { assert p in States(st); }
  }

  lemma EndsDiffer(g: Graph, st1: seq<nat>, st2: seq<nat>)
    requires WellFormed(g, st1) && WellFormed(g, st2) && Disjoint(st1, st2)
    ensures End(st1) != End(st2)
  {
    assert End(st1) in st1 && End(st2) in st2;
  }

  lemma EditedGlued(g: Graph, g': Graph, news: set<nat>, changed: set<nat>, st: seq<nat>, x: nat)
    requires WellFormed(g, st) && Edited(g, g', news, changed) && x !in st
    requires g'[End(st)] == Patch(g[End(st)], x)
    requires forall p :: p in changed && p in st ==> p == End(st)
    ensures Glued(g, st, g', x)
  {
    EndsIn(g, st);
  }

  lemma SequenceMade(g: Graph, st1: seq<nat>, st2: seq<nat>, g': Graph, s: nat, e: nat)
    requires WellFormed(g, st1) && WellFormed(g, st2) && Disjoint(st1, st2) && s != e
    requires Edited(g, g', {s, e}, {End(st1), End(st2)})
    requires EpsState(g', s, [Start(st1)]) && EpsState(g', e, [e])
    requires g'[End(st1)] == Patch(g[End(st1)], Start(st2)) && g'[End(st2)] == Patch(g[End(st2)], e)
    ensures SequenceOf(g, st1, st2, g', s, e)
    ensures GlueResult(g, g', st1, st2, [s] + st1 + st2 + [e], Concat(LangOf(g, st1), LangOf(g, st2)))
  {
    hide GlueResult, WellFormed, LangOf, Concat, Glued;
    EndsIn(g, st1);
    EndsIn(g, st2);
    assert End(st1) in st1 && End(st2) in st2 && Start(st2) in st2;
    EditedGlued(g, g', {s, e}, {End(st1), End(st2)}, st1, Start(st2));
    EditedGlued(g, g', {s, e}, {End(st1), End(st2)}, st2, e);
    SequenceDone(g, st1, st2, g', s, e);
  }

  lemma OrMade(g: Graph, st1: seq<nat>, st2: seq<nat>, g': Graph, s: nat, e: nat)
    requires WellFormed(g, st1) && WellFormed(g, st2) && Disjoint(st1, st2) && s != e
    requires Edited(g, g', {s, e}, {End(st1), End(st2)})
    requires EpsState(g', s, [Start(st1), Start(st2)]) && EpsState(g', e, [e])
    requires g'[End(st1)] == Patch(g[End(st1)], e) && g'[End(st2)] == Patch(g[End(st2)], e)
    ensures OrOf(g, st1, st2, g', s, e)
    ensures GlueResult(g, g', st1, st2, [s] + st1 + st2 + [e], LangOf(g, st1) + LangOf(g, st2))
  {
    hide GlueResult, WellFormed, LangOf, Glued;
    EndsIn(g, st1);
    EndsIn(g, st2);
    assert End(st1) in st1 && End(st2) in st2;
    EditedGlued(g, g', {s, e}, {End(st1), End(st2)}, st1, e);
    EditedGlued(g, g', {s, e}, {End(st1), End(st2)}, st2, e);
    OrDone(g, st1, st2, g', s, e);
  }

  lemma StarMade(g: Graph, st: seq<nat>, g': Graph, s: nat, e: nat)
    requires WellFormed(g, st) && s != e
    requires Edited(g, g', {s, e}, {End(st)})
    requires EpsState(g', s, [Start(st), e]) && EpsState(g', e, [e]) && g'[End(st)] == Patch(g[End(st)], s)
    ensures GlueResult(g, g', st, [], [s] + st + [e], Star(LangOf(g, st))) && StarOf(g, st, g', s, e)
  {
    hide GlueResult, WellFormed, LangOf, Star, Glued;
    EndsIn(g, st);
    assert End(st) in st;
    EditedGlued(g, g', {s, e}, {End(st)}, st, s);
    StarDone(g, st, g', s, e);
  }

  lemma PlusMade(g: Graph, st: seq<nat>, g': Graph, s0: nat, s: nat, e: nat)
    requires WellFormed(g, st) && s != e && s0 != e && s0 != s
    requires Edited(g, g', {s0, s, e}, {End(st)})
    requires EpsState(g', s0, [Start(st)]) && EpsState(g', s, [Start(st), e]) && EpsState(g', e, [e])
    requires g'[End(st)] == Patch(g[End(st)], s)
    ensures PlusOf(g, st, g', s0, s, e)
    ensures GlueResult(g, g', st, [], [s0, s] + st + [e], Plus(LangOf(g, st)))
  {
    hide GlueResult, WellFormed, LangOf, Plus, Glued;
    EndsIn(g, st);
    assert End(st) in st;
    EditedGlued(g, g', {s0, s, e}, {End(st)}, st, s);
    PlusDone(g, st, g', s0, s, e);
  }
}
