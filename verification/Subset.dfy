/** Sets of states as states: what the subset construction keeps, for one automaton
    and for two automata read side by side. */
module Subset {
  import opened Graphs
  import opened Languages
  import opened Thompson
  import opened Chains
  import opened Glue

  /** ONE stands for makedfa_automat, the others for the operations of makedfa2_automat. */
  datatype Op = ONE | AND | AND_NOT

  /** The automata to be determinised; for ONE the second one has no states. */
  datatype Source = Source(g: Graph, op: Op, S1: set<nat>, S2: set<nat>, end1: nat, end2: nat)

  ghost predicate Proper(src: Source) {
    var S1, S2 := src.S1, src.S2;
    && Closed(src.g, S1) && Closed(src.g, S2) && S1 !! S2
    && src.end1 in S1 && (src.op == ONE || src.end2 in S2)
  }

  /** From some state of Q the word w leads to e. */
  ghost predicate SetReads(g: Graph, Q: set<nat>, w: Word, e: nat) {
    exists p :: p in Q && Reads(g, p, w, e)
  }

  ghost predicate EpsClosed(g: Graph, Q: set<nat>) {
    forall p, q :: p in Q && Eps(g, p, q) ==> q in Q
  }

  /** C is Q with everything that empty transitions lead to. */
  ghost predicate IsClosure(g: Graph, Q: set<nat>, C: set<nat>) {
    Q <= C && EpsClosed(g, C) && forall q :: q in C ==> SetReads(g, Q, [], q)
  }

  /** T holds the targets of the transitions from Q on c. */
  ghost predicate IsStep(g: Graph, Q: set<nat>, c: Char32, T: set<nat>) {
    forall q :: q in T <==> exists p :: p in Q && Chr(g, p, c, q)
  }

  ghost predicate Accepts(src: Source, Q: set<nat>, w: Word) {
    match src.op
    case ONE => SetReads(src.g, Q, w, src.end1)
    case AND => SetReads(src.g, Q, w, src.end1) && SetReads(src.g, Q, w, src.end2)
    case AND_NOT => SetReads(src.g, Q, w, src.end1) && !SetReads(src.g, Q, w, src.end2)
  }

  /** Q contains the end states it needs in order to accept. */
  predicate IsEnd(src: Source, Q: set<nat>) {
    match src.op
    case ONE => src.end1 in Q
    case AND => src.end1 in Q && src.end2 in Q
    case AND_NOT => src.end1 in Q && src.end2 !in Q
  }

  /** Q contains states of the automata without which it cannot accept. */
  ghost predicate Useful(src: Source, Q: set<nat>) {
    && (src.op != ONE ==> exists p :: p in Q && p in src.S1)
    && (src.op == AND ==> exists p :: p in Q && p in src.S2)
  }

  /** On c, Q leads to the set C. */
  ghost predicate LeadsTo(src: Source, Q: set<nat>, c: Char32, C: set<nat>) {
    exists T :: IsStep(src.g, Q, c, T) && T != {} && IsClosure(src.g, T, C)
  }

  /** On c, Q leads nowhere, or to a set that cannot accept. */
  ghost predicate Dead(src: Source, Q: set<nat>, c: Char32) {
    IsStep(src.g, Q, c, {}) || exists C :: LeadsTo(src, Q, c, C) && !Useful(src, C)
  }

  /** Q accepts the empty word and nothing else. */
  ghost predicate Final(src: Source, Q: set<nat>) {
    IsEnd(src, Q) && forall c: Char32 :: Dead(src, Q, c)
  }

  lemma ClosureReads(g: Graph, Q: set<nat>, C: set<nat>, w: Word, e: nat)
    requires IsClosure(g, Q, C)
    ensures SetReads(g, C, w, e) <==> SetReads(g, Q, w, e)
  {
    hide Reads, EpsClosed;
    if SetReads(g, C, w, e) {
      var p :| p in C && Reads(g, p, w, e);
      var q :| q in Q && Reads(g, q, [], p);
      ReadsConcat(g, q, [], p, w, e);
      assert [] + w == w;
    }
  }

  lemma ClosureUnique(g: Graph, Q: set<nat>, C: set<nat>, D: set<nat>)
    requires IsClosure(g, Q, C) && IsClosure(g, Q, D)
    ensures C == D
  {
    ClosureWithin(g, Q, C, D);
    ClosureWithin(g, Q, D, C);
  }

  lemma ClosureWithin(g: Graph, Q: set<nat>, C: set<nat>, D: set<nat>)
    requires IsClosure(g, Q, C) && Q <= D && EpsClosed(g, D)
    ensures C <= D
  {
    forall q | q in C ensures q in D {
      var p :| p in Q && Reads(g, p, [], q);
      var n: nat :| Go(g, p, [], q, n);
      GoInClosed(g, D, p, q, n);
    }
  }

  lemma {:induction false} GoInClosed(g: Graph, Q: set<nat>, p: nat, q: nat, n: nat)
    requires EpsClosed(g, Q) && p in Q && Go(g, p, [], q, n)
    ensures q in Q
    decreases n
  {
    if n > 0 {
      var r :| Eps(g, p, r) && Go(g, r, [], q, n - 1);
      GoInClosed(g, Q, r, q, n - 1);
    }
  }

  lemma ClosedNothing(g: Graph, Q: set<nat>, e: nat)
    requires EpsClosed(g, Q)
    ensures SetReads(g, Q, [], e) <==> e in Q
  {
    if SetReads(g, Q, [], e) {
      var p :| p in Q && Reads(g, p, [], e);
      var n: nat :| Go(g, p, [], e, n);
      GoInClosed(g, Q, p, e, n);
    }
    if e in Q { ReadsNothing(g, e); }
  }

  /** A path that reads a character takes it from a state of the closed set. */
  lemma {:induction false} GoFromClosed(g: Graph, Q: set<nat>, p: nat, w: Word, e: nat, n: nat) returns (q: nat, r: nat)
    requires EpsClosed(g, Q) && p in Q && w != [] && Go(g, p, w, e, n)
    ensures q in Q && Chr(g, q, w[0], r) && Reads(g, r, w[1..], e)
    decreases n
  {
    if x :| Eps(g, p, x) && Go(g, x, w, e, n - 1) {
      q, r := GoFromClosed(g, Q, x, w, e, n - 1);
    } else {
      q := p;
      r :| Chr(g, p, w[0], r) && Go(g, r, w[1..], e, n - 1);
    }
  }

  lemma StepReads(g: Graph, Q: set<nat>, T: set<nat>, w: Word, e: nat)
    requires EpsClosed(g, Q) && w != [] && IsStep(g, Q, w[0], T)
    ensures SetReads(g, Q, w, e) <==> SetReads(g, T, w[1..], e)
  {
    if SetReads(g, Q, w, e) {
      var p :| p in Q && Reads(g, p, w, e);
      var n: nat :| Go(g, p, w, e, n);
      var q, r := GoFromClosed(g, Q, p, w, e, n);
      assert r in T;
    }
    if SetReads(g, T, w[1..], e) {
      var r :| r in T && Reads(g, r, w[1..], e);
      var q :| q in Q && Chr(g, q, w[0], r);
      ChrThenReads(g, q, r, w, e);
    }
  }

  lemma AcceptsNothing(src: Source, Q: set<nat>)
    requires EpsClosed(src.g, Q)
    ensures Accepts(src, Q, []) <==> IsEnd(src, Q)
  {
    ClosedNothing(src.g, Q, src.end1);
    ClosedNothing(src.g, Q, src.end2);
  }

  lemma AcceptsStep(src: Source, Q: set<nat>, w: Word, C: set<nat>)
    requires EpsClosed(src.g, Q) && w != [] && LeadsTo(src, Q, w[0], C)
    ensures Accepts(src, Q, w) <==> Accepts(src, C, w[1..])
  {
    hide Reads, EpsClosed, IsStep, IsClosure, SetReads;
    var T: set<nat> :| IsStep(src.g, Q, w[0], T) && T != {} && IsClosure(src.g, T, C);
    StepReads(src.g, Q, T, w, src.end1);
    StepReads(src.g, Q, T, w, src.end2);
    ClosureReads(src.g, T, C, w[1..], src.end1);
    ClosureReads(src.g, T, C, w[1..], src.end2);
  }

  /** Pruning is safe: what the pruned set would have accepted is nothing. */
  lemma UselessRejects(src: Source, Q: set<nat>, w: Word)
    requires Proper(src) && Q <= src.S1 + src.S2 && !Useful(src, Q)
    ensures !Accepts(src, Q, w)
  {
    if Accepts(src, Q, w) {
      var p :| p in Q && Reads(src.g, p, w, src.end1);
      var n: nat :| Go(src.g, p, w, src.end1, n);
      if p in src.S2 { GoStays(src.g, src.S2, p, w, src.end1, n); }
      if src.op == AND {
        var q :| q in Q && Reads(src.g, q, w, src.end2);
        var m: nat :| Go(src.g, q, w, src.end2, m);
        if q in src.S1 { GoStays(src.g, src.S1, q, w, src.end2, m); }
      }
    }
  }

  lemma StepWithin(src: Source, Q: set<nat>, c: Char32, C: set<nat>)
    requires Proper(src) && Q <= src.S1 + src.S2 && LeadsTo(src, Q, c, C)
    ensures C <= src.S1 + src.S2 && C != {} && EpsClosed(src.g, C)
  {
    hide Reads, SetReads;
    var S := src.S1 + src.S2;
    var T: set<nat> :| IsStep(src.g, Q, c, T) && T != {} && IsClosure(src.g, T, C);
    StaysInside(src, Q, c, T);
    hide IsStep, Proper;
    ClosureWithin(src.g, T, C, S);
  }

  lemma StaysInside(src: Source, Q: set<nat>, c: Char32, T: set<nat>)
    requires Proper(src) && Q <= src.S1 + src.S2 && IsStep(src.g, Q, c, T)
    ensures T <= src.S1 + src.S2 && EpsClosed(src.g, src.S1 + src.S2)
  {
    forall q | q in T ensures q in src.S1 + src.S2 {
      var p :| p in Q && Chr(src.g, p, c, q);
      var t :| t in src.g[p].ranges && Graphs.Hit(t, c) && t.target == q;
    }
  }

  lemma DeadRejects(src: Source, Q: set<nat>, w: Word)
    requires Proper(src) && Q <= src.S1 + src.S2 && EpsClosed(src.g, Q) && w != [] && Dead(src, Q, w[0])
    ensures !Accepts(src, Q, w)
  {
    if C :| LeadsTo(src, Q, w[0], C) && !Useful(src, C) {
      AcceptsStep(src, Q, w, C);
      StepWithin(src, Q, w[0], C);
      UselessRejects(src, C, w[1..]);
    } else {
      StepReads(src.g, Q, {}, w, src.end1);
    }
  }

  type Subsets = map<nat, set<nat>>

  /** No transition overlaps another, and they are in ascending order. */
  ghost predicate RangesSorted(ts: seq<Trans>) {
    && (forall i :: 0 <= i < |ts| ==> ts[i].from <= ts[i].to)
    && (forall i, j :: 0 <= i < j < |ts| ==> ts[i].to < ts[j].from)
  }

  /** A transition starts right behind the one before it only if it leads elsewhere, or both lead to this end state. */
  ghost predicate Separate(ts: seq<Trans>, end: nat) {
    forall i :: 0 <= i < |ts| - 1 && ts[i].to + 1 == ts[i + 1].from && ts[i].target == ts[i + 1].target ==>
      ts[i].target == end
  }

  /** The sizes of the range_transition_t nodes add up to the number of transitions. */
  ghost predicate Chunked(n: Node) {
    (forall i :: 0 <= i < |n.chunks| ==> n.chunks[i] > 0) && Sum(n.chunks) == |n.ranges|
  }

  predicate Sends(ts: seq<Trans>, c: Char32, q: nat) {
    exists t :: t in ts && Hit(t, c) && t.target == q
  }

  /** The state q of the new automaton stands for the set that Q leads to on c. */
  ghost predicate Stands(src: Source, Q: set<nat>, c: Char32, q: nat, end: nat, sub: Subsets) {
    exists C :: LeadsTo(src, Q, c, C) && if q == end then Final(src, C) else q in sub && sub[q] == C
  }

  /** The node n does what the set Q does. */
  ghost predicate NodeFor(src: Source, n: Node, Q: set<nat>, end: nat, sub: Subsets) {
    var ts := n.ranges;
    && Q <= src.S1 + src.S2 && EpsClosed(src.g, Q)
    && n.empty == (if IsEnd(src, Q) then [end] else [])
    && RangesSorted(ts) && Chunked(n) && Separate(ts, end)
    && (forall c: Char32, q :: Sends(ts, c, q) ==> Stands(src, Q, c, q, end, sub))
    && (forall c: Char32 :: (forall q :: !Sends(ts, c, q)) ==> Dead(src, Q, c))
  }

  /** The state can do more than accept the empty word. */
  predicate NotOnlyEnd(n: Node) {
    n.empty != [] ==> n.ranges != []
  }

  /** The automaton st' has one state for every set in sub, and an end state. */
  ghost predicate SubsetDfa(src: Source, Q0: set<nat>, g': Graph, st': seq<nat>, sub: Subsets) {
    && WellFormed(g', st') && Proper(src)
    && var start, end := Start(st'), End(st');
       && EpsState(g', end, [end]) && Chunked(g'[end])
       && sub.Keys == States(st') - {end} && start in sub && sub[start] == Q0
       && (forall s :: s in sub ==> NodeFor(src, g'[s], sub[s], end, sub))
       && (forall s, t :: s in sub && t in sub && s != t ==> sub[s] != sub[t])
       && (forall s :: s in sub && s != start ==> NotOnlyEnd(g'[s]) && Useful(src, sub[s]))
       && (forall s :: s in sub ==> exists u: Word :: Reads(g', start, u, s))
  }

  /** A transition leads to a state that accepts what is left to be accepted. */
  lemma SubsetStep(src: Source, n: Node, Q: set<nat>, end: nat, sub: Subsets, w: Word, q: nat)
    requires Proper(src) && NodeFor(src, n, Q, end, sub) && w != [] && Sends(n.ranges, w[0], q)
    ensures q == end ==> (Accepts(src, Q, w) <==> w[1..] == [])
    ensures q != end ==> q in sub && (Accepts(src, Q, w) <==> Accepts(src, sub[q], w[1..]))
  {
    assert Stands(src, Q, w[0], q, end, sub);
    hide LeadsTo, Final, Accepts, Proper, Dead;
    var C :| LeadsTo(src, Q, w[0], C) && if q == end then Final(src, C) else q in sub && sub[q] == C;
    AcceptsStep(src, Q, w, C);
    if q == end {
      FinalReads(src, Q, w[0], C, w[1..]);
    }
  }

  /** Every state of the new automaton accepts what its set accepts. */
  lemma {:induction false} SubsetReads(src: Source, Q0: set<nat>, g': Graph, st': seq<nat>, sub: Subsets, s: nat,
                                       w: Word)
    requires SubsetDfa(src, Q0, g', st', sub) && s in sub
    ensures Reads(g', s, w, End(st')) <==> Accepts(src, sub[s], w)
    decreases |w|
  {
    var e := End(st');
    AcceptsNothing(src, sub[s]);
    if Reads(g', s, w, e) {
      var n: nat :| Go(g', s, w, e, n);
      SubsetGo(src, Q0, g', st', sub, s, w, n);
    }
    if w == [] {
      if IsEnd(src, sub[s]) { ReadsEps(g', s, e); }
    } else if q :| Sends(g'[s].ranges, w[0], q) {
      assert Chr(g', s, w[0], q);
      SubsetStep(src, g'[s], sub[s], e, sub, w, q);
      if q == e {
        if w[1..] == [] { ReadsNothing(g', e); }
      } else {
        SubsetReads(src, Q0, g', st', sub, q, w[1..]);
      }
      if Accepts(src, sub[s], w) { ChrThenReads(g', s, q, w, e); }
    } else {
      DeadRejects(src, sub[s], w);
    }
  }

  lemma FinalReads(src: Source, Q: set<nat>, c: Char32, C: set<nat>, w: Word)
    requires Proper(src) && Q <= src.S1 + src.S2 && LeadsTo(src, Q, c, C) && Final(src, C)
    ensures Accepts(src, C, w) <==> w == []
  {
    hide LeadsTo, Dead, Accepts;
    StepWithin(src, Q, c, C);
    AcceptsNothing(src, C);
    if w != [] { DeadRejects(src, C, w); }
  }

  /** The first transition of a path from s to the end state e. */
  lemma FirstMove(g: Graph, s: nat, e: nat, w: Word, n: nat) returns (q: nat)
    requires EpsState(g, e, [e]) && s in g && s != e && (g[s].empty == [] || g[s].empty == [e]) && Go(g, s, w, e, n)
    ensures n > 0
    ensures w == [] ==> g[s].empty == [e]
    ensures w != [] ==> Sends(g[s].ranges, w[0], q) && Go(g, q, w[1..], e, n - 1)
    ensures w != [] && q == e ==> w[1..] == []
  {
    q := 0;
    if r :| Eps(g, s, r) && Go(g, r, w, e, n - 1) {
      LoopOnly(g, e, w, e, n - 1);
    } else {
      q :| Chr(g, s, w[0], q) && Go(g, q, w[1..], e, n - 1);
      if q == e { LoopOnly(g, e, w[1..], e, n - 1); }
    }
  }

  lemma {:induction false} SubsetGo(src: Source, Q0: set<nat>, g': Graph, st': seq<nat>, sub: Subsets, s: nat, w: Word,
                                    n: nat)
    requires SubsetDfa(src, Q0, g', st', sub) && s in sub && Go(g', s, w, End(st'), n)
    ensures Accepts(src, sub[s], w)
    decreases n
  {
    hide SubsetDfa, Accepts, Proper, Reads, NodeFor, IsEnd, SetReads;
    SubsetAt(src, Q0, g', st', sub, s);
    var e := End(st');
    var q := FirstMove(g', s, e, w, n);
    if w != [] {
      SubsetStep(src, g'[s], sub[s], e, sub, w, q);
      if q != e { SubsetGo(src, Q0, g', st', sub, q, w[1..], n - 1); }
    }
  }

  lemma SubsetAt(src: Source, Q0: set<nat>, g': Graph, st': seq<nat>, sub: Subsets, s: nat)
    requires SubsetDfa(src, Q0, g', st', sub) && s in sub
    ensures st' != [] && Proper(src)
    ensures var e := End(st');
      && EpsState(g', e, [e]) && s in g' && s != e && NodeFor(src, g'[s], sub[s], e, sub)
      && g'[s].empty == (if Accepts(src, sub[s], []) then [e] else [])
  {
    assert s in States(st');
    AcceptsNothing(src, sub[s]);
  }

  /** The automata st1 and, unless op is ONE, st2. */
  function SourceOf(g: Graph, op: Op, st1: seq<nat>, st2: seq<nat>): Source
    requires st1 != []
  {
    Source(g, op, States(st1), States(st2), End(st1), if st2 == [] then 0 else End(st2))
  }

  /** The states to start from. */
  function Starts(op: Op, st1: seq<nat>, st2: seq<nat>): set<nat>
    requires st1 != []
  {
    if op == ONE || st2 == [] then {Start(st1)} else {Start(st1), Start(st2)}
  }

  ghost predicate Operands(g: Graph, op: Op, st1: seq<nat>, st2: seq<nat>) {
    && WellFormed(g, st1) && Disjoint(st1, st2)
    && if op == ONE then st2 == [] else WellFormed(g, st2)
  }

  ghost function OpLang(g: Graph, op: Op, st1: seq<nat>, st2: seq<nat>): Lang
    requires st1 != [] && (op != ONE ==> st2 != [])
  {
    match op
    case ONE => LangOf(g, st1)
    case AND => LangOf(g, st1) * LangOf(g, st2)
    case AND_NOT => LangOf(g, st1) - LangOf(g, st2)
  }

  lemma OperandsProper(g: Graph, op: Op, st1: seq<nat>, st2: seq<nat>)
    requires Operands(g, op, st1, st2)
    ensures Proper(SourceOf(g, op, st1, st2))
  {
    assert End(st1) in st1;
    assert op != ONE ==> End(st2) in st2;
    assert op == ONE ==> States(st2) == {};
  }

  /** Only the own start state leads to the end state of an automaton. */
  lemma StartReads(g: Graph, S1: set<nat>, S2: set<nat>, a: nat, b: nat, w: Word, e: nat)
    requires Closed(g, S2) && S1 !! S2 && b in S2 && e in S1
    ensures SetReads(g, {a, b}, w, e) <==> Reads(g, a, w, e)
  {
    if Reads(g, b, w, e) {
      var n: nat :| Go(g, b, w, e, n);
      GoStays(g, S2, b, w, e, n);
    }
    assert Reads(g, a, w, e) ==> a in {a, b};
  }

  lemma StartsRead(g: Graph, op: Op, st1: seq<nat>, st2: seq<nat>, w: Word)
    requires Operands(g, op, st1, st2)
    ensures SetReads(g, Starts(op, st1, st2), w, End(st1)) <==> Reads(g, Start(st1), w, End(st1))
    ensures op != ONE ==> (SetReads(g, Starts(op, st1, st2), w, End(st2)) <==> Reads(g, Start(st2), w, End(st2)))
  {
    hide Reads;
    OperandsProper(g, op, st1, st2);
    if op == ONE {
      assert Reads(g, Start(st1), w, End(st1)) ==> Start(st1) in Starts(op, st1, st2);
    } else {
      var a, b := Start(st1), Start(st2);
      assert a in st1 && b in st2;
      StartReads(g, States(st1), States(st2), a, b, w, End(st1));
      StartReads(g, States(st2), States(st1), b, a, w, End(st2));
      assert {a, b} == {b, a} == Starts(op, st1, st2);
    }
  }

  /** The subset construction preserves the language, or combines the two languages. */
  lemma SubsetLang(g: Graph, op: Op, st1: seq<nat>, st2: seq<nat>, Q0: set<nat>, g': Graph, st': seq<nat>, sub: Subsets)
    requires Operands(g, op, st1, st2)
    requires SubsetDfa(SourceOf(g, op, st1, st2), Q0, g', st', sub) && IsClosure(g, Starts(op, st1, st2), Q0)
    ensures st' != [] && LangOf(g', st') == OpLang(g, op, st1, st2)
  {
    hide Reads, SetReads, Operands, IsClosure;
    var src := SourceOf(g, op, st1, st2);
    forall w: Word ensures w in LangOf(g', st') <==> w in OpLang(g, op, st1, st2) {
      SubsetReads(src, Q0, g', st', sub, Start(st'), w);
      StartsRead(g, op, st1, st2, w);
      ClosureReads(g, Starts(op, st1, st2), Q0, w, src.end1);
      ClosureReads(g, Starts(op, st1, st2), Q0, w, src.end2);
    }
  }

  /** The form of a deterministic automaton: only the empty transition to the end state, and on every character at
      most one transition; neighbouring transitions to the same state, except to the end state, are one. */
  ghost predicate Deterministic(g: Graph, st: seq<nat>) {
    && WellFormed(g, st) && |st| >= 2
    && var end := End(st);
       && EpsState(g, end, [end]) && Chunked(g[end])
       && forall s :: s in st && s != end ==> DfaNode(g, s, end)
  }

  ghost predicate DfaNode(g: Graph, s: nat, end: nat) {
    && s in g && (g[s].empty == [] || g[s].empty == [end])
    && RangesSorted(g[s].ranges) && Chunked(g[s]) && Separate(g[s].ranges, end)
  }

  lemma SubsetDeterministic(src: Source, Q0: set<nat>, g': Graph, st': seq<nat>, sub: Subsets)
    requires SubsetDfa(src, Q0, g', st', sub)
    ensures Deterministic(g', st')
  {
    var e := End(st');
    forall s | s in st' && s != e ensures DfaNode(g', s, e) {
      assert s in States(st');
      SubsetAt(src, Q0, g', st', sub, s);
    }
  }

  lemma DeterministicUpright(g: Graph, st: seq<nat>)
    requires Deterministic(g, st)
    ensures Upright(g, st)
  {
    hide WellFormed, Chunked;
    forall s | s in st ensures UprightAt(g, s) {
      assert s == End(st) || DfaNode(g, s, End(st));
    }
  }

  lemma DeterministicAcyclic(g: Graph, st: seq<nat>)
    requires Deterministic(g, st)
    ensures Acyclic(g, st)
  {
    hide WellFormed, Chunked, RangesSorted;
    var e := End(st);
    var f: Rank := map s | s in st :: if s == e then 0 else 1;
    var b: Rank := map[e := 1];
    forall s | s in st && Single(g, s) ensures Of(f, g[s].empty[0]) < Of(f, s) {
      assert s == e || DfaNode(g, s, e);
    }
    assert RankedBy(g, st, f);
    forall s, t | t in st && t != Start(st) && OnlyFrom(g, st, s, t) ensures Of(b, s) < Of(b, t) {
      assert t in Inside(g, st, s);
      assert s == e || DfaNode(g, s, e);
    }
    assert BackRankedBy(g, st, b);
  }
}
