/** Which sets of states the subset construction visits, and when one of them holds a range
    from > to, on which it fails. */
module Visiting {
  import opened Graphs
  import opened Languages
  import opened Thompson
  import opened Glue
  import opened Profiles
  import opened Subset

  /** The word u leads from Q to C; sets that cannot accept are not followed. */
  ghost predicate Visits(src: Source, Q: set<nat>, u: Word, C: set<nat>)
    decreases |u|
  {
    if u == [] then C == Q
    else exists B :: LeadsTo(src, Q, u[0], B) && Useful(src, B) && Visits(src, B, u[1..], C)
  }

  ghost predicate InvertedIn(g: Graph, C: set<nat>) {
    exists p :: p in C && HasInverted(g, p)
  }

  /** From Q a set with a range from > to is visited. */
  ghost predicate VisitsInverted(src: Source, Q: set<nat>) {
    exists u: Word, C :: Visits(src, Q, u, C) && InvertedIn(src.g, C)
  }

  /** What a character leads to is determined. */
  lemma LeadsToUnique(src: Source, Q: set<nat>, c: Char32, C: set<nat>, D: set<nat>)
    requires LeadsTo(src, Q, c, C) && LeadsTo(src, Q, c, D)
    ensures C == D
  {
    hide IsClosure;
    var T: set<nat> :| IsStep(src.g, Q, c, T) && T != {} && IsClosure(src.g, T, C);
    var U: set<nat> :| IsStep(src.g, Q, c, U) && U != {} && IsClosure(src.g, U, D);
    assert T == U;
    ClosureUnique(src.g, T, C, D);
  }

  /** A dead character leads to no set that is followed. */
  lemma DeadEnds(src: Source, Q: set<nat>, c: Char32, C: set<nat>)
    requires Dead(src, Q, c) && LeadsTo(src, Q, c, C)
    ensures !Useful(src, C)
  {
    hide IsClosure, Useful;
    if D :| LeadsTo(src, Q, c, D) && !Useful(src, D) {
      LeadsToUnique(src, Q, c, C, D);
    }
  }

  lemma {:induction false} VisitsMore(src: Source, Q: set<nat>, u: Word, B: set<nat>, c: Char32, C: set<nat>)
    requires Visits(src, Q, u, B) && LeadsTo(src, B, c, C) && Useful(src, C)
    ensures Visits(src, Q, u + [c], C)
    decreases |u|
  {
    hide LeadsTo, Useful;
    if u == [] {
      assert Visits(src, C, [], C);
      assert ([] + [c])[1..] == [];
    } else {
      var A :| LeadsTo(src, Q, u[0], A) && Useful(src, A) && Visits(src, A, u[1..], B);
      VisitsMore(src, A, u[1..], B, c, C);
      assert (u + [c])[1..] == u[1..] + [c];
    }
  }

  /** The set that is visited holds all states the word leads to. */
  lemma {:induction false} VisitsReads(src: Source, Q: set<nat>, u: Word, C: set<nat>, p: nat)
    requires Proper(src) && Q <= src.S1 + src.S2 && EpsClosed(src.g, Q) && Visits(src, Q, u, C)
    ensures p in C <==> SetReads(src.g, Q, u, p)
    decreases |u|
  {
    if u == [] {
      ClosedNothing(src.g, Q, p);
    } else {
      hide Proper, Useful, EpsClosed;
      var B :| LeadsTo(src, Q, u[0], B) && Useful(src, B) && Visits(src, B, u[1..], C);
      StepWithin(src, Q, u[0], B);
      VisitsReads(src, B, u[1..], C, p);
      LeadsReads(src, Q, u, B, p);
    }
  }

  lemma LeadsReads(src: Source, Q: set<nat>, u: Word, B: set<nat>, p: nat)
    requires u != [] && EpsClosed(src.g, Q) && LeadsTo(src, Q, u[0], B)
    ensures SetReads(src.g, Q, u, p) <==> SetReads(src.g, B, u[1..], p)
  {
    hide EpsClosed, IsStep, IsClosure, SetReads;
    var T: set<nat> :| IsStep(src.g, Q, u[0], T) && T != {} && IsClosure(src.g, T, B);
    StepReads(src.g, Q, T, u, p);
    ClosureReads(src.g, T, B, u[1..], p);
  }

  /** After u there is a state of every automaton without which nothing is accepted. */
  ghost predicate UsefulAfter(src: Source, Q: set<nat>, u: Word) {
    && (src.op != ONE ==> exists x :: x in src.S1 && SetReads(src.g, Q, u, x))
    && (src.op == AND ==> exists x :: x in src.S2 && SetReads(src.g, Q, u, x))
  }

  lemma SourceOfState(g: Graph, S1: set<nat>, S2: set<nat>, B: set<nat>, u: Word, x: nat)
    requires Closed(g, S2) && S1 !! S2 && B <= S1 + S2 && x in S1 && SetReads(g, B, u, x)
    ensures exists p :: p in B && p in S1
  {
    var p :| p in B && Reads(g, p, u, x);
    var n: nat :| Go(g, p, u, x, n);
    if p in S2 { GoStays(g, S2, p, u, x, n); }
  }

  /** A set is followed if something useful comes later. */
  lemma UsefulEarlier(src: Source, B: set<nat>, u: Word)
    requires Proper(src) && B <= src.S1 + src.S2 && UsefulAfter(src, B, u)
    ensures Useful(src, B)
  {
    hide SetReads;
    if src.op != ONE {
      var x :| x in src.S1 && SetReads(src.g, B, u, x);
      SourceOfState(src.g, src.S1, src.S2, B, u, x);
    }
    if src.op == AND {
      var x :| x in src.S2 && SetReads(src.g, B, u, x);
      SourceOfState(src.g, src.S2, src.S1, B, u, x);
    }
  }

  /** Where the character leads to. */
  lemma LeadsSomewhere(src: Source, Q: set<nat>, u: Word, p: nat) returns (B: set<nat>)
    requires Proper(src) && Q <= src.S1 + src.S2 && EpsClosed(src.g, Q) && u != [] && SetReads(src.g, Q, u, p)
    ensures LeadsTo(src, Q, u[0], B)
  {
    hide Proper, EpsClosed, Reads, Chr, IsStep, IsClosure;
    var T := StepOf(src, Q, u[0]);
    var z := StepTaken(src.g, Q, u, p, T);
    StaysInside(src, Q, u[0], T);
    B := ClosureBuilt(src, T);
  }

  lemma StepOf(src: Source, Q: set<nat>, c: Char32) returns (T: set<nat>)
    requires Proper(src) && Q <= src.S1 + src.S2
    ensures IsStep(src.g, Q, c, T)
  {
    forall q, x | x in Q && Chr(src.g, x, c, q) ensures q in src.S1 + src.S2 { TargetInside(src, x, c, q); }
    T := set q | q in src.S1 + src.S2 && exists x :: x in Q && Chr(src.g, x, c, q);
  }

  lemma StepTaken(g: Graph, Q: set<nat>, u: Word, p: nat, T: set<nat>) returns (z: nat)
    requires EpsClosed(g, Q) && u != [] && SetReads(g, Q, u, p) && IsStep(g, Q, u[0], T)
    ensures z in T
  {
    var x :| x in Q && Reads(g, x, u, p);
    var n: nat :| Go(g, x, u, p, n);
    var y;
    y, z := GoFromClosed(g, Q, x, u, p, n);
  }

  lemma TargetInside(src: Source, x: nat, c: Char32, q: nat)
    requires Proper(src) && x in src.S1 + src.S2 && Chr(src.g, x, c, q)
    ensures q in src.S1 + src.S2
  {
  }

  lemma ClosureBuilt(src: Source, T: set<nat>) returns (B: set<nat>)
    requires T <= src.S1 + src.S2 && EpsClosed(src.g, src.S1 + src.S2)
    ensures IsClosure(src.g, T, B)
  {
    hide Reads;
    var g := src.g;
    B := set q | q in src.S1 + src.S2 && SetReads(g, T, [], q);
    forall q | q in T ensures q in B { ReadsNothing(g, q); }
    forall q, r | q in B && Eps(g, q, r) ensures r in B {
      var p :| p in T && Reads(g, p, [], q);
      ReadsEps(g, q, r);
      ReadsConcat(g, p, [], q, [], r);
      var none: Word := [];
      assert none + none == none;
    }
  }

  /** Every state that a word leads to is in a visited set, unless the word is pruned. */
  lemma {:induction false} ReadsVisits(src: Source, Q: set<nat>, u: Word, p: nat) returns (C: set<nat>)
    requires Proper(src) && Q <= src.S1 + src.S2 && EpsClosed(src.g, Q) && SetReads(src.g, Q, u, p)
    requires u == [] || UsefulAfter(src, Q, u)
    ensures Visits(src, Q, u, C) && p in C
    decreases |u|
  {
    hide Proper, EpsClosed, LeadsTo, SetReads, Useful, UsefulAfter;
    if u == [] {
      ClosedNothing(src.g, Q, p);
      C := Q;
    } else {
      var B := LeadsSomewhere(src, Q, u, p);
      StepWithin(src, Q, u[0], B);
      LeadsReads(src, Q, u, B, p);
      UsefulRest(src, Q, u, B);
      UsefulEarlier(src, B, u[1..]);
      C := ReadsVisits(src, B, u[1..], p);
      VisitsStep(src, Q, u, B, C);
    }
  }

  lemma VisitsStep(src: Source, Q: set<nat>, u: Word, B: set<nat>, C: set<nat>)
    requires u != [] && LeadsTo(src, Q, u[0], B) && Useful(src, B) && Visits(src, B, u[1..], C)
    ensures Visits(src, Q, u, C)
  {
    hide LeadsTo, Useful;
  }

  lemma UsefulRest(src: Source, Q: set<nat>, u: Word, B: set<nat>)
    requires u != [] && EpsClosed(src.g, Q) && LeadsTo(src, Q, u[0], B) && UsefulAfter(src, Q, u)
    ensures UsefulAfter(src, B, u[1..])
  {
    hide EpsClosed, LeadsTo, SetReads;
    if src.op != ONE {
      var x :| x in src.S1 && SetReads(src.g, Q, u, x);
      LeadsReads(src, Q, u, B, x);
    }
    if src.op == AND {
      var x :| x in src.S2 && SetReads(src.g, Q, u, x);
      LeadsReads(src, Q, u, B, x);
    }
  }

  /** A set that has been visited after some word is useful. */
  lemma {:induction false} VisitedUseful(src: Source, Q: set<nat>, u: Word, C: set<nat>)
    requires Visits(src, Q, u, C) && u != []
    ensures Useful(src, C)
    decreases |u|
  {
    hide LeadsTo, Useful;
    var B :| LeadsTo(src, Q, u[0], B) && Useful(src, B) && Visits(src, B, u[1..], C);
    if u[1..] != [] { VisitedUseful(src, B, u[1..], C); }
  }

  // ---- in terms of the automata

  /** u leads to the state p, which has a range from > to, and is not pruned. */
  ghost predicate InvertedAfter(g: Graph, op: Op, st1: seq<nat>, st2: seq<nat>, u: Word, p: nat)
    requires st1 != [] && (op != ONE ==> st2 != [])
  {
    && HasInverted(g, p) && (Reads(g, Start(st1), u, p) || (op != ONE && Reads(g, Start(st2), u, p)))
    && (u == [] || op == ONE || (GoesOn(g, st1, u) && (op == AND ==> GoesOn(g, st2, u))))
  }

  /** When makedfa_automat and makedfa2_automat fail. */
  ghost predicate MeetsInverted(g: Graph, op: Op, st1: seq<nat>, st2: seq<nat>)
    requires st1 != [] && (op != ONE ==> st2 != [])
  {
    exists u: Word, p: nat :: InvertedAfter(g, op, st1, st2, u, p)
  }

  lemma StartsIn(g: Graph, op: Op, st1: seq<nat>, st2: seq<nat>)
    requires Operands(g, op, st1, st2)
    ensures st1 != [] && (op != ONE ==> st2 != []) && Starts(op, st1, st2) <= States(st1) + States(st2)
    ensures Start(st1) in Starts(op, st1, st2) && (op != ONE ==> Start(st2) in Starts(op, st1, st2))
    ensures forall a :: a in Starts(op, st1, st2) ==> a == Start(st1) || (op != ONE && a == Start(st2))
  {
  }

  /** From the start states, read in terms of one automaton. */
  lemma ReadsIn(g: Graph, op: Op, st1: seq<nat>, st2: seq<nat>, u: Word)
    requires Operands(g, op, st1, st2)
    ensures st1 != [] && (op != ONE ==> st2 != [])
    ensures (exists x :: x in States(st1) && SetReads(g, Starts(op, st1, st2), u, x)) <==> GoesOn(g, st1, u)
    ensures op != ONE ==>
      ((exists x :: x in States(st2) && SetReads(g, Starts(op, st1, st2), u, x)) <==> GoesOn(g, st2, u))
  {
    hide Reads;
    StartsIn(g, op, st1, st2);
    OperandsProper(g, op, st1, st2);
    var Q := Starts(op, st1, st2);
    forall x | x in States(st1) ensures SetReads(g, Q, u, x) <==> Reads(g, Start(st1), u, x) {
      ReadsOwn(g, op, st1, st2, u, x);
    }
    if op != ONE {
      forall x | x in States(st2) ensures SetReads(g, Q, u, x) <==> Reads(g, Start(st2), u, x) {
        ReadsOther(g, op, st1, st2, u, x);
      }
    }
  }

  lemma ReadsOwn(g: Graph, op: Op, st1: seq<nat>, st2: seq<nat>, u: Word, x: nat)
    requires Operands(g, op, st1, st2) && x in States(st1)
    ensures st1 != [] && (SetReads(g, Starts(op, st1, st2), u, x) <==> Reads(g, Start(st1), u, x))
  {
    hide Reads;
    StartsIn(g, op, st1, st2);
    OperandsProper(g, op, st1, st2);
    if op != ONE {
      assert Start(st2) in States(st2);
      StartReads(g, States(st1), States(st2), Start(st1), Start(st2), u, x);
    }
  }

  lemma ReadsOther(g: Graph, op: Op, st1: seq<nat>, st2: seq<nat>, u: Word, x: nat)
    requires Operands(g, op, st1, st2) && x in States(st2) && op != ONE
    ensures st1 != [] && st2 != [] && (SetReads(g, Starts(op, st1, st2), u, x) <==> Reads(g, Start(st2), u, x))
  {
    hide Reads;
    StartsIn(g, op, st1, st2);
    OperandsProper(g, op, st1, st2);
    assert Start(st1) in States(st1);
    StartReads(g, States(st2), States(st1), Start(st2), Start(st1), u, x);
    assert {Start(st2), Start(st1)} == Starts(op, st1, st2);
  }

  lemma UsefulGoesOn(g: Graph, op: Op, st1: seq<nat>, st2: seq<nat>, Q0: set<nat>, u: Word)
    requires Operands(g, op, st1, st2) && IsClosure(g, Starts(op, st1, st2), Q0) && st1 != []
    ensures op != ONE ==> st2 != []
    ensures UsefulAfter(SourceOf(g, op, st1, st2), Q0, u) <==>
      (op == ONE || (GoesOn(g, st1, u) && (op == AND ==> GoesOn(g, st2, u))))
  {
    hide IsClosure, SetReads, GoesOn, Operands;
    var src, Q := SourceOf(g, op, st1, st2), Starts(op, st1, st2);
    forall x ensures SetReads(g, Q0, u, x) <==> SetReads(g, Q, u, x) {
      ClosureReads(g, Q, Q0, u, x);
    }
    ReadsIn(g, op, st1, st2, u);
  }

  lemma StartReached(g: Graph, op: Op, st1: seq<nat>, st2: seq<nat>, Q0: set<nat>, u: Word, p: nat)
    requires Operands(g, op, st1, st2) && IsClosure(g, Starts(op, st1, st2), Q0)
    ensures st1 != [] && (op != ONE ==> st2 != [])
    ensures SetReads(g, Q0, u, p) <==> Reads(g, Start(st1), u, p) || (op != ONE && Reads(g, Start(st2), u, p))
  {
    hide IsClosure, Reads;
    StartsIn(g, op, st1, st2);
    ClosureReads(g, Starts(op, st1, st2), Q0, u, p);
  }

  /** The sets that are visited, in terms of the automata. */
  lemma VisitsMeets(g: Graph, op: Op, st1: seq<nat>, st2: seq<nat>, Q0: set<nat>)
    requires Operands(g, op, st1, st2) && IsClosure(g, Starts(op, st1, st2), Q0)
    requires Q0 <= States(st1) + States(st2) && EpsClosed(g, Q0)
    ensures st1 != [] && (op != ONE ==> st2 != [])
    ensures VisitsInverted(SourceOf(g, op, st1, st2), Q0) <==> MeetsInverted(g, op, st1, st2)
  {
    hide Operands, IsClosure, EpsClosed, Reads, SetReads, Visits, HasInverted, GoesOn, Proper, UsefulAfter;
    StartReached(g, op, st1, st2, Q0, [], 0);
    OperandsProper(g, op, st1, st2);
    var src := SourceOf(g, op, st1, st2);
    if VisitsInverted(src, Q0) {
      var u: Word, C :| Visits(src, Q0, u, C) && InvertedIn(g, C);
      var p :| p in C && HasInverted(g, p);
      VisitsReads(src, Q0, u, C, p);
      StartReached(g, op, st1, st2, Q0, u, p);
      UsefulGoesOn(g, op, st1, st2, Q0, u);
      if u != [] { UsefulVisited(src, Q0, u, C); }
      assert InvertedAfter(g, op, st1, st2, u, p);
    }
    if u: Word, p: nat :| InvertedAfter(g, op, st1, st2, u, p) {
      StartReached(g, op, st1, st2, Q0, u, p);
      UsefulGoesOn(g, op, st1, st2, Q0, u);
      var C := ReadsVisits(src, Q0, u, p);
      assert InvertedIn(g, C);
    }
  }

  lemma UsefulVisited(src: Source, Q0: set<nat>, u: Word, C: set<nat>)
    requires Proper(src) && Q0 <= src.S1 + src.S2 && EpsClosed(src.g, Q0) && Visits(src, Q0, u, C) && u != []
    ensures UsefulAfter(src, Q0, u)
  {
    hide Proper, EpsClosed, SetReads, Visits;
    VisitedUseful(src, Q0, u, C);
    forall x ensures x in C <==> SetReads(src.g, Q0, u, x) {
      VisitsReads(src, Q0, u, C, x);
    }
  }

  // ---- where words lead to in the new automaton

  /** The first character of a path in the new automaton. */
  lemma FirstChar(g: Graph, s: nat, e: nat, w: Word, x: nat, n: nat) returns (q: nat)
    requires EpsState(g, e, [e]) && s in g && s != e && (g[s].empty == [] || g[s].empty == [e]) && Go(g, s, w, x, n)
    requires w != []
    ensures n > 0 && Sends(g[s].ranges, w[0], q) && Go(g, q, w[1..], x, n - 1)
  {
    if r :| Eps(g, s, r) && Go(g, r, w, x, n - 1) {
      LoopOnly(g, e, w, x, n - 1);
    }
    q :| Chr(g, s, w[0], q) && Go(g, q, w[1..], x, n - 1);
  }

  lemma EndUseful(src: Source, Q: set<nat>)
    requires Proper(src) && IsEnd(src, Q)
    ensures Useful(src, Q)
  {
  }

  lemma StandsUseful(src: Source, Q0: set<nat>, g: Graph, st: seq<nat>, sub: Subsets, s: nat, c: Char32, q: nat)
    returns (C: set<nat>)
    requires SubsetDfa(src, Q0, g, st, sub) && Useful(src, Q0) && s in sub && s in g && Sends(g[s].ranges, c, q)
    ensures LeadsTo(src, sub[s], c, C) && Useful(src, C)
    ensures if q == End(st) then Final(src, C) else q in sub && sub[q] == C
  {
    hide LeadsTo, WellFormed, Dead, Reads, EpsClosed, RangesSorted, Chunked, Separate, Useful;
    assert Stands(src, sub[s], c, q, End(st), sub);
    C :| LeadsTo(src, sub[s], c, C) && if q == End(st) then Final(src, C) else q in sub && sub[q] == C;
    if q == End(st) { EndUseful(src, C); }
  }

  /** The words that lead somewhere from a state are those that are visited from its set. */
  lemma {:induction false} GoesVisits(src: Source, Q0: set<nat>, g: Graph, st: seq<nat>, sub: Subsets, s: nat, w: Word,
                                      x: nat, n: nat)
    returns (C: set<nat>)
    requires SubsetDfa(src, Q0, g, st, sub) && Useful(src, Q0) && s in sub && Go(g, s, w, x, n)
    ensures Visits(src, sub[s], w, C)
    decreases n
  {
    hide SubsetDfa, NodeFor, LeadsTo, Useful, Final;
    if w == [] {
      C := sub[s];
    } else {
      SubsetAt(src, Q0, g, st, sub, s);
      var e := End(st);
      var q := FirstChar(g, s, e, w, x, n);
      var B := StandsUseful(src, Q0, g, st, sub, s, w[0], q);
      if q == e {
        LoopOnly(g, e, w[1..], x, n - 1);
        assert Visits(src, B, w[1..], B);
        C := B;
      } else {
        C := GoesVisits(src, Q0, g, st, sub, q, w[1..], x, n - 1);
      }
      VisitsStep(src, sub[s], w, B, C);
    }
  }

  lemma Alive(src: Source, Q0: set<nat>, g: Graph, st: seq<nat>, sub: Subsets, s: nat, c: Char32, B: set<nat>)
    returns (q: nat)
    requires SubsetDfa(src, Q0, g, st, sub) && Useful(src, Q0) && s in sub
    requires LeadsTo(src, sub[s], c, B) && Useful(src, B)
    ensures st != [] && s in g && Chr(g, s, c, q)
    ensures if q == End(st) then Final(src, B) else q in sub && sub[q] == B
  {
    hide LeadsTo, WellFormed, Dead, Reads, EpsClosed, RangesSorted, Chunked, Separate, Useful, Final, Stands;
    SubsetAt(src, Q0, g, st, sub, s);
    if forall q :: !Sends(g[s].ranges, c, q) {
      DeadEnds(src, sub[s], c, B);
    }
    q :| Sends(g[s].ranges, c, q);
    var C := StandsUseful(src, Q0, g, st, sub, s, c, q);
    LeadsToUnique(src, sub[s], c, B, C);
  }

  lemma FinalStops(src: Source, Q: set<nat>, w: Word, C: set<nat>)
    requires Final(src, Q) && Visits(src, Q, w, C)
    ensures w == []
  {
    hide LeadsTo, Useful, Dead;
    if w != [] {
      var B :| LeadsTo(src, Q, w[0], B) && Useful(src, B) && Visits(src, B, w[1..], C);
      DeadEnds(src, Q, w[0], B);
    }
  }

  lemma {:induction false} VisitsGoes(src: Source, Q0: set<nat>, g: Graph, st: seq<nat>, sub: Subsets, s: nat, w: Word,
                                      C: set<nat>)
    returns (x: nat)
    requires SubsetDfa(src, Q0, g, st, sub) && Useful(src, Q0) && s in sub && Visits(src, sub[s], w, C)
    ensures x in st && Reads(g, s, w, x)
    decreases |w|
  {
    hide SubsetDfa, NodeFor, LeadsTo, Useful, Final, Reads;
    SubsetStates(src, Q0, g, st, sub, s);
    if w == [] {
      x := s;
      ReadsNothing(g, s);
    } else {
      var B :| LeadsTo(src, sub[s], w[0], B) && Useful(src, B) && Visits(src, B, w[1..], C);
      var q := Alive(src, Q0, g, st, sub, s, w[0], B);
      if q == End(st) {
        FinalStops(src, B, w[1..], C);
        x := q;
        ReadsNothing(g, q);
      } else {
        x := VisitsGoes(src, Q0, g, st, sub, q, w[1..], C);
      }
      ChrThenReads(g, s, q, w, x);
    }
  }

  lemma SubsetStates(src: Source, Q0: set<nat>, g: Graph, st: seq<nat>, sub: Subsets, s: nat)
    requires SubsetDfa(src, Q0, g, st, sub) && s in sub
    ensures st != [] && s in st && End(st) in st
  {
    assert s in States(st);
  }

  /** A word leads somewhere in the new automaton just if it does in the automata that are needed. */
  ghost predicate OpGoes(g: Graph, op: Op, st1: seq<nat>, st2: seq<nat>, u: Word)
    requires st1 != [] && (op != ONE ==> st2 != [])
  {
    GoesOn(g, st1, u) && (op == AND ==> GoesOn(g, st2, u))
  }

  lemma SubsetGoes(g: Graph, op: Op, st1: seq<nat>, st2: seq<nat>, Q0: set<nat>, g': Graph, st': seq<nat>, sub: Subsets,
                   u: Word)
    requires Operands(g, op, st1, st2) && IsClosure(g, Starts(op, st1, st2), Q0)
    requires SubsetDfa(SourceOf(g, op, st1, st2), Q0, g', st', sub)
    ensures st1 != [] && (op != ONE ==> st2 != []) && st' != []
    ensures GoesOn(g', st', u) <==> OpGoes(g, op, st1, st2, u)
  {
    hide Operands, IsClosure, Reads, SetReads, Visits, GoesOn, Proper, UsefulAfter, SubsetDfa, EpsClosed, Useful;
    StartReached(g, op, st1, st2, Q0, u, 0);
    OperandsProper(g, op, st1, st2);
    var src := SourceOf(g, op, st1, st2);
    StartSet(src, Q0, g', st', sub);
    StartUseful(g, op, st1, st2, Q0);
    UsefulGoesOn(g, op, st1, st2, Q0, u);
    if GoesOn(g', st', u) {
      var x, n := SomePath(g', st', u);
      var C := GoesVisits(src, Q0, g', st', sub, Start(st'), u, x, n);
      VisitedGoes(g, op, st1, st2, Q0, u, C);
    }
    if OpGoes(g, op, st1, st2, u) {
      var p := GoesTo(g, st1, u);
      StartReached(g, op, st1, st2, Q0, u, p);
      var C := ReadsVisits(src, Q0, u, p);
      var x := VisitsGoes(src, Q0, g', st', sub, Start(st'), u, C);
      GoesOnBy(g', st', u, x);
    }
  }

  lemma SomePath(g: Graph, st: seq<nat>, u: Word) returns (x: nat, n: nat)
    requires st != [] && GoesOn(g, st, u)
    ensures Go(g, Start(st), u, x, n)
  {
    x :| x in st && Reads(g, Start(st), u, x);
    n :| Go(g, Start(st), u, x, n);
  }

  lemma GoesTo(g: Graph, st: seq<nat>, u: Word) returns (x: nat)
    requires st != [] && GoesOn(g, st, u)
    ensures x in st && Reads(g, Start(st), u, x)
  {
    x :| x in st && Reads(g, Start(st), u, x);
  }

  lemma GoesOnBy(g: Graph, st: seq<nat>, u: Word, x: nat)
    requires st != [] && x in st && Reads(g, Start(st), u, x)
    ensures GoesOn(g, st, u)
  {
  }

  lemma StartSet(src: Source, Q0: set<nat>, g: Graph, st: seq<nat>, sub: Subsets)
    requires SubsetDfa(src, Q0, g, st, sub)
    ensures st != [] && Start(st) in sub && sub[Start(st)] == Q0
    ensures Q0 <= src.S1 + src.S2 && EpsClosed(src.g, Q0)
  {
    var s := Start(st);
    assert NodeFor(src, g[s], sub[s], End(st), sub);
  }

  lemma StartUseful(g: Graph, op: Op, st1: seq<nat>, st2: seq<nat>, Q0: set<nat>)
    requires Operands(g, op, st1, st2) && IsClosure(g, Starts(op, st1, st2), Q0)
    ensures st1 != [] && Useful(SourceOf(g, op, st1, st2), Q0)
  {
    StartsIn(g, op, st1, st2);
    assert Start(st1) in Q0 && Start(st1) in States(st1);
    assert op != ONE ==> Start(st2) in Q0 && Start(st2) in States(st2);
  }

  /** A visited set holds a state of the first automaton, and of the second one if it is needed. */
  lemma VisitedGoes(g: Graph, op: Op, st1: seq<nat>, st2: seq<nat>, Q0: set<nat>, u: Word, C: set<nat>)
    requires Operands(g, op, st1, st2) && IsClosure(g, Starts(op, st1, st2), Q0) && st1 != []
    requires Q0 <= States(st1) + States(st2) && EpsClosed(g, Q0) && Visits(SourceOf(g, op, st1, st2), Q0, u, C)
    ensures op != ONE ==> st2 != []
    ensures OpGoes(g, op, st1, st2, u)
  {
    hide Operands, IsClosure, Reads, SetReads, Visits, GoesOn, Proper, UsefulAfter, EpsClosed, Useful;
    OperandsProper(g, op, st1, st2);
    var src := SourceOf(g, op, st1, st2);
    StartReached(g, op, st1, st2, Q0, u, 0);
    UsefulGoesOn(g, op, st1, st2, Q0, u);
    if u == [] {
      StartGoes(g, st1);
      if op != ONE { StartGoes(g, st2); }
    } else {
      UsefulVisited(src, Q0, u, C);
      if op == ONE {
        var p := VisitedState(src, Q0, u, C);
        VisitsReads(src, Q0, u, C, p);
        StartReached(g, op, st1, st2, Q0, u, p);
        ReachedIn(g, st1, u, p, op, st2);
      }
    }
  }

  lemma ReachedIn(g: Graph, st: seq<nat>, u: Word, p: nat, op: Op, st2: seq<nat>)
    requires Operands(g, op, st, st2) && st != [] && Reads(g, Start(st), u, p)
    ensures GoesOn(g, st, u)
  {
    var n: nat :| Go(g, Start(st), u, p, n);
    assert Start(st) in States(st);
    GoStays(g, States(st), Start(st), u, p, n);
    GoesOnBy(g, st, u, p);
  }

  lemma StartGoes(g: Graph, st: seq<nat>)
    requires st != []
    ensures GoesOn(g, st, [])
  {
    ReadsNothing(g, Start(st));
  }

  lemma {:induction false} VisitedState(src: Source, Q: set<nat>, u: Word, C: set<nat>) returns (p: nat)
    requires Visits(src, Q, u, C) && u != []
    ensures p in C
    decreases |u|
  {
    hide Useful, LeadsTo;
    var B :| LeadsTo(src, Q, u[0], B) && Useful(src, B) && Visits(src, B, u[1..], C);
    if u[1..] == [] {
      p := LedState(src, Q, u[0], B);
    } else {
      p := VisitedState(src, B, u[1..], C);
    }
  }

  lemma LedState(src: Source, Q: set<nat>, c: Char32, B: set<nat>) returns (p: nat)
    requires LeadsTo(src, Q, c, B)
    ensures p in B
  {
    hide IsStep, EpsClosed, SetReads;
    var T: set<nat> :| IsStep(src.g, Q, c, T) && T != {} && IsClosure(src.g, T, B);
    p :| p in T;
  }
}
