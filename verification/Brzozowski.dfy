/** minimize_automat: reverse, determinise, reverse, determinise. */
module Brzozowski {
  import opened Sequences
  import opened Graphs
  import opened Languages
  import opened Thompson
  import opened Chains
  import opened Glue
  import opened Mirror
  import opened Profiles
  import opened Automata
  import opened Shortcut
  import opened Subset
  import opened DfaOps
  import opened Visiting
  import opened Residuals

  /** The two states are told apart by some word. */
  ghost predicate Told(g: Graph, s: nat, t: nat, end: nat) {
    exists w: Word :: Reads(g, s, w, end) != Reads(g, t, w, end)
  }

  /** No two states accept the same words, except perhaps the start state and one more. */
  ghost predicate Minimal(g: Graph, st: seq<nat>)
    requires st != []
  {
    forall s, t :: s in st && t in st && s != Start(st) && t != Start(st) && s != t ==> Told(g, s, t, End(st))
  }

  /** No two states accept the same words. */
  ghost predicate FullyMinimal(g: Graph, st: seq<nat>)
    requires st != []
  {
    forall s, t :: s in st && t in st && s != t ==> Told(g, s, t, End(st))
  }

  /** Exactly for these languages minimize_automat makes the start state a double of another state. */
  ghost predicate StartDoubled(L: Lang) {
    Returns(L) || L == iset{[]}
  }

  /** d2 is the determinised reversal of the determinised automaton d1. */
  ghost predicate TwiceReversed(g: Graph, d1: seq<nat>, d: map<nat, nat>, g1: Graph, r: seq<nat>, Q0: set<nat>,
                                g': Graph, d2: seq<nat>, sub: Subsets) {
    && Deterministic(g, d1) && (forall s :: s in d1 && s != End(d1) ==> exists u: Word :: Reads(g, Start(d1), u, s))
    && ReverseOf(g, d1, g1, d) && r == Flip(Names(d1, d)) && Operands(g1, ONE, r, [])
    && SubsetDfa(SourceOf(g1, ONE, r, []), Q0, g', d2, sub)
  }

  /** Without an empty transition into them, states of the reversal other than its two ends have none. */
  lemma ReversalEmpty(g: Graph, d1: seq<nat>, d: map<nat, nat>, g1: Graph, q: nat)
    requires Deterministic(g, d1) && ReverseOf(g, d1, g1, d) && q in d1
    ensures At(d, q) in g1
    ensures q != Start(d1) && q != End(d1) ==> g1[At(d, q)].empty == []
    ensures q == End(d1) ==> At(d, q) in g1[At(d, q)].empty
    ensures q == Start(d1) ==> EndLoop(g1, At(d, q))
  {
    hide Reversing, Chunked, RangesSorted;
    ReversedEps(g, d1, g1, d, q);
    var e := End(d1);
    forall x | x in g1[At(d, q)].empty ensures q == e || q == Start(d1) {
      var p :| p in d1 && x == At(d, p) && (Eps(g, p, q) || (p == q && q == Start(d1)));
      if Eps(g, p, q) {
        assert p == e || DfaNode(g, p, e);
      }
    }
    if g1[At(d, q)].empty != [] {
      FirstIn(g1[At(d, q)].empty);
    }
  }

  /** The reversal has no state with a single empty transition, so nothing can be shortened. */
  lemma NothingToShorten(g: Graph, d1: seq<nat>, d: map<nat, nat>, g1: Graph, r: seq<nat>)
    requires Deterministic(g, d1) && ReverseOf(g, d1, g1, d) && r == Flip(Names(d1, d))
    ensures NoSingle(g1, r)
  {
    hide Deterministic, ReverseOf;
    NamesOk(g, d1, d, g1);
    forall s | s in r ensures !Single(g1, s) {
      var q := NameOf(d1, d, r, s);
      ReversalEmpty(g, d1, d, g1, q);
    }
  }

  /** Every state of the reversal is the name of a state. */
  lemma NameOf(d1: seq<nat>, d: map<nat, nat>, r: seq<nat>, s: nat) returns (q: nat)
    requires Naming(d1, d) && r == Flip(Names(d1, d)) && s in r
    ensures q in d1 && s == At(d, q)
  {
    var i :| 0 <= i < |r| && r[i] == s;
    var j := |r| - 1 - i;
    assert Names(d1, d)[j] == s == At(d, d1[j]);
    q := d1[j];
  }

  lemma NamesOk(g: Graph, d1: seq<nat>, d: map<nat, nat>, g1: Graph)
    requires ReverseOf(g, d1, g1, d)
    ensures Naming(d1, d) && |d1| >= 2 && Start(d1) != End(d1) && Start(d1) in d1 && End(d1) in d1
  {
  }

  /** No transition leads to the start state of the reversal, except from itself. */
  lemma StartNotEntered(g: Graph, d1: seq<nat>, d: map<nat, nat>, g1: Graph, q: nat)
    requires Deterministic(g, d1) && ReverseOf(g, d1, g1, d) && q in d1
    ensures forall c: Char32 :: !Chr(g1, At(d, q), c, At(d, End(d1)))
    ensures q != End(d1) ==> !Eps(g1, At(d, q), At(d, End(d1)))
  {
    var e := End(d1);
    NamesOk(g, d1, d, g1);
    ReversedEps(g, d1, g1, d, q);
    assert Reversing(g, d1, g1, d, q);
    forall t | t in g1[At(d, q)].ranges ensures t.target != At(d, e) {
      var p :| p in d1 && t.target == At(d, p) && p in g && Trans(t.from, t.to, q) in g[p].ranges;
      assert p != e;
    }
    if q != e {
      forall x | x in g1[At(d, q)].empty ensures x != At(d, e) {
        var p :| p in d1 && x == At(d, p) && (Eps(g, p, q) || (p == q && q == Start(d1)));
        assert p != e;
      }
    }
  }

  /** A set that is entered by a transition does not contain the start state of the reversal. */
  lemma EnteredSet(g: Graph, d1: seq<nat>, d: map<nat, nat>, g1: Graph, r: seq<nat>, Q: set<nat>, c: Char32,
                   C: set<nat>)
    requires Deterministic(g, d1) && ReverseOf(g, d1, g1, d) && r == Flip(Names(d1, d)) && Operands(g1, ONE, r, [])
    requires Q <= States(r) && LeadsTo(SourceOf(g1, ONE, r, []), Q, c, C)
    ensures C <= States(r) - {At(d, End(d1))} && C != {}
  {
    hide Deterministic, ReverseOf, Reads, SetReads, Operands;
    NamesOk(g, d1, d, g1);
    OperandsClosed(g1, r);
    var T: set<nat> :| IsStep(g1, Q, c, T) && T != {} && IsClosure(g1, T, C);
    var S := States(r) - {At(d, End(d1))};
    forall x | x in T ensures x in S {
      var p :| p in Q && Chr(g1, p, c, x);
      var q := NameOf(d1, d, r, p);
      StartNotEntered(g, d1, d, g1, q);
      assert x in States(r);
    }
    forall p, x | p in S && Eps(g1, p, x) ensures x in S {
      var q := NameOf(d1, d, r, p);
      StartNotEntered(g, d1, d, g1, q);
      assert x in States(r);
    }
    ClosureWithin(g1, T, C, S);
  }

  lemma OperandsClosed(g: Graph, r: seq<nat>)
    requires Operands(g, ONE, r, [])
    ensures Closed(g, States(r)) && |r| >= 2
  {
  }

  /** A state other than the first one is entered by a transition. */
  lemma {:induction false} EnteredFrom(src: Source, Q0: set<nat>, g: Graph, st: seq<nat>, sub: Subsets, p: nat,
                                       u: Word, s: nat, n: nat)
    returns (Q: set<nat>, c: Char32)
    requires SubsetDfa(src, Q0, g, st, sub) && p in sub && s in sub && p != s && Go(g, p, u, s, n)
    ensures Q <= src.S1 + src.S2 && LeadsTo(src, Q, c, sub[s])
    decreases n
  {
    hide SubsetDfa, LeadsTo, Deterministic, Reads, Dead;
    SubsetDeterministic(src, Q0, g, st, sub);
    SubInside(src, Q0, g, st, sub, p);
    SubInside(src, Q0, g, st, sub, s);
    var r := OneStep(g, st, p, u, s, n);
    c := u[0];
    Q := sub[p];
    SubsetAt(src, Q0, g, st, sub, p);
    assert Stands(src, Q, c, r, End(st), sub);
    if r == End(st) {
      LoopOnly(g, r, u[1..], s, n - 1);
    } else if r != s {
      Q, c := EnteredFrom(src, Q0, g, st, sub, r, u[1..], s, n - 1);
    }
  }

  lemma SubInside(src: Source, Q0: set<nat>, g: Graph, st: seq<nat>, sub: Subsets, s: nat)
    requires SubsetDfa(src, Q0, g, st, sub) && s in sub
    ensures |st| >= 2 && s in st && s != End(st) && Start(st) in sub
    ensures exists u: Word :: Reads(g, Start(st), u, s)
  {
    assert s in States(st);
  }

  /** A non-start state is a non-empty set of states of the reversal without its start state. */
  lemma SetOf(g: Graph, d1: seq<nat>, d: map<nat, nat>, g1: Graph, r: seq<nat>, Q0: set<nat>, g': Graph, d2: seq<nat>,
              sub: Subsets, s: nat)
    requires TwiceReversed(g, d1, d, g1, r, Q0, g', d2, sub) && s in sub && s != Start(d2)
    ensures sub[s] <= States(r) - {At(d, End(d1))} && sub[s] != {}
  {
    hide Deterministic, ReverseOf, SubsetDfa, Operands, LeadsTo;
    OperandsClosed(g1, r);
    var src := SourceOf(g1, ONE, r, []);
    SubInside(src, Q0, g', d2, sub, s);
    var u: Word :| Reads(g', Start(d2), u, s);
    var n: nat :| Go(g', Start(d2), u, s, n);
    var Q, c := EnteredFrom(src, Q0, g', d2, sub, Start(d2), u, s, n);
    EnteredSet(g, d1, d, g1, r, Q, c, sub[s]);
  }

  /** What a set of states of the reversal accepts: the reversed words that lead to one of its states. */
  lemma SetReadsBack(g: Graph, d1: seq<nat>, d: map<nat, nat>, g1: Graph, r: seq<nat>, Q: set<nat>, w: Word)
    requires ReverseOf(g, d1, g1, d) && r == Flip(Names(d1, d)) && Q <= States(r)
    ensures SetReads(g1, Q, w, End(r)) <==> exists q :: q in d1 && At(d, q) in Q && Reads(g, Start(d1), Reverse(w), q)
  {
    hide ReverseOf, Reads;
    NamesOk(g, d1, d, g1);
    assert End(r) == Names(d1, d)[0] == At(d, Start(d1));
    if SetReads(g1, Q, w, End(r)) {
      var p :| p in Q && Reads(g1, p, w, End(r));
      var q := NameOf(d1, d, r, p);
      ReverseReads(g, d1, g1, d, q, w, Start(d1));
    }
    if q :| q in d1 && At(d, q) in Q && Reads(g, Start(d1), Reverse(w), q) {
      ReverseReads(g, d1, g1, d, q, w, Start(d1));
    }
  }

  /** All states of the set are named after states of d1 other than its end state. */
  ghost predicate Inner(d1: seq<nat>, d: map<nat, nat>, r: seq<nat>, Q: set<nat>) {
    d1 != [] && Q <= States(r) - {At(d, End(d1))}
  }

  /** Every state in a set is betrayed by the words that lead to it. */
  lemma SetWord(g: Graph, d1: seq<nat>, d: map<nat, nat>, g1: Graph, r: seq<nat>, Q0: set<nat>, g': Graph,
                d2: seq<nat>, sub: Subsets, s: nat, x: nat) returns (w: Word, q: nat)
    requires TwiceReversed(g, d1, d, g1, r, Q0, g', d2, sub) && s in sub && Inner(d1, d, r, sub[s]) && x in sub[s]
    ensures q in d1 && q != End(d1) && x == At(d, q) && Reads(g, Start(d1), Reverse(w), q)
    ensures d2 != [] && Reads(g', s, w, End(d2))
  {
    hide Deterministic, ReverseOf, SubsetDfa, Operands, Reads, SetReads;
    NamesOk(g, d1, d, g1);
    SubInside(SourceOf(g1, ONE, r, []), Q0, g', d2, sub, s);
    q := NameOf(d1, d, r, x);
    var u: Word :| Reads(g, Start(d1), u, q);
    w := Reverse(u);
    ReverseTwice(u);
    SetReadsBack(g, d1, d, g1, r, sub[s], w);
    SubsetReads(SourceOf(g1, ONE, r, []), Q0, g', d2, sub, s, w);
  }

  /** If t accepts what s accepts, the set of s is part of the set of t. */
  lemma SetPart(g: Graph, d1: seq<nat>, d: map<nat, nat>, g1: Graph, r: seq<nat>, Q0: set<nat>, g': Graph,
                d2: seq<nat>, sub: Subsets, s: nat, t: nat)
    requires TwiceReversed(g, d1, d, g1, r, Q0, g', d2, sub) && s in sub && t in sub && d2 != []
    requires Inner(d1, d, r, sub[s]) && Inner(d1, d, r, sub[t])
    requires forall w: Word :: Reads(g', s, w, End(d2)) ==> Reads(g', t, w, End(d2))
    ensures sub[s] <= sub[t]
  {
    hide Deterministic, ReverseOf, SubsetDfa, Operands, Reads, SetReads;
    NamesOk(g, d1, d, g1);
    forall x | x in sub[s] ensures x in sub[t] {
      var w, q := SetWord(g, d1, d, g1, r, Q0, g', d2, sub, s, x);
      SetReadsBack(g, d1, d, g1, r, sub[t], w);
      SubsetReads(SourceOf(g1, ONE, r, []), Q0, g', d2, sub, t, w);
      var q' :| q' in d1 && At(d, q') in sub[t] && Reads(g, Start(d1), Reverse(w), q');
      SameState(g, d1, Reverse(w), q, q');
    }
  }

  lemma SameState(g: Graph, d1: seq<nat>, u: Word, q: nat, q': nat)
    requires Deterministic(g, d1) && q != End(d1) && q' != End(d1)
    requires Reads(g, Start(d1), u, q) && Reads(g, Start(d1), u, q')
    ensures q == q'
  {
    var n: nat :| Go(g, Start(d1), u, q, n);
    var n': nat :| Go(g, Start(d1), u, q', n');
    OneState(g, d1, Start(d1), u, q, n, q', n');
  }

  /** Two non-start states with sets of their own are told apart. */
  lemma StatesTold(g: Graph, d1: seq<nat>, d: map<nat, nat>, g1: Graph, r: seq<nat>, Q0: set<nat>, g': Graph,
                   d2: seq<nat>, sub: Subsets, s: nat, t: nat)
    requires TwiceReversed(g, d1, d, g1, r, Q0, g', d2, sub) && s in sub && t in sub && s != t && d2 != []
    requires s != Start(d2) && t != Start(d2)
    ensures Told(g', s, t, End(d2))
  {
    hide Reads, Deterministic, ReverseOf, Operands;
    SetOf(g, d1, d, g1, r, Q0, g', d2, sub, s);
    SetOf(g, d1, d, g1, r, Q0, g', d2, sub, t);
    NamesOk(g, d1, d, g1);
    if !Told(g', s, t, End(d2)) {
      assert forall w: Word :: Reads(g', s, w, End(d2)) == Reads(g', t, w, End(d2));
      SetPart(g, d1, d, g1, r, Q0, g', d2, sub, s, t);
      SetPart(g, d1, d, g1, r, Q0, g', d2, sub, t, s);
    }
  }

  /** From a state that a transition leads to some word is accepted. */
  lemma SomeWord(g: Graph, d1: seq<nat>, d: map<nat, nat>, g1: Graph, r: seq<nat>, Q0: set<nat>, g': Graph,
                 d2: seq<nat>, sub: Subsets, s: nat, c: Char32, q: nat) returns (w: Word)
    requires TwiceReversed(g, d1, d, g1, r, Q0, g', d2, sub) && s in sub && s in g' && Sends(g'[s].ranges, c, q)
    ensures d2 != [] && Reads(g', q, w, End(d2))
  {
    hide Reads, Deterministic, ReverseOf, Operands, SubsetDfa, LeadsTo, Final;
    OperandsClosed(g1, r);
    var src := SourceOf(g1, ONE, r, []);
    SubInside(src, Q0, g', d2, sub, s);
    SubsetAt(src, Q0, g', d2, sub, s);
    assert Stands(src, sub[s], c, q, End(d2), sub);
    NamesOk(g, d1, d, g1);
    if q == End(d2) {
      w := [];
      ReadsNothing(g', q);
    } else {
      EnteredSet(g, d1, d, g1, r, sub[s], c, sub[q]);
      var x :| x in sub[q];
      var y;
      w, y := SetWord(g, d1, d, g1, r, Q0, g', d2, sub, q, x);
    }
  }

  /** A non-start state with a set of its own is told apart from the end state. */
  lemma EndTold(g: Graph, d1: seq<nat>, d: map<nat, nat>, g1: Graph, r: seq<nat>, Q0: set<nat>, g': Graph,
                d2: seq<nat>, sub: Subsets, s: nat)
    requires TwiceReversed(g, d1, d, g1, r, Q0, g', d2, sub) && s in sub && d2 != [] && s != Start(d2)
    ensures Told(g', s, End(d2), End(d2)) && Told(g', End(d2), s, End(d2))
  {
    hide Deterministic, ReverseOf, Operands, Reads, NodeFor, SubsetDfa, Accepts;
    OperandsClosed(g1, r);
    var e, w := End(d2), [];
    ReadsNothing(g', e);
    OnlyEndAt(SourceOf(g1, ONE, r, []), Q0, g', d2, sub, s);
    if Reads(g', s, [], e) {
      var t := g'[s].ranges[0];
      var v := SomeWord(g, d1, d, g1, r, Q0, g', d2, sub, s, t.from, t.target);
      w := [t.from] + v;
      assert Chr(g', s, w[0], t.target) && w[1..] == v;
      ChrThenReads(g', s, t.target, w, e);
      NoWord(g', e, w);
    }
    assert Reads(g', s, w, e) != Reads(g', e, w, e);
  }

  lemma OnlyEndAt(src: Source, Q0: set<nat>, g: Graph, st: seq<nat>, sub: Subsets, s: nat)
    requires SubsetDfa(src, Q0, g, st, sub) && s in sub && s != Start(st)
    ensures s in g && EpsState(g, End(st), [End(st)])
    ensures Reads(g, s, [], End(st)) ==>
      g[s].ranges != [] && g[s].ranges[0] in g[s].ranges
        && Sends(g[s].ranges, g[s].ranges[0].from, g[s].ranges[0].target)
    ensures Reads(g, s, [], End(st)) ==> Graphs.Hit(g[s].ranges[0], g[s].ranges[0].from)
  {
    hide Reads, Accepts, EpsClosed, Stands, Dead;
    SubsetAt(src, Q0, g, st, sub, s);
    SubsetReads(src, Q0, g, st, sub, s, []);
    if g[s].ranges != [] {
      var t := g[s].ranges[0];
      assert t in g[s].ranges && Graphs.Hit(t, t.from);
    }
  }

  lemma StatesOf(g: Graph, d1: seq<nat>, d: map<nat, nat>, g1: Graph, r: seq<nat>, Q0: set<nat>, g': Graph,
                 d2: seq<nat>, sub: Subsets)
    requires TwiceReversed(g, d1, d, g1, r, Q0, g', d2, sub)
    ensures d2 != [] && forall s :: s in d2 ==> s in sub || s == End(d2)
  {
    hide Deterministic, ReverseOf, Operands, NodeFor, Reads;
    forall s | s in d2 ensures s in sub || s == End(d2) { assert s in States(d2); }
  }

  /** The result of minimize_automat: different non-start states accept different sets of words. */
  lemma MinimalDone(g: Graph, d1: seq<nat>, d: map<nat, nat>, g1: Graph, r: seq<nat>, Q0: set<nat>, g': Graph,
                    d2: seq<nat>, sub: Subsets)
    requires TwiceReversed(g, d1, d, g1, r, Q0, g', d2, sub)
    ensures d2 != [] && Minimal(g', d2)
  {
    hide TwiceReversed, Told;
    StatesOf(g, d1, d, g1, r, Q0, g', d2, sub);
    forall s, t | s in d2 && t in d2 && s != Start(d2) && t != Start(d2) && s != t ensures Told(g', s, t, End(d2)) {
      if s == End(d2) {
        EndTold(g, d1, d, g1, r, Q0, g', d2, sub, t);
      } else if t == End(d2) {
        EndTold(g, d1, d, g1, r, Q0, g', d2, sub, s);
      } else {
        StatesTold(g, d1, d, g1, r, Q0, g', d2, sub, s, t);
      }
    }
  }

  /** The start state of the new automaton is not entered by any transition. */
  lemma NotEntered(g: Graph, d1: seq<nat>, d: map<nat, nat>, g1: Graph, r: seq<nat>, Q0: set<nat>, g': Graph,
                   d2: seq<nat>, sub: Subsets, t: nat)
    requires TwiceReversed(g, d1, d, g1, r, Q0, g', d2, sub) && IsClosure(g1, {Start(r)}, Q0)
    requires d2 != [] && t in d2 && t != End(d2) && Entered(g', d2, t)
    ensures t != Start(d2)
  {
    hide Reads, Deterministic, ReverseOf, Operands, SubsetDfa, LeadsTo;
    OperandsClosed(g1, r);
    NamesOk(g, d1, d, g1);
    var src := SourceOf(g1, ONE, r, []);
    StatesOf(g, d1, d, g1, r, Q0, g', d2, sub);
    var s, c: Char32 :| s in d2 && s != End(d2) && s in g' && Sends(g'[s].ranges, c, t);
    SubInside(src, Q0, g', d2, sub, s);
    SubsetAt(src, Q0, g', d2, sub, s);
    assert Stands(src, sub[s], c, t, End(d2), sub);
    EnteredSet(g, d1, d, g1, r, sub[s], c, sub[t]);
    StartSet(src, Q0, g', d2, sub);
    assert Start(r) == Names(d1, d)[|d1| - 1] == At(d, End(d1));
  }

  lemma StartSet(src: Source, Q0: set<nat>, g: Graph, st: seq<nat>, sub: Subsets)
    requires SubsetDfa(src, Q0, g, st, sub)
    ensures st != [] && Start(st) in sub && sub[Start(st)] == Q0
  {
  }

  lemma WordsOf(g: Graph, st: seq<nat>, w: Word)
    requires st != []
    ensures w in LangOf(g, st) <==> Reads(g, Start(st), w, End(st))
  {
  }

  /** If a word leads back to all of the language, the state it leads to accepts what the start state accepts. */
  lemma DoubleOfStart(g: Graph, d1: seq<nat>, d: map<nat, nat>, g1: Graph, r: seq<nat>, Q0: set<nat>, g': Graph,
                      d2: seq<nat>, sub: Subsets)
    returns (t: nat)
    requires TwiceReversed(g, d1, d, g1, r, Q0, g', d2, sub) && IsClosure(g1, {Start(r)}, Q0)
    requires d2 != [] && Returns(LangOf(g', d2))
    ensures t in d2 && t != Start(d2) && Start(d2) in d2 && !Told(g', Start(d2), t, End(d2))
  {
    hide Reads, Deterministic, LangOf, TwiceReversed, Entered, IsClosure;
    var L, s, e := LangOf(g', d2), Start(d2), End(d2);
    DfaParts(g, d1, d, g1, r, Q0, g', d2, sub);
    var u: Word :| BackBy(L, u);
    var w: Word :| w in L;
    if w == [] {
      assert u + [] == u;
      w := u;
    }
    WordsOf(g', d2, u + w);
    var n := PathOf(g', s, u + w, e);
    t := SplitWord(g', d2, s, u, w, n);
    NotEntered(g, d1, d, g1, r, Q0, g', d2, sub, t);
    var m := PathOf(g', s, u, t);
    forall v: Word ensures Reads(g', s, v, e) == Reads(g', t, v, e) {
      Residual(g', d2, s, u, t, v, m);
      WordsOf(g', d2, v);
      WordsOf(g', d2, u + v);
    }
  }

  lemma DfaParts(g: Graph, d1: seq<nat>, d: map<nat, nat>, g1: Graph, r: seq<nat>, Q0: set<nat>, g': Graph,
                 d2: seq<nat>, sub: Subsets)
    requires TwiceReversed(g, d1, d, g1, r, Q0, g', d2, sub)
    ensures d2 != [] && Deterministic(g', d2) && Start(d2) in d2 && Start(d2) in sub && Start(d2) != End(d2)
    ensures End(d2) in d2 && EpsState(g', End(d2), [End(d2)])
  {
    hide Reads, Deterministic, ReverseOf, Operands, NodeFor;
    SubsetDeterministic(SourceOf(g1, ONE, r, []), Q0, g', d2, sub);
    SubInside(SourceOf(g1, ONE, r, []), Q0, g', d2, sub, Start(d2));
  }

  /** If only the empty word is accepted, the start state accepts what the end state accepts. */
  lemma DoubleOfEnd(g: Graph, s: nat, e: nat)
    requires EpsState(g, e, [e]) && forall w: Word :: Reads(g, s, w, e) <==> w == []
    ensures !Told(g, s, e, e)
  {
    hide Reads;
    ReadsNothing(g, e);
    forall w: Word ensures Reads(g, s, w, e) == Reads(g, e, w, e) {
      if w != [] { NoWord(g, e, w); }
    }
  }

  /** A state that accepts what the start state accepts returns to all of the language, or is the end state. */
  lemma DoubleReturns(g: Graph, d1: seq<nat>, d: map<nat, nat>, g1: Graph, r: seq<nat>, Q0: set<nat>, g': Graph,
                      d2: seq<nat>, sub: Subsets, t: nat)
    requires TwiceReversed(g, d1, d, g1, r, Q0, g', d2, sub) && d2 != [] && t in d2 && t != Start(d2)
    requires !Told(g', Start(d2), t, End(d2))
    ensures StartDoubled(LangOf(g', d2))
  {
    hide Reads, Deterministic, LangOf, TwiceReversed, Told;
    var L, s, e := LangOf(g', d2), Start(d2), End(d2);
    DfaParts(g, d1, d, g1, r, Q0, g', d2, sub);
    forall w: Word ensures w in L <==> Reads(g', t, w, e) {
      SameWords(g', s, t, e, w);
      WordsOf(g', d2, w);
    }
    if t == e {
      ReadsNothing(g', e);
      forall w: Word ensures w in L <==> w == [] {
        if w != [] { NoWord(g', e, w); }
      }
      assert L == iset{[]};
    } else {
      var u, n, v := WordTo(g, d1, d, g1, r, Q0, g', d2, sub, t);
      assert v in L;
      forall w: Word ensures u + w in L <==> w in L {
        Residual(g', d2, s, u, t, w, n);
        WordsOf(g', d2, u + w);
      }
      assert BackBy(L, u);
    }
  }

  lemma SameWords(g: Graph, s: nat, t: nat, e: nat, w: Word)
    requires !Told(g, s, t, e)
    ensures Reads(g, s, w, e) == Reads(g, t, w, e)
  {
  }

  /** A word that leads to t, and one that t accepts. */
  lemma WordTo(g: Graph, d1: seq<nat>, d: map<nat, nat>, g1: Graph, r: seq<nat>, Q0: set<nat>, g': Graph, d2: seq<nat>,
               sub: Subsets, t: nat)
    returns (u: Word, n: nat, v: Word)
    requires TwiceReversed(g, d1, d, g1, r, Q0, g', d2, sub) && d2 != [] && t in d2 && t != Start(d2) && t != End(d2)
    ensures u != [] && Go(g', Start(d2), u, t, n) && Reads(g', t, v, End(d2))
  {
    hide Deterministic, ReverseOf, Operands, SubsetDfa, NodeFor;
    NamesOk(g, d1, d, g1);
    DfaParts(g, d1, d, g1, r, Q0, g', d2, sub);
    StatesOf(g, d1, d, g1, r, Q0, g', d2, sub);
    SubInside(SourceOf(g1, ONE, r, []), Q0, g', d2, sub, t);
    u :| Reads(g', Start(d2), u, t);
    n := PathOf(g', Start(d2), u, t);
    if u == [] {
      SameEmpty(g', d2, Start(d2), t);
    }
    SetOf(g, d1, d, g1, r, Q0, g', d2, sub, t);
    var x :| x in sub[t];
    var y;
    v, y := SetWord(g, d1, d, g1, r, Q0, g', d2, sub, t, x);
  }

  /** The result of minimize_automat is minimal unless some word leads back to all of the language. */
  lemma FullyMinimalDone(g: Graph, d1: seq<nat>, d: map<nat, nat>, g1: Graph, r: seq<nat>, Q0: set<nat>, g': Graph,
                         d2: seq<nat>, sub: Subsets)
    requires TwiceReversed(g, d1, d, g1, r, Q0, g', d2, sub) && IsClosure(g1, {Start(r)}, Q0)
    ensures d2 != [] && (FullyMinimal(g', d2) <==> !StartDoubled(LangOf(g', d2)))
  {
    hide TwiceReversed, Told, LangOf, Returns, IsClosure, Deterministic, Reads;
    DfaParts(g, d1, d, g1, r, Q0, g', d2, sub);
    MinimalDone(g, d1, d, g1, r, Q0, g', d2, sub);
    var L, s, e := LangOf(g', d2), Start(d2), End(d2);
    if Returns(L) {
      var t := DoubleOfStart(g, d1, d, g1, r, Q0, g', d2, sub);
    } else if L == iset{[]} {
      forall w: Word ensures Reads(g', s, w, e) <==> w == [] { WordsOf(g', d2, w); }
      DoubleOfEnd(g', s, e);
    } else {
      forall t | t in d2 && t != s ensures Told(g', s, t, e) && Told(g', t, s, e) {
        if !Told(g', s, t, e) {
          DoubleReturns(g, d1, d, g1, r, Q0, g', d2, sub, t);
        }
        ToldBack(g', s, t, e);
      }
    }
  }

  /** The documented promise fails for a*: its minimised automaton has two states that accept the
      same words. */
  lemma StarNotMinimal(g: Graph, d1: seq<nat>, d: map<nat, nat>, g1: Graph, r: seq<nat>, Q0: set<nat>, g': Graph,
                       d2: seq<nat>, sub: Subsets, a: Char32)
    requires TwiceReversed(g, d1, d, g1, r, Q0, g', d2, sub) && IsClosure(g1, {Start(r)}, Q0)
    requires d2 != [] && LangOf(g', d2) == Star(CharLang([a], [a]))
    ensures StartDoubled(Star(CharLang([a], [a]))) && !FullyMinimal(g', d2)
    ensures exists s, t :: s in d2 && t in d2 && s != t && !Told(g', s, t, End(d2))
  {
    hide TwiceReversed, IsClosure, Returns, LangOf, Told;
    StarReturns(a);
    FullyMinimalDone(g, d1, d, g1, r, Q0, g', d2, sub);
  }

  lemma ToldBack(g: Graph, s: nat, t: nat, e: nat)
    requires Told(g, s, t, e)
    ensures Told(g, t, s, e)
  {
  }

  /** The reversal meets a range from > to exactly if the end state can be reached from one. */
  lemma ReversalMeets(g: Graph, st: seq<nat>, g1: Graph, r: seq<nat>)
    requires ReversalOf(g, st, g1, r)
    ensures MeetsInverted(g1, ONE, r, []) <==> InvertedToEnd(g, st)
  {
    hide ReverseOf, BackRanked, Ranked, Reversible, Reads;
    var d :| ReverseOf(g, st, g1, d) && r == Flip(Names(st, d));
    NamesOk(g, st, d, g1);
    ReverseEnds(g, st, g1, d);
    if u: Word, x: nat :| InvertedAfter(g1, ONE, r, [], u, x) {
      var q := ReversedState(g, st, d, g1, r, u, x);
      ReverseReads(g, st, g1, d, End(st), u, q);
      var t :| t in g1[x].ranges && t.from > t.to;
      var p := RangeBack(g, st, d, g1, q, t);
      assert InvertedTransition(g, st, p, Trans(t.from, t.to, q));
    }
    if p, t, w: Word :| InvertedTransition(g, st, p, t) && Reads(g, t.target, w, End(st)) {
      RangeThere(g, st, d, g1, p, t);
      ReverseTwice(w);
      ReverseReads(g, st, g1, d, End(st), Reverse(w), t.target);
      assert InvertedAfter(g1, ONE, r, [], Reverse(w), At(d, t.target));
    }
  }

  lemma ReversedState(g: Graph, st: seq<nat>, d: map<nat, nat>, g1: Graph, r: seq<nat>, u: Word, x: nat)
    returns (q: nat)
    requires ReverseOf(g, st, g1, d) && r == Flip(Names(st, d)) && r != [] && Reads(g1, Start(r), u, x)
    ensures q in st && x == At(d, q)
  {
    hide ReverseOf, Reads;
    ReverseWellFormed(g, st, g1, d);
    StaysIn(g1, r, u, x);
    NamesOk(g, st, d, g1);
    q := NameOf(st, d, r, x);
  }

  lemma RangeThere(g: Graph, st: seq<nat>, d: map<nat, nat>, g1: Graph, p: nat, t: Trans)
    requires ReverseOf(g, st, g1, d) && InvertedTransition(g, st, p, t)
    ensures t.target in st && HasInverted(g1, At(d, t.target))
  {
    EdgesStay(g, st, p);
    assert Reversing(g, st, g1, d, t.target);
    assert Trans(t.from, t.to, At(d, p)) in g1[At(d, t.target)].ranges;
  }

  /** Without a range from > to the reversal meets none. */
  lemma NeverMeets(g: Graph, st: seq<nat>, g1: Graph, r: seq<nat>)
    requires ReversalOf(g, st, g1, r) && Upright(g, st)
    ensures !MeetsInverted(g1, ONE, r, [])
  {
    hide ReversalOf, Upright, Reads;
    ReversalMeets(g, st, g1, r);
    if p, t, w: Word :| InvertedTransition(g, st, p, t) && Reads(g, t.target, w, End(st)) {
      UprightTransition(g, st, p, t);
    }
  }

  lemma UprightTransition(g: Graph, st: seq<nat>, p: nat, t: Trans)
    requires Upright(g, st) && p in st && p in g && t in g[p].ranges
    ensures t.from <= t.to
  {
    assert UprightAt(g, p);
  }

  lemma RangeBack(g: Graph, st: seq<nat>, d: map<nat, nat>, g1: Graph, q: nat, t: Trans) returns (x: nat)
    requires ReverseOf(g, st, g1, d) && q in st && At(d, q) in g1 && t in g1[At(d, q)].ranges
    ensures x in st && x in g && Trans(t.from, t.to, q) in g[x].ranges
  {
    assert Reversing(g, st, g1, d, q);
    x :| x in st && t.target == At(d, x) && x in g && Trans(t.from, t.to, q) in g[x].ranges;
  }

  lemma NoneInverted(g: Graph, st: seq<nat>)
    requires Upright(g, st)
    ensures forall p :: p in st ==> !HasInverted(g, p)
  {
    assert forall p :: p in st ==> UprightAt(g, p);
  }

  lemma ResultParts(g1: Graph, r: seq<nat>, g2: Graph, d1: seq<nat>)
    requires DfaResult(g1, ONE, r, [], g2, d1)
    ensures r != [] && WellFormed(g2, d1) && |d1| >= 2 && LangOf(g2, d1) == LangOf(g1, r)
    ensures Acyclic(g2, d1) && Upright(g2, d1) && Deterministic(g2, d1)
    ensures Confined(g1, g2, States(r), d1)
  {
    hide Acyclic, Upright, Deterministic, WellFormed, LangOf;
    WellFormedLength(g2, d1);
    assert States(r) + States([]) == States(r);
  }

  lemma WellFormedLength(g: Graph, st: seq<nat>)
    requires WellFormed(g, st)
    ensures |st| >= 2
  {
  }

  lemma MadeReached(g1: Graph, r: seq<nat>, gs: Graph, Q0: set<nat>, g2: Graph, d1: seq<nat>, sub: Subsets)
    requires Made(g1, r, gs, Q0, g2, d1, sub)
    ensures d1 != [] && forall s :: s in d1 && s != End(d1) ==> exists u: Word :: Reads(g2, Start(d1), u, s)
  {
    hide Operands, Simplified, IsClosure, Reads, NodeFor;
    forall s | s in d1 && s != End(d1) ensures exists u: Word :: Reads(g2, Start(d1), u, s) {
      assert s in States(d1);
      SubInside(SourceOf(gs, ONE, r, []), Q0, g2, d1, sub, s);
    }
  }

  lemma ConfinedTwice(g0: Graph, g1: Graph, r: seq<nat>, g2: Graph, st: seq<nat>)
    requires Confined(g0, g1, {}, r) && Confined(g1, g2, States(r), st)
    ensures Confined(g0, g2, {}, st) && Untouched(g0, g2, {})
  {
    assert forall p :: p in States(r) <==> p in r;
  }

  lemma BuiltFrom(g: Graph, g': Graph, own: set<nat>, st': seq<nat>, L: Lang)
    requires Built(g, g', own, st', L)
    ensures WellFormed(g', st') && LangOf(g', st') == L && Confined(g, g', own, st')
  {
  }

  /** What the first half of the algorithm leaves: the determinised reversal. */
  lemma FirstHalf(g0: Graph, st: seq<nat>, g1: Graph, r1: seq<nat>, g2: Graph, d1: seq<nat>, gs: Graph, Q0: set<nat>,
                  sub: Subsets)
    requires st != [] && Built(g0, g1, {}, r1, Reversed(LangOf(g0, st)))
    requires DfaResult(g1, ONE, r1, [], g2, d1) && Made(g1, r1, gs, Q0, g2, d1, sub)
    ensures WellFormed(g2, d1) && |d1| >= 2 && LangOf(g2, d1) == Reversed(LangOf(g0, st))
    ensures Acyclic(g2, d1) && Upright(g2, d1)
    ensures Deterministic(g2, d1) && Untouched(g0, g2, {}) && Confined(g0, g2, {}, d1)
    ensures forall s :: s in d1 && s != End(d1) ==> exists u: Word :: Reads(g2, Start(d1), u, s)
  {
    hide LangOf, WellFormed, Deterministic, Acyclic, Upright, Built, DfaResult, Made, Confined, Reads;
    BuiltFrom(g0, g1, {}, r1, Reversed(LangOf(g0, st)));
    ResultParts(g1, r1, g2, d1);
    MadeReached(g1, r1, gs, Q0, g2, d1, sub);
    ConfinedTwice(g0, g1, r1, g2, d1);
  }

  lemma MadeTwiceReversed(g2: Graph, d1: seq<nat>, g3: Graph, r2: seq<nat>, g4: Graph, d2: seq<nat>, gs: Graph,
                          Q0: set<nat>, sub: Subsets)
    returns (d: map<nat, nat>)
    requires d1 != [] && Deterministic(g2, d1) && ReversalOf(g2, d1, g3, r2) && Made(g3, r2, gs, Q0, g4, d2, sub)
    requires forall s :: s in d1 && s != End(d1) ==> exists u: Word :: Reads(g2, Start(d1), u, s)
    ensures TwiceReversed(g2, d1, d, g3, r2, Q0, g4, d2, sub) && IsClosure(g3, {Start(r2)}, Q0)
  {
    hide Deterministic, ReverseOf, Reads, SubsetDfa, IsClosure, Operands, BackRanked, Ranked;
    d :| ReverseOf(g2, d1, g3, d) && r2 == Flip(Names(d1, d));
    NothingToShorten(g2, d1, d, g3, r2);
  }

  /** The second half: reverse and determinise again. */
  lemma SecondHalf(g0: Graph, st: seq<nat>, g2: Graph, d1: seq<nat>, g3: Graph, r2: seq<nat>, g4: Graph, d2: seq<nat>,
                   gs: Graph, Q0: set<nat>, sub: Subsets)
    requires st != [] && d1 != [] && LangOf(g2, d1) == Reversed(LangOf(g0, st)) && Deterministic(g2, d1)
    requires Untouched(g0, g2, {})
    requires forall s :: s in d1 && s != End(d1) ==> exists u: Word :: Reads(g2, Start(d1), u, s)
    requires Built(g2, g3, {}, r2, Reversed(LangOf(g2, d1))) && ReversalOf(g2, d1, g3, r2)
    requires DfaResult(g3, ONE, r2, [], g4, d2) && Made(g3, r2, gs, Q0, g4, d2, sub)
    ensures Built(g0, g4, {}, d2, LangOf(g0, st)) && Deterministic(g4, d2) && Acyclic(g4, d2) && Minimal(g4, d2)
    ensures Untouched(g0, g4, {}) && (FullyMinimal(g4, d2) <==> !StartDoubled(LangOf(g0, st)))
  {
    hide FullyMinimal, StartDoubled, IsClosure, LangOf, WellFormed, Deterministic, Acyclic, Upright, ReversalOf,
      DfaResult, Made, Confined, Reads, Minimal, TwiceReversed, Untouched, Reversed;
    var d := MadeTwiceReversed(g2, d1, g3, r2, g4, d2, gs, Q0, sub);
    MinimalDone(g2, d1, d, g3, r2, Q0, g4, d2, sub);
    FullyMinimalDone(g2, d1, d, g3, r2, Q0, g4, d2, sub);
    BuiltFrom(g2, g3, {}, r2, Reversed(LangOf(g2, d1)));
    ResultParts(g3, r2, g4, d2);
    ReversedTwice(LangOf(g0, st));
    ConfinedTwice(g2, g3, r2, g4, d2);
    ConfinedOn(g0, g2, g4, d2);
  }

  lemma ConfinedOn(g0: Graph, g2: Graph, g4: Graph, st: seq<nat>)
    requires Untouched(g0, g2, {}) && Confined(g2, g4, {}, st)
    ensures Confined(g0, g4, {}, st) && Untouched(g0, g4, {})
  {
  }

  /** minimize_automat */
  method Minimize(h: Heap, ndfa: Automaton) returns (err: Err)
    requires h.Valid() && (ndfa.IsFree() || (ndfa.Valid(h) && ndfa.states != [] && Reversible(h.node, ndfa.states)))
    modifies ndfa, h
    ensures h.Valid() && Untouched(old(h.node), h.node, {})
    ensures old(ndfa.IsFree()) ==> err == EINVAL
    ensures h.Since(old(h.owner), old(h.mmans)) && (err == EINVAL ==> unchanged(ndfa))
    ensures !old(ndfa.IsFree()) ==>
      old(ndfa.states) != [] && (err == EINVAL <==> InvertedToEnd(old(h.node), old(ndfa.states)))
    ensures err == OK ==> ndfa.Valid(h) && ndfa.isDFA && old(h.mmans) < ndfa.mman
    ensures err == OK ==> Built(old(h.node), h.node, {}, ndfa.states, old(ndfa.Lang(h)))
    ensures err == OK ==>
      Deterministic(h.node, ndfa.states) && Acyclic(h.node, ndfa.states) && Minimal(h.node, ndfa.states)
    ensures err == OK ==> (FullyMinimal(h.node, ndfa.states) <==> !StartDoubled(old(ndfa.Lang(h))))
  {
    hide FullyMinimal, StartDoubled, WellFormed, Ranked, Reversible, BackRanked, LangOf, Built, ReversalOf, DfaResult,
      Made, MeetsInverted, InvertedToEnd, Reads, Deterministic, Upright, Minimal, OwnedBy, Stays, Heap.Valid;
    ghost var g0, st := h.node, ndfa.states;
    var ndfa2 := new Automaton();
    var ndfa3 := new Automaton();
    err := ndfa2.InitReverse(h, ndfa, 0);
    if err != OK {
      return;
    }
    ghost var g1, r1, o1 := h.node, ndfa2.states, h.owner;
    ReversalReady(g0, st, g1, r1);
    ReversalMeets(g0, st, g1, r1);
    ghost var gs, Q0, sub;
    err, gs, Q0, sub := MakeDfa(h, ndfa2);
    StaysTwice(old(h.owner), o1, h.owner);
    if err != OK {
      UntouchedNew(g0, g1, h.node, r1);
      return;
    }
    ghost var g2, d1, o2 := h.node, ndfa2.states, h.owner;
    FirstHalf(g0, st, g1, r1, g2, d1, gs, Q0, sub);
    err := ndfa3.InitReverse(h, ndfa2, 0);
    ghost var g3, r2, o3 := h.node, ndfa3.states, h.owner;
    StaysTwice(old(h.owner), o2, o3);
    AcyclicReversible(g2, d1);
    ReversalReady(g2, d1, g3, r2);
    ndfa2.Free();
    NeverMeets(g2, d1, g3, r2);
    err, gs, Q0, sub := MakeDfa(h, ndfa3);
    StaysTwice(old(h.owner), o3, h.owner);
    SecondHalf(g0, st, g2, d1, g3, r2, h.node, ndfa3.states, gs, Q0, sub);
    ndfa.Free();
    ndfa.InitMove(ndfa3);
  }

  lemma ReversalReady(g: Graph, st: seq<nat>, g1: Graph, r: seq<nat>)
    requires st != [] && Reversible(g, st) && Built(g, g1, {}, r, Reversed(LangOf(g, st))) && ReversalOf(g, st, g1, r)
    ensures WellFormed(g1, r) && r != [] && Ranked(g1, r)
  {
    hide LangOf, Reversible, Ranked, BackRanked, ReverseOf;
  }

  lemma UntouchedNew(g0: Graph, g1: Graph, g2: Graph, r: seq<nat>)
    requires Untouched(g1, g2, States(r)) && exists L :: Built(g0, g1, {}, r, L)
    ensures Untouched(g0, g2, {})
  {
    hide LangOf;
    var L :| Built(g0, g1, {}, r, L);
    forall p | p in g0 ensures p in g2 && g2[p] == g0[p] {
      assert p in States(r) ==> p in r;
    }
  }
}
