/** makedfa_automat, and intersection, difference and complement of automata. */
module DfaOps {
  import opened Graphs
  import opened Languages
  import opened Thompson
  import opened Chains
  import opened Glue
  import opened Profiles
  import opened Automata
  import opened Shortcut
  import opened Subset
  import opened Determinize
  import opened Visiting
  import Exploring
  import Scanning

  /** The states of an automaton are among those allocated. */
  lemma StatesBelow(h: Heap, src: Source, base: nat, v: Scanning.Vecs, dfa: seq<nat>, raw: Graph, g: Graph)
    requires h.Valid() && Complete(src, base, v, dfa, raw) && base == h.top && g.Keys == raw.Keys + {base}
    ensures forall p :: p in g ==> h.top <= p < h.top + 1 + |v.vecs|
  {
    hide Exploring.Explored;
    NotBase(src, base, v, dfa, raw);
  }

  lemma TargetsKnown(src: Source, base: nat, v: Scanning.Vecs, dfa: seq<nat>, raw: Graph)
    requires Complete(src, base, v, dfa, raw)
    ensures forall s, t :: s in raw && t in raw[s].ranges ==> t.target < |dfa|
  {
    hide Complete;
    forall s, t | s in raw && t in raw[s].ranges ensures t.target < |dfa| {
      RawAt(src, base, v, dfa, raw, s);
      var i :| 0 <= i < |raw[s].ranges| && raw[s].ranges[i] == t;
      assert Hit(t, t.from) && Sends(raw[s].ranges, t.from, t.target);
    }
  }

  lemma PlacedStates(h: Heap, g: Graph, base: nat, dfa: seq<nat>, raw: Graph, order: seq<nat>, m: nat)
    requires h.Valid() && g.Keys == raw.Keys + {base} && (forall p :: p in order ==> p in raw)
    requires forall p :: p in g ==> h.top <= p
    ensures var o := OwnersWith(h.owner, g.Keys, m); OwnedBy(o, order + [base], m) && Stays(h.owner, o)
    ensures forall p :: p in order + [base] ==> p !in h.node
  {
    OwnersAdded(h.owner, g.Keys, m, order + [base]);
  }

  lemma PlacedFrame(g: Graph, g': Graph, base: nat, dfa: seq<nat>, raw: Graph)
    requires Placed(g, base, dfa, raw) && g.Keys <= g'.Keys && forall p :: p in g ==> g'[p] == g[p]
    ensures Placed(g', base, dfa, raw)
  {
  }

  /** The subset construction, after chains of empty transitions have been shortened. */
  method Construct(h: Heap, st1: seq<nat>, st2: seq<nat>, op: Op, m: nat)
    returns (err: Err, st: seq<nat>, ghost Q0: set<nat>, ghost sub: Subsets)
    requires h.Valid() && Operands(h.node, op, st1, st2) && 0 < m <= h.mmans
    modifies h`node, h`top, h`owner
    ensures h.Valid() && Stays(old(h.owner), h.owner) && (err == OK ==> OwnedBy(h.owner, st, m))
    ensures err == EINVAL ==> h.node == old(h.node)
    ensures st1 != [] && (op != ONE ==> st2 != []) && (err == EINVAL <==> MeetsInverted(old(h.node), op, st1, st2))
    ensures err == OK ==> forall p :: p in old(h.node) ==> p in h.node && h.node[p] == old(h.node)[p]
    ensures err == OK ==> forall p :: p in st ==> p !in old(h.node)
    ensures err == OK ==> SubsetDfa(SourceOf(old(h.node), op, st1, st2), Q0, h.node, st, sub)
    ensures err == OK ==> IsClosure(old(h.node), Starts(op, st1, st2), Q0)
  {
    hide Complete, SubsetDfa, IsClosure, EpsClosed, Operands, MeetsInverted, VisitsInverted, Placed, Scanning.Flagged,
      Proper, OwnedBy, Stays, Heap.Valid;
    StaysSame(h.owner);
    OperandsParts(h.node, st1, st2, op);
    ghost var src := SourceOf(h.node, op, st1, st2);
    OperandsProper(h.node, op, st1, st2);
    var nrdfa, nrend := InitFlags(st1, st2, op);
    var start := StartVector(h.node, st1, st2, op);
    VisitsMeets(h.node, op, st1, st2, States(start));
    var base := h.top;
    var v, dfa, raw, order;
    err, v, dfa, raw, order := Explore(src, h.node, op, nrdfa, nrend, start, base);
    st, Q0, sub := [], {}, map[];
    if err != OK {
      return;
    }
    NotBase(src, base, v, dfa, raw);
    TargetsKnown(src, base, v, dfa, raw);
    var g := ConvertAll(raw, order, dfa, base);
    StatesBelow(h, src, base, v, dfa, raw, g);
    PlacedStates(h, g, base, dfa, raw, order, m);
    h.Place(g, 1 + |v.vecs|, m);
    PlacedFrame(g, h.node, base, dfa, raw);
    SubsetBuilt(src, base, v, dfa, raw, h.node, order);
    st := order + [base];
    Q0, sub := States(v.vecs[0]), SubsetsOf(base, v, raw);
  }

  lemma OperandsParts(g: Graph, st1: seq<nat>, st2: seq<nat>, op: Op)
    requires Operands(g, op, st1, st2)
    ensures |st1| >= 2 && Disjoint(st1, st2) && (op == ONE <==> st2 == [])
  {
  }

  /** Shortening one automaton keeps its language, and does not touch another one. */
  lemma ShortenedLang(g: Graph, g1: Graph, st: seq<nat>)
    requires WellFormed(g, st) && WellFormed(g1, st) && Simplified(g, g1, st)
    ensures LangOf(g1, st) == LangOf(g, st)
  {
    hide Reads;
    EndNotSingle(g, st);
    hide WellFormed, Single;
  }

  lemma EndNotSingle(g: Graph, st: seq<nat>)
    requires WellFormed(g, st)
    ensures st != [] && !Single(g, End(st))
  {
  }

  lemma ShortenedBeside(g: Graph, g1: Graph, st1: seq<nat>, st2: seq<nat>)
    requires WellFormed(g, st2) && Disjoint(st1, st2) && Simplified(g, g1, st1)
    ensures WellFormed(g1, st2) && LangOf(g1, st2) == LangOf(g, st2)
    ensures Ranked(g, st2) ==> Ranked(g1, st2)
  {
    forall p | p in st2 ensures p in g && p in g1 && g1[p] == g[p] {
      EdgesStay(g, st2, p);
    }
    hide Simplified;
    LangFrame(g, g1, st2);
    if f: Rank :| RankedBy(g, st2, f) {
      assert RankedBy(g1, st2, f);
    }
  }

  /** The end of the chain that starts in x. */
  lemma {:induction false} ChainEnd(g: Graph, st: seq<nat>, f: Rank, x: nat) returns (z: nat)
    requires WellFormed(g, st) && RankedBy(g, st, f) && x in st
    ensures z in st && !Single(g, z) && Reads(g, x, [], z)
    decreases Of(f, x)
  {
    z := x;
    if Single(g, x) {
      EdgesStay(g, st, x);
      var y := g[x].empty[0];
      z := ChainEnd(g, st, f, y);
      EpsThenReads(g, x, y, [], z);
    } else {
      ReadsNothing(g, x);
    }
  }

  /** Shortening chains does not change how far words lead. */
  lemma GoesOnKept(g: Graph, g': Graph, stx: seq<nat>, st: seq<nat>, u: Word)
    requires Simplified(g, g', stx) && WellFormed(g, st) && Ranked(g, st)
    ensures st != [] && (GoesOn(g, st, u) <==> GoesOn(g', st, u))
  {
    hide Reads, WellFormed, Single, RankedBy;
    Lengths(g, st);
    if x :| x in st && Reads(g, Start(st), u, x) {
      var f: Rank :| RankedBy(g, st, f);
      var z := ChainEnd(g, st, f, x);
      ReadsConcat(g, Start(st), u, x, [], z);
      assert u + [] == u;
    }
  }

  lemma InvertedKept(g: Graph, g': Graph, st: seq<nat>, p: nat)
    requires Simplified(g, g', st)
    ensures HasInverted(g, p) <==> HasInverted(g', p)
    ensures HasInverted(g, p) ==> !Single(g, p)
  {
    hide SameReads;
    if p in g {
      assert SameRanges(g[p], g'[p]);
      var a, b := g[p].ranges, g'[p].ranges;
      if t :| t in a && t.from > t.to {
        var i :| 0 <= i < |a| && a[i] == t;
        assert b[i] in b;
      }
      if t :| t in b && t.from > t.to {
        var i :| 0 <= i < |b| && b[i] == t;
        assert a[i] in a;
      }
    }
  }

  /** Shortening chains does not change whether the construction fails. */
  lemma MeetsKept(g: Graph, g': Graph, stx: seq<nat>, op: Op, st1: seq<nat>, st2: seq<nat>)
    requires Simplified(g, g', stx) && WellFormed(g, st1) && Ranked(g, st1)
    requires op != ONE ==> WellFormed(g, st2) && Ranked(g, st2)
    ensures st1 != [] && (op != ONE ==> st2 != [])
    ensures MeetsInverted(g, op, st1, st2) <==> MeetsInverted(g', op, st1, st2)
  {
    hide Reads, WellFormed, Single, Ranked, GoesOn, HasInverted, NoSingle, SameRanges;
    Lengths(g, st1);
    if op != ONE { Lengths(g, st2); }
    forall u: Word, p: nat ensures InvertedAfter(g, op, st1, st2, u, p) <==> InvertedAfter(g', op, st1, st2, u, p) {
      InvertedKept(g, g', stx, p);
      GoesOnKept(g, g', stx, st1, u);
      if op != ONE { GoesOnKept(g, g', stx, st2, u); }
    }
  }

  /** The automaton st2 has been built by op out of the automata st1 and st2. */
  ghost predicate DfaResult(g: Graph, op: Op, st1: seq<nat>, st2: seq<nat>, g': Graph, st': seq<nat>) {
    && st1 != [] && (op != ONE ==> st2 != [])
    && Built(g, g', States(st1) + States(st2), st', OpLang(g, op, st1, st2))
    && Acyclic(g', st') && Upright(g', st') && Deterministic(g', st')
    && ProfileOf(g', st') == OpProfile(g, op, st1, st2)
  }

  /** The result has no range from > to; a word leads somewhere if it does in the automata that are needed. */
  ghost function OpProfile(g: Graph, op: Op, st1: seq<nat>, st2: seq<nat>): Profile
    requires st1 != [] && (op != ONE ==> st2 != [])
  {
    var p1 := ProfileOf(g, st1);
    Profile(if op == AND then p1.goes * ProfileOf(g, st2).goes else p1.goes, iset{}, false)
  }

  lemma OpProfileDone(g: Graph, op: Op, st1: seq<nat>, st2: seq<nat>, g': Graph, st': seq<nat>)
    requires st1 != [] && (op != ONE ==> st2 != []) && st' != [] && Upright(g', st')
    requires forall u: Word :: GoesOn(g', st', u) <==> OpGoes(g, op, st1, st2, u)
    ensures ProfileOf(g', st') == OpProfile(g, op, st1, st2)
  {
    hide GoesOn, HotAfter, InvertedToEnd, Led;
    UprightProfile(g', st');
    forall u: Word ensures u in ProfileOf(g', st').goes <==> u in OpProfile(g, op, st1, st2).goes {
      ProfileWords(g', st', u);
      ProfileWords(g, st1, u);
      if op == AND { ProfileWords(g, st2, u); }
    }
  }

  lemma OpGoesKept(g: Graph, g': Graph, stx: seq<nat>, op: Op, st1: seq<nat>, st2: seq<nat>)
    requires Simplified(g, g', stx) && WellFormed(g, st1) && Ranked(g, st1)
    requires op != ONE ==> WellFormed(g, st2) && Ranked(g, st2)
    ensures st1 != [] && (op != ONE ==> st2 != [])
    ensures forall u: Word :: OpGoes(g, op, st1, st2, u) <==> OpGoes(g', op, st1, st2, u)
  {
    hide Simplified, WellFormed, Ranked, GoesOn;
    Lengths(g, st1);
    if op != ONE { Lengths(g, st2); }
    forall u: Word ensures OpGoes(g, op, st1, st2, u) <==> OpGoes(g', op, st1, st2, u) {
      GoesOnKept(g, g', stx, st1, u);
      if op != ONE { GoesOnKept(g, g', stx, st2, u); }
    }
  }

  /** The words that are followed to the end of the determinisation. */
  ghost function Followed(op: Op, p1: Profile, p2: Profile): Lang {
    if op == AND then p1.goes * p2.goes else p1.goes
  }

  lemma HotBy(g: Graph, st: seq<nat>, u: Word, p: nat)
    requires WellFormed(g, st) && Reads(g, Start(st), u, p) && HasInverted(g, p)
    ensures HotAfter(g, st, u)
  {
    var n: nat :| Go(g, Start(st), u, p, n);
    assert Start(st) in States(st);
    GoStays(g, States(st), Start(st), u, p, n);
  }

  lemma MeetsProfile(g: Graph, op: Op, st1: seq<nat>, st2: seq<nat>)
    requires op != ONE && WellFormed(g, st1) && WellFormed(g, st2)
    ensures st1 != [] && st2 != []
    ensures (var p1, p2 := ProfileOf(g, st1), ProfileOf(g, st2);
      MeetsInverted(g, op, st1, st2) <==> Overlap(p1.hots + p2.hots, Followed(op, p1, p2)))
  {
    hide WellFormed, Reads, HasInverted, ProfileOf, GoesOn;
    Lengths(g, st1);
    Lengths(g, st2);
    var p1, p2 := ProfileOf(g, st1), ProfileOf(g, st2);
    if u: Word, p: nat :| InvertedAfter(g, op, st1, st2, u, p) {
      ProfileWords(g, st1, u);
      ProfileWords(g, st2, u);
      if Reads(g, Start(st1), u, p) { HotBy(g, st1, u, p); } else { HotBy(g, st2, u, p); }
      StartGoes(g, st1);
      StartGoes(g, st2);
      assert u in p1.hots + p2.hots && u in Followed(op, p1, p2);
    }
    if u: Word :| u in p1.hots + p2.hots && u in Followed(op, p1, p2) {
      ProfileWords(g, st1, u);
      ProfileWords(g, st2, u);
      var p := HotState(g, st1, st2, u);
      assert InvertedAfter(g, op, st1, st2, u, p);
    }
  }

  lemma HotState(g: Graph, st1: seq<nat>, st2: seq<nat>, u: Word) returns (p: nat)
    requires st1 != [] && st2 != [] && (HotAfter(g, st1, u) || HotAfter(g, st2, u))
    ensures HasInverted(g, p) && (Reads(g, Start(st1), u, p) || Reads(g, Start(st2), u, p))
  {
    hide Reads;
    if HotAfter(g, st1, u) {
      p :| p in st1 && HasInverted(g, p) && Reads(g, Start(st1), u, p);
    } else {
      p :| p in st2 && HasInverted(g, p) && Reads(g, Start(st2), u, p);
    }
  }

  /** opnot_automat fails if a word of characters up to MAXCHAR leads to a range from > to. */
  lemma MeetsUpToProfile(g: Graph, st: seq<nat>)
    requires WellFormed(g, st)
    ensures st != []
    ensures MeetsUpTo(g, st, MAXCHAR) <==> Overlap(ProfileOf(g, st).hots, WordsUpTo(MAXCHAR))
  {
    hide WellFormed, Reads, HasInverted, ProfileOf, WordsUpTo;
    Lengths(g, st);
    if u: Word, p :| u in WordsUpTo(MAXCHAR) && Reads(g, Start(st), u, p) && HasInverted(g, p) {
      HotBy(g, st, u, p);
      ProfileWords(g, st, u);
    }
    if u: Word :| u in ProfileOf(g, st).hots && u in WordsUpTo(MAXCHAR) {
      ProfileWords(g, st, u);
      var p := HotState(g, st, st, u);
    }
  }

  /** All nodes of g remain, and those outside of own are unchanged. */
  ghost predicate Untouched(g: Graph, g': Graph, own: set<nat>) {
    forall p :: p in g ==> p in g' && (p !in own ==> g'[p] == g[p])
  }

  lemma ResultDone(g: Graph, g1: Graph, op: Op, st1: seq<nat>, st2: seq<nat>, Q0: set<nat>, g': Graph, st': seq<nat>,
                   sub: Subsets)
    requires Operands(g1, op, st1, st2) && Untouched(g, g1, States(st1) + States(st2)) && g1.Keys == g.Keys
    requires OpLang(g1, op, st1, st2) == OpLang(g, op, st1, st2)
    requires (forall p :: p in g1 ==> p in g' && g'[p] == g1[p]) && (forall p :: p in st' ==> p !in g1)
    requires SubsetDfa(SourceOf(g1, op, st1, st2), Q0, g', st', sub) && IsClosure(g1, Starts(op, st1, st2), Q0)
    requires st1 != [] && (op != ONE ==> st2 != [])
    requires forall u: Word :: OpGoes(g, op, st1, st2, u) <==> OpGoes(g1, op, st1, st2, u)
    ensures DfaResult(g, op, st1, st2, g', st')
  {
    hide Acyclic, Upright, Deterministic, IsClosure, OpLang, LangOf, GoesOn, OpGoes, ProfileOf, OpProfile;
    OperandsParts(g1, st1, st2, op);
    SubsetLang(g1, op, st1, st2, Q0, g', st', sub);
    SubsetDeterministic(SourceOf(g1, op, st1, st2), Q0, g', st', sub);
    DeterministicAcyclic(g', st');
    DeterministicUpright(g', st');
    forall u: Word ensures GoesOn(g', st', u) <==> OpGoes(g, op, st1, st2, u) {
      SubsetGoes(g1, op, st1, st2, Q0, g', st', sub, u);
    }
    OpProfileDone(g, op, st1, st2, g', st');
  }

  /** The subset automaton st' of st, after chains of empty transitions have been shortened in g1. */
  ghost predicate Made(g: Graph, st: seq<nat>, g1: Graph, Q0: set<nat>, g': Graph, st': seq<nat>, sub: Subsets) {
    && st != [] && Simplified(g, g1, st) && Operands(g1, ONE, st, [])
    && SubsetDfa(SourceOf(g1, ONE, st, []), Q0, g', st', sub) && IsClosure(g1, {Start(st)}, Q0)
  }

  lemma ResultFormed(g: Graph, op: Op, st1: seq<nat>, st2: seq<nat>, g': Graph, st': seq<nat>)
    requires DfaResult(g, op, st1, st2, g', st')
    ensures WellFormed(g', st')
  {
  }

  /** makedfa_automat */
  method MakeDfa(h: Heap, ndfa: Automaton) returns (err: Err, ghost g1: Graph, ghost Q0: set<nat>, ghost sub: Subsets)
    requires h.Valid() && (ndfa.IsFree() || (ndfa.Valid(h) && Ranked(h.node, ndfa.states)))
    modifies ndfa, h
    ensures h.Valid() && Untouched(old(h.node), h.node, States(old(ndfa.states)))
    ensures h.Since(old(h.owner), old(h.mmans)) && (err == EINVAL ==> unchanged(ndfa))
    ensures old(ndfa.IsFree()) ==> err == EINVAL
    ensures err == EINVAL && !old(ndfa.IsFree()) ==> ndfa.Valid(h) && ndfa.Lang(h) == old(ndfa.Lang(h))
    ensures !old(ndfa.IsFree()) ==>
      old(ndfa.states) != [] && (err == EINVAL <==> MeetsInverted(old(h.node), ONE, old(ndfa.states), []))
    ensures err == OK ==>
      ndfa.Valid(h) && ndfa.isDFA && DfaResult(old(h.node), ONE, old(ndfa.states), [], h.node, ndfa.states)
    ensures err == OK ==> old(h.mmans) < ndfa.mman
    ensures err == OK ==> Made(old(h.node), old(ndfa.states), g1, Q0, h.node, ndfa.states, sub)
  {
    hide WellFormed, Ranked, LangOf, MeetsInverted, SubsetDfa, IsClosure, DfaResult, Simplified, Shortened,
      OwnedBy, Stays, Heap.Valid, OpGoes;
    StaysSame(h.owner);
    g1, Q0, sub := map[], {}, map[];
    if ndfa.mman == 0 {
      return EINVAL, g1, Q0, sub;
    }
    ghost var g, st := h.node, ndfa.states;
    var short := RemoveSingleEmptyTransitions(h.node, ndfa.states);
    SimplifiedKeeps(g, short, st);
    h.Replace(short);
    g1 := short;
    OneOperand(g, g1, st);
    MeetsKept(g, g1, st, ONE, st, []);
    OpGoesKept(g, g1, st, ONE, st, []);
    var mman := h.NewMman();
    var states;
    err, states, Q0, sub := Construct(h, ndfa.states, [], ONE, mman);
    OwnedStays(old(h.owner), h.owner, st, ndfa.mman);
    if err != OK {
      return;
    }
    ResultDone(g, g1, ONE, st, [], Q0, h.node, states, sub);
    ResultFormed(g, ONE, st, [], h.node, states);
    ndfa.states, ndfa.mman, ndfa.isDFA := states, mman, true;
  }

  lemma SimplifiedKeeps(g: Graph, g1: Graph, st: seq<nat>)
    requires Simplified(g, g1, st)
    ensures g1.Keys == g.Keys && Untouched(g, g1, States(st))
  {
    hide SameReads;
  }

  lemma OneOperand(g: Graph, g1: Graph, st: seq<nat>)
    requires WellFormed(g, st) && WellFormed(g1, st) && Simplified(g, g1, st)
    ensures st != [] && Operands(g1, ONE, st, []) && Untouched(g, g1, States(st) + States([])) && g1.Keys == g.Keys
    ensures Starts(ONE, st, []) == {Start(st)}
    ensures LangOf(g1, st) == LangOf(g, st) && OpLang(g1, ONE, st, []) == OpLang(g, ONE, st, [])
  {
    hide SameReads;
    ShortenedLang(g, g1, st);
  }

  /** Both automata have been shortened. */
  lemma TwoOperands(g: Graph, ga: Graph, g1: Graph, op: Op, st1: seq<nat>, st2: seq<nat>)
    requires op != ONE && WellFormed(g, st1) && WellFormed(g, st2) && Disjoint(st1, st2)
    requires WellFormed(ga, st1) && Simplified(g, ga, st1)
    requires WellFormed(g1, st2) && Simplified(ga, g1, st2)
    ensures st1 != [] && st2 != []
    ensures Operands(g1, op, st1, st2) && Untouched(g, g1, States(st1) + States(st2)) && g1.Keys == g.Keys
    ensures LangOf(g1, st1) == LangOf(g, st1) && LangOf(g1, st2) == LangOf(g, st2)
    ensures OpLang(g1, op, st1, st2) == OpLang(g, op, st1, st2)
  {
    hide Simplified, WellFormed, LangOf;
    Lengths(g, st1);
    Lengths(g, st2);
    ShortenedLang(g, ga, st1);
    ShortenedBeside(g, ga, st1, st2);
    ShortenedLang(ga, g1, st2);
    ShortenedBeside(ga, g1, st2, st1);
    SimplifiedKeeps(g, ga, st1);
    SimplifiedKeeps(ga, g1, st2);
  }

  lemma Lengths(g: Graph, st: seq<nat>)
    requires WellFormed(g, st)
    ensures |st| >= 2 && States(st) <= g.Keys
  {
  }

  /** makedfa2_automat */
  method MakeDfa2(h: Heap, ndfa: Automaton, op: Op, ndfa2: Automaton) returns (err: Err)
    requires op != ONE && ndfa != ndfa2 && h.Valid() && Disjoint(ndfa.states, ndfa2.states)
    requires ndfa.IsFree() || (ndfa.Valid(h) && Ranked(h.node, ndfa.states))
    requires ndfa2.IsFree() || (ndfa2.Valid(h) && Ranked(h.node, ndfa2.states))
    modifies ndfa, h
    ensures h.Valid() && Untouched(old(h.node), h.node, States(old(ndfa.states)) + States(ndfa2.states))
    ensures old(ndfa.IsFree() || ndfa2.IsFree()) ==> err == EINVAL && h.node == old(h.node)
    ensures h.Since(old(h.owner), old(h.mmans)) && (err == EINVAL ==> unchanged(ndfa))
    ensures err == EINVAL && !old(ndfa.IsFree() || ndfa2.IsFree()) ==>
      ndfa.Valid(h) && ndfa.Lang(h) == old(ndfa.Lang(h))
    ensures err == EINVAL && !old(ndfa.IsFree() || ndfa2.IsFree()) ==>
      ndfa2.Valid(h) && ndfa2.Lang(h) == old(ndfa2.Lang(h))
    ensures !old(ndfa.IsFree() || ndfa2.IsFree()) ==> (
      && old(ndfa.states) != [] && ndfa2.states != []
      && (err == EINVAL <==> MeetsInverted(old(h.node), op, old(ndfa.states), ndfa2.states)))
    ensures err == OK ==> ndfa.Valid(h) && ndfa.isDFA && old(h.mmans) < ndfa.mman
    ensures err == OK ==> DfaResult(old(h.node), op, old(ndfa.states), ndfa2.states, h.node, ndfa.states)
  {
    hide WellFormed, Ranked, LangOf, MeetsInverted, SubsetDfa, IsClosure, DfaResult, Simplified, Shortened, Operands,
      OpLang, OwnedBy, Stays, Heap.Valid, OpGoes;
    StaysSame(h.owner);
    if ndfa.mman == 0 || ndfa2.mman == 0 {
      return EINVAL;
    }
    ghost var g, st1, st2 := h.node, ndfa.states, ndfa2.states;
    Lengths(g, st1);
    Lengths(g, st2);
    var short := RemoveSingleEmptyTransitions(h.node, ndfa.states);
    ShortenedBeside(g, short, st1, st2);
    var short2 := RemoveSingleEmptyTransitions(short, ndfa2.states);
    TwoOperands(g, short, short2, op, st1, st2);
    MeetsKept(g, short, st1, op, st1, st2);
    MeetsKept(short, short2, st2, op, st1, st2);
    OpGoesKept(g, short, st1, op, st1, st2);
    OpGoesKept(short, short2, st2, op, st1, st2);
    h.Replace(short2);
    var mman := h.NewMman();
    var states;
    ghost var Q0, sub;
    err, states, Q0, sub := Construct(h, ndfa.states, ndfa2.states, op, mman);
    OwnedStays(old(h.owner), h.owner, st1, ndfa.mman);
    OwnedStays(old(h.owner), h.owner, st2, ndfa2.mman);
    if err != OK {
      OperandsFormed(short2, op, st1, st2);
      return;
    }
    ResultDone(g, short2, op, st1, st2, Q0, h.node, states, sub);
    ResultFormed(g, op, st1, st2, h.node, states);
    ndfa.states, ndfa.mman, ndfa.isDFA := states, mman, true;
  }

  lemma OperandsFormed(g: Graph, op: Op, st1: seq<nat>, st2: seq<nat>)
    requires Operands(g, op, st1, st2) && op != ONE
    ensures WellFormed(g, st1) && WellFormed(g, st2)
  {
  }

  /** opand_automat, opandnot_automat */
  method Combine(h: Heap, ndfa: Automaton, op: Op, ndfa2: Automaton) returns (err: Err)
    requires op != ONE && ndfa != ndfa2 && h.Valid() && Disjoint(ndfa.states, ndfa2.states)
    requires ndfa.IsFree() || (ndfa.Valid(h) && Ranked(h.node, ndfa.states))
    requires ndfa2.IsFree() || (ndfa2.Valid(h) && Ranked(h.node, ndfa2.states))
    modifies ndfa, ndfa2, h
    ensures h.Valid() && Untouched(old(h.node), h.node, States(old(ndfa.states)) + States(old(ndfa2.states)))
    ensures old(ndfa.IsFree() || ndfa2.IsFree()) ==> err == EINVAL && h.node == old(h.node)
    ensures h.Since(old(h.owner), old(h.mmans)) && (err == EINVAL ==> unchanged(ndfa))
    ensures err == EINVAL ==> unchanged(ndfa2)
    ensures err == EINVAL && !old(ndfa.IsFree() || ndfa2.IsFree()) ==>
      ndfa.Valid(h) && ndfa.Lang(h) == old(ndfa.Lang(h))
    ensures err == EINVAL && !old(ndfa.IsFree() || ndfa2.IsFree()) ==>
      ndfa2.Valid(h) && ndfa2.Lang(h) == old(ndfa2.Lang(h))
    ensures !old(ndfa.IsFree() || ndfa2.IsFree()) ==> (
      && old(ndfa.states) != [] && old(ndfa2.states) != []
      && (err == EINVAL <==> MeetsInverted(old(h.node), op, old(ndfa.states), old(ndfa2.states))))
    ensures err == OK ==> ndfa.Valid(h) && ndfa.isDFA && old(h.mmans) < ndfa.mman && ndfa2.IsFree()
    ensures err == OK ==> DfaResult(old(h.node), op, old(ndfa.states), old(ndfa2.states), h.node, ndfa.states)
  {
    hide WellFormed, Ranked, LangOf, MeetsInverted, DfaResult, OwnedBy, Stays, Heap.Valid;
    err := MakeDfa2(h, ndfa, op, ndfa2);
    if err == OK {
      ndfa2.Free();
    }
  }

  /** opnot_automat: all words over [0..MAXCHAR] that ndfa does not accept. */
  method OpNot(h: Heap, ndfa: Automaton) returns (err: Err)
    requires h.Valid() && (ndfa.IsFree() || (ndfa.Valid(h) && Ranked(h.node, ndfa.states)))
    modifies ndfa, h
    ensures h.Valid() && Untouched(old(h.node), h.node, States(old(ndfa.states)))
    ensures old(ndfa.IsFree()) ==> err == EINVAL && h.node == old(h.node)
    ensures h.Since(old(h.owner), old(h.mmans)) && (err == EINVAL ==> unchanged(ndfa))
    ensures err == EINVAL && !old(ndfa.IsFree()) ==> ndfa.Valid(h) && ndfa.Lang(h) == old(ndfa.Lang(h))
    ensures !old(ndfa.IsFree()) ==>
      old(ndfa.states) != [] && (err == EINVAL <==> MeetsUpTo(old(h.node), old(ndfa.states), MAXCHAR))
    ensures err == OK ==> ndfa.Valid(h) && ndfa.isDFA && old(h.mmans) < ndfa.mman
    ensures err == OK ==> Acyclic(h.node, ndfa.states) && Upright(h.node, ndfa.states)
    ensures err == OK ==> Deterministic(h.node, ndfa.states)
    ensures err == OK ==> Built(old(h.node), h.node, States(old(ndfa.states)), ndfa.states,
      WordsUpTo(MAXCHAR) - old(ndfa.Lang(h)))
    ensures err == OK ==> ndfa.states != [] && ndfa.Profile(h) == Profile(WordsUpTo(MAXCHAR), iset{}, false)
  {
    hide WellFormed, Ranked, LangOf, MeetsInverted, MeetsUpTo, RangesUpTo, DfaResult, GlueResult, Built, Acyclic,
      Upright, Deterministic, OwnedBy, Stays, Heap.Valid, ProfileOf;
    StaysSame(h.owner);
    if ndfa.mman == 0 {
      return EINVAL;
    }
    ghost var g, st := h.node, ndfa.states;
    var all := new Automaton();
    AllWords(h, ndfa.mman, all, ndfa);
    ghost var g1, st1 := h.node, all.states;
    Lengths(g1, st1);
    ghost var o := h.owner;
    err := MakeDfa2(h, all, AND_NOT, ndfa);
    StaysTwice(old(h.owner), o, h.owner);
    OwnedStays(old(h.owner), h.owner, st, ndfa.mman);
    UntouchedTwice(g, g1, h.node, st1, st);
    NotInverted(g, g1, st1, st);
    if err == OK {
      NotDone(g, g1, st1, st, h.node, all.states);
      NotProfile(g1, st1, st, h.node, all.states);
      ndfa.Free();
      ndfa.InitMove(all);
    }
  }

  lemma UntouchedTwice(g: Graph, g1: Graph, g': Graph, st1: seq<nat>, st: seq<nat>)
    requires Untouched(g, g1, {}) && Untouched(g1, g', States(st1) + States(st)) && forall p :: p in st1 ==> p !in g
    ensures Untouched(g, g', States(st))
  {
  }

  lemma NotProfile(g1: Graph, st1: seq<nat>, st: seq<nat>, g': Graph, st': seq<nat>)
    requires DfaResult(g1, AND_NOT, st1, st, g', st') && WellFormed(g1, st1) && st1 != []
    requires RangesUpTo(g1, st1, MAXCHAR) && LangOf(g1, st1) == WordsUpTo(MAXCHAR)
    ensures st' != [] && WellFormed(g', st') && ProfileOf(g', st') == Profile(WordsUpTo(MAXCHAR), iset{}, false)
  {
    hide Acyclic, Upright, Deterministic, LangOf, WellFormed, RangesUpTo, WordsUpTo, GoesOn, HotAfter, InvertedToEnd,
      Led;
    Lengths(g', st');
    forall u: Word ensures u in ProfileOf(g1, st1).goes <==> u in WordsUpTo(MAXCHAR) {
      ProfileWords(g1, st1, u);
      GoesUpTo(g1, st1, u);
    }
  }

  lemma NotDone(g: Graph, g1: Graph, st1: seq<nat>, st: seq<nat>, g': Graph, st': seq<nat>)
    requires Untouched(g, g1, {}) && (forall p :: p in st1 ==> p !in g) && WellFormed(g, st)
    requires DfaResult(g1, AND_NOT, st1, st, g', st') && st1 != [] && LangOf(g1, st1) == WordsUpTo(MAXCHAR)
    ensures Built(g, g', States(st), st', WordsUpTo(MAXCHAR) - LangOf(g, st))
    ensures Acyclic(g', st') && Upright(g', st') && Deterministic(g', st')
  {
    hide Acyclic, Upright, Deterministic;
    Lengths(g, st);
    assert Agree(g, g1, States(st));
    LangFrame(g, g1, st);
    hide WellFormed, LangOf;
  }

  /** When opnot_automat fails: a word of characters up to max leads to a range from > to. */
  ghost predicate MeetsUpTo(g: Graph, st: seq<nat>, max: Char32)
    requires st != []
  {
    exists u: Word, p :: u in WordsUpTo(max) && Reads(g, Start(st), u, p) && HasInverted(g, p)
  }

  lemma NotInverted(g: Graph, g1: Graph, all: seq<nat>, st: seq<nat>)
    requires Untouched(g, g1, {}) && WellFormed(g, st) && WellFormed(g1, all) && WellFormed(g1, st) && Upright(g1, all)
    requires all != [] && RangesUpTo(g1, all, MAXCHAR) && LangOf(g1, all) == WordsUpTo(MAXCHAR)
    ensures st != [] && (MeetsInverted(g1, AND_NOT, all, st) <==> MeetsUpTo(g, st, MAXCHAR))
  {
    hide Reads, WellFormed, WordsUpTo, HasInverted, RangesUpTo;
    Lengths(g, st);
    SameFrom(g, g1, st);
    if u: Word, p: nat :| InvertedAfter(g1, AND_NOT, all, st, u, p) {
      if Reads(g1, Start(all), u, p) { UprightFrom(g1, all, u, p); }
      GoesUpTo(g1, all, u);
      NothingUpTo(MAXCHAR);
      assert u in WordsUpTo(MAXCHAR) && Reads(g, Start(st), u, p) && HasInverted(g, p);
    }
    if u: Word, p :| u in WordsUpTo(MAXCHAR) && Reads(g, Start(st), u, p) && HasInverted(g, p) {
      GoesUpTo(g1, all, u);
      assert InvertedAfter(g1, AND_NOT, all, st, u, p);
    }
  }

  lemma NothingUpTo(max: Char32)
    ensures [] in WordsUpTo(max)
  {
  }

  /** What has not been touched reads the same. */
  lemma SameFrom(g: Graph, g1: Graph, st: seq<nat>)
    requires Untouched(g, g1, {}) && WellFormed(g, st)
    ensures st != []
    ensures forall u: Word, p :: Reads(g, Start(st), u, p) <==> Reads(g1, Start(st), u, p)
    ensures forall u: Word, p :: Reads(g, Start(st), u, p) ==> (HasInverted(g, p) <==> HasInverted(g1, p))
  {
    Lengths(g, st);
    assert Start(st) in States(st) && Agree(g, g1, States(st));
    forall u: Word, p ensures Reads(g, Start(st), u, p) <==> Reads(g1, Start(st), u, p) {
      ReadsFrame(g, g1, States(st), Start(st), u, p);
    }
    forall u: Word, p | Reads(g, Start(st), u, p) ensures HasInverted(g, p) <==> HasInverted(g1, p) {
      StaysIn(g, st, u, p);
      assert p in States(st);
    }
  }

  lemma StaysIn(g: Graph, st: seq<nat>, u: Word, p: nat)
    requires WellFormed(g, st) && Reads(g, Start(st), u, p)
    ensures p in st
  {
    var n: nat :| Go(g, Start(st), u, p, n);
    assert Start(st) in States(st);
    GoStays(g, States(st), Start(st), u, p, n);
  }

  lemma UprightFrom(g: Graph, st: seq<nat>, u: Word, p: nat)
    requires WellFormed(g, st) && st != [] && Upright(g, st) && Reads(g, Start(st), u, p)
    ensures UprightAt(g, p)
  {
    StaysIn(g, st, u, p);
  }

  /** All transitions are taken on characters up to max only. */
  ghost predicate RangesUpTo(g: Graph, st: seq<nat>, max: Char32) {
    forall p, t :: p in st && p in g && t in g[p].ranges ==> t.to <= max
  }

  /** The automaton of all words over [0..MAXCHAR] goes on after just these words. */
  lemma GoesUpTo(g: Graph, all: seq<nat>, u: Word)
    requires WellFormed(g, all) && all != [] && RangesUpTo(g, all, MAXCHAR) && LangOf(g, all) == WordsUpTo(MAXCHAR)
    ensures GoesOn(g, all, u) <==> u in WordsUpTo(MAXCHAR)
  {
    if x :| x in all && Reads(g, Start(all), u, x) {
      var n: nat :| Go(g, Start(all), u, x, n);
      GoUpTo(g, all, Start(all), u, x, n);
    }
    if u in WordsUpTo(MAXCHAR) {
      assert u in LangOf(g, all);
      assert Reads(g, Start(all), u, End(all)) && End(all) in all;
    }
  }

  lemma {:induction false} GoUpTo(g: Graph, st: seq<nat>, p: nat, u: Word, x: nat, n: nat)
    requires WellFormed(g, st) && p in st && RangesUpTo(g, st, MAXCHAR) && Go(g, p, u, x, n)
    ensures u in WordsUpTo(MAXCHAR)
    decreases n
  {
    if n > 0 {
      EdgesStay(g, st, p);
      if r :| Eps(g, p, r) && Go(g, r, u, x, n - 1) {
        GoUpTo(g, st, r, u, x, n - 1);
      } else {
        var r :| Chr(g, p, u[0], r) && Go(g, r, u[1..], x, n - 1);
        GoUpTo(g, st, r, u[1..], x, n - 1);
        assert forall i :: 1 <= i < |u| ==> u[i] == u[1..][i - 1];
      }
    }
  }

  /** The repetition of a single range. */
  lemma LoopUpTo(g: Graph, st1: seq<nat>, g': Graph, s: nat, e: nat)
    requires |st1| >= 2 && Matcher(g, st1) && g[Start(st1)].ranges == RangesTo([0], [MAXCHAR], End(st1))
    requires StarOf(g, st1, g', s, e)
    ensures RangesUpTo(g', [s] + st1 + [e], MAXCHAR)
  {
    var st := [s] + st1 + [e];
    assert st1 == [st1[0], st1[1]];
    assert st == [s, st1[0], st1[1], e];
  }

  /** The automaton of all words over [0..MAXCHAR]. */
  method AllWords(h: Heap, mman: nat, all: Automaton, ghost ndfa: Automaton)
    requires h.Valid() && ndfa.Valid(h) && Ranked(h.node, ndfa.states) && all != ndfa && 0 < mman <= h.mmans
    modifies all, h
    ensures h.Since(old(h.owner), old(h.mmans)) && all.mman == mman
    ensures h.Valid() && all.Valid(h) && Ranked(h.node, all.states) && all.Lang(h) == WordsUpTo(MAXCHAR)
    ensures Disjoint(all.states, ndfa.states) && Upright(h.node, all.states) && RangesUpTo(h.node, all.states, MAXCHAR)
    ensures Untouched(old(h.node), h.node, {}) && forall p :: p in all.states ==> p !in old(h.node)
    ensures ndfa.Valid(h) && Ranked(h.node, ndfa.states) && ndfa.Lang(h) == old(ndfa.Lang(h))
  {
    hide WellFormed, Ranked, LangOf, GlueResult, Built, Acyclic, Matcher, Upright, WordsUpTo, CharLang, Star, StarOf,
      RangesUpTo, OwnedBy, Stays, Heap.Valid;
    ghost var g, st := h.node, ndfa.states;
    all.InitMatch(h, mman, [0], [MAXCHAR]);
    ghost var g1, st1 := h.node, all.states;
    BuiltParts(g, g1, {}, st1, CharLang([0], [MAXCHAR]));
    MatchUpright(g1, st1);
    ghost var o := h.owner;
    var _ := all.OpRepeat(h, false);
    StaysTwice(old(h.owner), o, h.owner);
    OwnedStays(old(h.owner), h.owner, st, ndfa.mman);
    ghost var s, e :| StarOf(g1, st1, h.node, s, e) && all.states == [s] + st1 + [e];
    LoopUpTo(g1, st1, h.node, s, e);
    StarOfAll(MAXCHAR);
    AllDone(g, g1, st1, h.node, all.states, st);
  }

  lemma BuiltParts(g: Graph, g': Graph, own: set<nat>, st': seq<nat>, L: Lang)
    requires Built(g, g', own, st', L)
    ensures WellFormed(g', st') && |st'| >= 2 && LangOf(g', st') == L
  {
  }

  lemma MatchUpright(g: Graph, st: seq<nat>)
    requires |st| >= 2 && Matcher(g, st) && g[Start(st)].ranges == RangesTo([0], [MAXCHAR], End(st))
    ensures Upright(g, st)
  {
    assert UprightAt(g, st[0]) && UprightAt(g, st[1]);
  }

  lemma NoneUpright(g: Graph)
    ensures Upright(g, [])
  {
  }

  lemma AllUntouched(g: Graph, g1: Graph, st1: seq<nat>, g2: Graph, all: seq<nat>)
    requires Confined(g, g1, {}, st1) && Confined(g1, g2, States(st1) + States([]), all)
    ensures Untouched(g, g2, {}) && (forall p :: p in all ==> p !in g) && forall S :: S <= g.Keys ==> Agree(g, g2, S)
  {
  }

  lemma AllDone(g: Graph, g1: Graph, st1: seq<nat>, g2: Graph, all: seq<nat>, st: seq<nat>)
    requires WellFormed(g, st) && Ranked(g, st)
    requires Built(g, g1, {}, st1, CharLang([0], [MAXCHAR])) && Acyclic(g1, st1) && Upright(g1, st1)
    requires GlueResult(g1, g2, st1, [], all, WordsUpTo(MAXCHAR))
    ensures WellFormed(g2, all) && LangOf(g2, all) == WordsUpTo(MAXCHAR) && Ranked(g2, all) && Upright(g2, all)
    ensures Disjoint(all, st) && Untouched(g, g2, {}) && forall p :: p in all ==> p !in g
    ensures WellFormed(g2, st) && LangOf(g2, st) == LangOf(g, st) && Ranked(g2, st)
  {
    hide Ranked, BackRanked, LangOf, WellFormed, Upright, CharLang, WordsUpTo;
    Lengths(g, st);
    NoneUpright(g1);
    AllUntouched(g, g1, st1, g2, all);
    LangFrame(g, g2, st);
    RankFrame(g, g2, st);
    forall p | p in all ensures p !in g && p !in st {
      assert p in st ==> p in States(st);
    }
  }
}
