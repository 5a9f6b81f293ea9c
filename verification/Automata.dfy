/** automat_t: automata under construction. Their states live on a heap, so that
    two automata of one memory manager are told apart by their lists of states. */
module Automata {
  import opened Graphs
  import opened Languages
  import opened Thompson
  import opened Chains
  import opened Glue
  import opened Mirror
  import opened Profiles

  /** Which memory manager a state has been allocated from. */
  type Owners = map<nat, nat>

  /** All the states have been allocated from the memory manager m. */
  ghost predicate OwnedBy(o: Owners, st: seq<nat>, m: nat) {
    forall p :: p in st ==> p in o && o[p] == m
  }

  /** States have only been added: none has changed its owner. */
  ghost predicate Stays(o: Owners, o': Owners) {
    forall p :: p in o ==> p in o' && o'[p] == o[p]
  }

  lemma StaysTwice(o: Owners, o1: Owners, o2: Owners)
    requires Stays(o, o1) && Stays(o1, o2)
    ensures Stays(o, o2)
  {
  }

  lemma OwnedStays(o: Owners, o': Owners, st: seq<nat>, m: nat)
    requires OwnedBy(o, st, m) && Stays(o, o')
    ensures OwnedBy(o', st, m)
  {
  }

  lemma StaysSame(o: Owners)
    ensures Stays(o, o)
  {
  }

  ghost function OwnersWith(o: Owners, added: set<nat>, m: nat): Owners {
    map p | p in o.Keys + added :: if p in added then m else o[p]
  }

  lemma OwnersAdded(o: Owners, added: set<nat>, m: nat, st: seq<nat>)
    requires (forall p :: p in st ==> p in added) && forall p :: p in added ==> p !in o
    ensures OwnedBy(OwnersWith(o, added, m), st, m) && Stays(o, OwnersWith(o, added, m))
  {
  }

  /** Two states have been allocated, e and then s. */
  lemma OwnedNew(o: Owners, o1: Owners, o2: Owners, e: nat, s: nat, m: nat)
    requires Stays(o, o1) && OwnedBy(o1, [e], m) && Stays(o1, o2) && OwnedBy(o2, [s], m)
    ensures Stays(o, o2) && OwnedBy(o2, [s, e], m)
  {
    assert e in [e] && s in [s];
  }

  /** They are put around other ones. */
  lemma OwnedAround(o: Owners, o2: Owners, st1: seq<nat>, st2: seq<nat>, e: nat, s: nat, m: nat)
    requires Stays(o, o2) && OwnedBy(o2, [s, e], m) && OwnedBy(o, st1, m) && OwnedBy(o, st2, m)
    ensures OwnedBy(o2, [s] + st1 + st2 + [e], m)
  {
    assert e in [s, e] && s in [s, e];
  }

  lemma OwnedLoop(o: Owners, o1: Owners, o2: Owners, st1: seq<nat>, e: nat, s: nat, m: nat)
    requires Stays(o, o1) && OwnedBy(o1, [e], m) && Stays(o1, o2) && OwnedBy(o2, [s], m) && OwnedBy(o, st1, m)
    ensures Stays(o, o2) && OwnedBy(o2, [s] + st1 + [e], m)
  {
    OwnedNew(o, o1, o2, e, s, m);
    OwnedNone(o, m);
    OwnedAround(o, o2, st1, [], e, s, m);
    assert [s] + st1 + [] + [e] == [s] + st1 + [e];
  }

  lemma OwnedThird(o: Owners, o1: Owners, o2: Owners, o3: Owners, st1: seq<nat>, e: nat, s0: nat, s: nat, m: nat)
    requires Stays(o, o1) && OwnedBy(o1, [e], m) && Stays(o1, o2) && OwnedBy(o2, [s0], m)
    requires Stays(o2, o3) && OwnedBy(o3, [s], m) && OwnedBy(o, st1, m)
    ensures Stays(o, o3) && OwnedBy(o3, [s0, s] + st1 + [e], m)
  {
    assert s0 in [s0] && e in [e] && s in [s];
  }

  lemma OwnedNames(o: Owners, st: seq<nat>, d: map<nat, nat>, i: nat, o': Owners, x: nat, m: nat)
    requires i < |st| && OwnedBy(o, Names(st[..i], d), m) && Stays(o, o') && OwnedBy(o', [x], m)
    requires forall p :: p in d <==> p in st[..i]
    ensures OwnedBy(o', Names(st[..i + 1], d[st[i] := x]), m)
  {
    var d' := d[st[i] := x];
    var r := Names(st[..i + 1], d');
    forall p | p in r ensures p in o' && o'[p] == m {
      var j :| 0 <= j < |r| && r[j] == p;
      if st[j] == st[i] {
        assert p in [x];
      } else {
        assert Names(st[..i], d)[j] == p;
      }
    }
  }

  lemma OwnedFlipped(o: Owners, st: seq<nat>, m: nat)
    requires OwnedBy(o, st, m)
    ensures OwnedBy(o, Flip(st), m)
  {
    var r := Flip(st);
    forall p | p in r ensures p in st {
      var j :| 0 <= j < |r| && r[j] == p;
    }
  }

  lemma OwnedNone(o: Owners, m: nat)
    ensures OwnedBy(o, [], m)
  {
  }

  /** The memory all states are allocated on; a state is named by its address. */
  class Heap {
    var node: Graph
    var top: nat      // no address >= top has been handed out
    var mmans: nat    // the memory managers created so far are 1, ..., mmans
    ghost var owner: Owners

    ghost predicate Valid()
      reads this
    {
      owner.Keys == node.Keys && forall p :: p in node ==> p < top && 0 < owner[p] <= mmans
    }

    /** Since then states and memory managers have only been added: no state has changed its owner. */
    ghost predicate Since(owner0: Owners, mmans0: nat)
      reads this
    {
      mmans0 <= mmans && Stays(owner0, owner)
    }

    /** All the states have been allocated from the memory manager m. */
    ghost predicate Owned(st: seq<nat>, m: nat)
      reads this
    {
      0 < m <= mmans && OwnedBy(owner, st, m)
    }

    constructor ()
      ensures Valid() && node == map[]
    {
      node, top, mmans, owner := map[], 0, 0, map[];
    }

    /** Allocates a state from the memory manager m. */
    method New(n: Node, m: nat) returns (p: nat)
      requires Valid() && 0 < m <= mmans
      modifies this
      ensures Valid() && p !in old(node) && node == old(node)[p := n] && mmans == old(mmans)
      ensures OwnedBy(owner, [p], m) && Stays(old(owner), owner)
    {
      p := top;
      node, owner := node[p := n], owner[p := m];
      top := top + 1;
    }

    /** Overwrites the transitions of an existing state. */
    method Set(p: nat, n: Node)
      requires Valid() && p in node
      modifies this`node
      ensures Valid() && node == old(node)[p := n]
    {
      node := node[p := n];
    }

    /** Overwrites the transitions of any number of existing states. */
    method Replace(g: Graph)
      requires Valid() && g.Keys == node.Keys
      modifies this`node
      ensures Valid() && node == g
    {
      assert forall p :: p in g ==> p in node;
      node := g;
    }

    /** Adds a number of new states at consecutive addresses, allocated from the memory manager m. */
    method Place(g: Graph, size: nat, m: nat)
      requires Valid() && 0 < m <= mmans && forall p :: p in g ==> top <= p < top + size
      modifies this`node, this`top, this`owner
      ensures Valid() && node == old(node) + g && top == old(top) + size
      ensures forall p :: p in old(node) ==> p in node && node[p] == old(node)[p]
      ensures owner == OwnersWith(old(owner), g.Keys, m)
    {
      owner := OwnersWith(owner, g.Keys, m);
      node, top := node + g, top + size;
    }

    /** new_automatmman: no state has been allocated from the new one. */
    method NewMman() returns (m: nat)
      requires Valid()
      modifies this`mmans
      ensures Valid() && m == old(mmans) + 1 == mmans && forall p :: p in owner ==> owner[p] != m
    {
      mmans := mmans + 1;
      m := mmans;
    }
  }

  /** initmatch_automat: one step from the start to the end state. */
  ghost predicate Matcher(g: Graph, st: seq<nat>) {
    && WellFormed(g, st) && |st| == 2
    && EpsState(g, st[1], [st[1]])
    && g[st[0]].empty == []
    && forall t :: t in g[st[0]].ranges ==> t.target == st[1]
  }

  predicate InTrans(c: Char32, ts: seq<Trans>) {
    exists t :: t in ts && Hit(t, c)
  }

  lemma MatcherLang(g: Graph, st: seq<nat>, w: Word)
    requires Matcher(g, st)
    ensures w in LangOf(g, st) <==> |w| == 1 && InTrans(w[0], g[st[0]].ranges)
  {
    var s, e := st[0], st[1];
    if n: nat :| Go(g, s, w, e, n) {
      assert n > 0;
      var r :| w != [] && Chr(g, s, w[0], r) && Go(g, r, w[1..], e, n - 1);
      LoopOnly(g, e, w[1..], e, n - 1);
    }
    if |w| == 1 && InTrans(w[0], g[s].ranges) {
      var t :| t in g[s].ranges && Hit(t, w[0]);
      assert Chr(g, s, w[0], e);
      ReadsNothing(g, e);
      assert w[1..] == [];
      ChrThenReads(g, s, e, w, e);
    }
  }

  lemma MatcherFormed(g: Graph, st: seq<nat>)
    requires Matcher(g, st)
    ensures WellFormed(g, st)
  {
  }

  lemma MatcherRanked(g: Graph, st: seq<nat>)
    requires Matcher(g, st)
    ensures Ranked(g, st) && BackRanked(g, st)
  {
    assert RankedBy(g, st, map[]);
    assert BackRankedBy(g, st, map[]);
  }

  function RangesTo(from: seq<Char32>, to: seq<Char32>, target: nat): (r: seq<Trans>)
    requires |from| == |to|
    ensures |r| == |from| && forall i :: 0 <= i < |r| ==> r[i] == Trans(from[i], to[i], target)
  {
    seq(|from|, i requires 0 <= i < |from| => Trans(from[i], to[i], target))
  }

  lemma RangesToHits(from: seq<Char32>, to: seq<Char32>, target: nat, c: Char32)
    requires |from| == |to|
    ensures InTrans(c, RangesTo(from, to, target)) <==> InRanges(c, from, to)
  {
    var r := RangesTo(from, to, target);
    if i :| 0 <= i < |from| && from[i] <= c <= to[i] {
      assert r[i] in r && Hit(r[i], c);
    }
  }

  lemma InitialMatcher(g: Graph, s: nat, e: nat, from: seq<Char32>, to: seq<Char32>)
    requires |from| == |to| && s != e && EpsState(g, e, [e])
    requires s in g && g[s].empty == [] && g[s].ranges == RangesTo(from, to, e)
    ensures Matcher(g, [s, e]) && Ranked(g, [s, e]) && BackRanked(g, [s, e])
    ensures LangOf(g, [s, e]) == CharLang(from, to)
  {
    var st := [s, e];
    ClosedBy(g, st);
    MatcherRanked(g, st);
    forall w: Word ensures w in LangOf(g, st) <==> w in CharLang(from, to) {
      MatcherLang(g, st, w);
      if |w| == 1 { RangesToHits(from, to, e, w[0]); }
    }
  }

  lemma ExtendedMatcher(g: Graph, g': Graph, st: seq<nat>, from: seq<Char32>, to: seq<Char32>)
    requires |from| == |to| && Matcher(g, st) && st[0] in g' && EpsState(g', st[1], [st[1]])
    requires g'[st[0]].empty == [] && g'[st[0]].ranges == g[st[0]].ranges + RangesTo(from, to, st[1])
    ensures Matcher(g', st) && Ranked(g', st) && BackRanked(g', st)
    ensures LangOf(g', st) == LangOf(g, st) + CharLang(from, to)
  {
    ClosedBy(g', st);
    MatcherRanked(g', st);
    var old_, more := g[st[0]].ranges, RangesTo(from, to, st[1]);
    forall w: Word ensures w in LangOf(g', st) <==> w in LangOf(g, st) + CharLang(from, to) {
      MatcherLang(g, st, w);
      MatcherLang(g', st, w);
      if |w| == 1 {
        RangesToHits(from, to, st[1], w[0]);
        assert InTrans(w[0], old_ + more) <==> InTrans(w[0], old_) || InTrans(w[0], more);
      }
    }
  }

  lemma EmptyLang(g: Graph, s: nat, e: nat)
    requires s != e && EpsState(g, s, [e]) && EpsState(g, e, [e])
    ensures WellFormed(g, [s, e]) && LangOf(g, [s, e]) == iset{[]}
    ensures Ranked(g, [s, e]) && BackRanked(g, [s, e])
  {
    ClosedBy(g, [s, e]);
    ReadsEps(g, s, e);
    forall w: Word | Reads(g, s, w, e) ensures w == [] {
      var n: nat :| Go(g, s, w, e, n);
      var r := EpsStateStep(g, s, [e], w, e, n);
      LoopOnly(g, e, w, e, n - 1);
    }
    assert RankedBy(g, [s, e], map[s := 1]);
    assert BackRankedBy(g, [s, e], map[e := 1]);
  }

  lemma AdoptedCopy(g: Graph, st2: seq<nat>, g': Graph, st: seq<nat>)
    requires st2 != [] && st != [] && Built(g, g', {}, st, LangOf(g, st2))
    requires (Ranked(g, st2) ==> Ranked(g', st)) && (BackRanked(g, st2) ==> BackRanked(g', st))
    requires Upright(g, st2) ==> Upright(g', st)
    ensures Adopted(g, st2, g', st)
  {
    hide WellFormed, LangOf, Ranked, BackRanked, Upright;
  }

  lemma AdoptedSame(g: Graph, st: seq<nat>)
    requires st != [] && WellFormed(g, st)
    ensures Adopted(g, st, g, st)
  {
    hide WellFormed, LangOf, Ranked, BackRanked, Upright;
  }

  lemma AdoptedProfile(g: Graph, st1: seq<nat>, st2: seq<nat>, g': Graph, st: seq<nat>)
    requires WellFormed(g, st1) && Adopted(g, st2, g', st)
    ensures st1 != [] && ProfileOf(g', st1) == ProfileOf(g, st1)
  {
    hide ProfileOf, LangOf;
    assert Agree(g, g', States(st1));
    ProfileFrame(g, g', st1);
  }

  lemma GlueFormed(g: Graph, g': Graph, st1: seq<nat>, st2: seq<nat>, st: seq<nat>, L: Lang)
    requires GlueResult(g, g', st1, st2, st, L)
    ensures WellFormed(g', st)
  {
  }

  /** Two new states. */
  lemma ConfinedNew(g: Graph, e: nat, n0: Node, s: nat, n: Node, n1: Node, g': Graph)
    requires e !in g && s !in g[e := n0] && g' == g[e := n0][s := n][e := n1]
    ensures Confined(g, g', {}, [s, e])
  {
  }

  /** Two new states, and the end states x and y are changed. */
  lemma EditedGlue(g: Graph, e: nat, n: Node, n': Node, s: nat, n1: Node, x: nat, n2: Node, y: nat, n3: Node, g': Graph)
    requires e !in g && s !in g && x in g && y in g && g' == g[e := n][s := n1][e := n'][x := n2][y := n3]
    ensures Edited(g, g', {s, e}, {x, y})
  {
  }

  /** Three new states, and the end state x is changed. */
  lemma EditedLoop(g: Graph, e: nat, n: Node, n': Node, s0: nat, n0: Node, s: nat, n1: Node, x: nat, n2: Node,
                   g': Graph)
    requires e !in g && s0 !in g && s !in g && x in g && g' == g[e := n][e := n'][s0 := n0][s := n1][x := n2]
    ensures Edited(g, g', {s0, s, e}, {x})
  {
  }

  lemma BuiltNew(g: Graph, g': Graph, st: seq<nat>, L: Lang)
    requires Confined(g, g', {}, st) && WellFormed(g', st) && LangOf(g', st) == L
    ensures Built(g, g', {}, st, L)
  {
  }

  lemma EmptyProfile(g: Graph, s: nat, e: nat)
    requires s != e && EpsState(g, s, [e]) && EpsState(g, e, [e])
    ensures ProfileOf(g, [s, e]) == NothingProfile()
  {
    hide Reads;
    var st := [s, e];
    EpsCold(g, s, [e]);
    EpsCold(g, e, [e]);
    assert Upright(g, st) by { assert UprightAt(g, s) && UprightAt(g, e); }
    UprightProfile(g, st);
    forall u: Word ensures LeadsIn(g, st, u, false) <==> u == [] {
      StartLeads(g, st);
      if x :| x in st && Reads(g, s, u, x) {
        var n := SomeGo(g, s, u, x);
        if n > 0 {
          var r := EpsFirst(g, s, [e], u, x, n);
          LoopOnly(g, e, u, x, n - 1);
        }
      }
    }
  }

  /** The paths in an automaton made of ranges. */
  lemma MatcherReads(g: Graph, st: seq<nat>, u: Word, x: nat)
    requires Matcher(g, st) && Reads(g, st[0], u, x)
    ensures (u == [] && x == st[0]) || (|u| == 1 && x == st[1] && InTrans(u[0], g[st[0]].ranges))
  {
    var n: nat :| Go(g, st[0], u, x, n);
    if n > 0 {
      var r :| u != [] && Chr(g, st[0], u[0], r) && Go(g, r, u[1..], x, n - 1);
      LoopOnly(g, st[1], u[1..], x, n - 1);
    }
  }

  lemma RangesToInverted(from: seq<Char32>, to: seq<Char32>, target: nat)
    requires |from| == |to|
    ensures (exists t :: t in RangesTo(from, to, target) && t.from > t.to) <==> RangesInverted(from, to)
  {
    var ts := RangesTo(from, to, target);
    if i :| 0 <= i < |from| && i < |to| && from[i] > to[i] {
      assert ts[i] in ts;
    }
  }

  lemma MatcherProfile(g: Graph, st: seq<nat>, from: seq<Char32>, to: seq<Char32>)
    requires Matcher(g, st) && |from| == |to| && g[st[0]].ranges == RangesTo(from, to, st[1])
    ensures ProfileOf(g, st) == SetProfile(from, to)
  {
    hide Reads, Matcher;
    MatcherEnds(g, st);
    var s, e := st[0], st[1];
    RangesToInverted(from, to, e);
    EpsCold(g, e, [e]);
    MatcherLang2(g, st, from, to);
    forall u: Word
      ensures LeadsIn(g, st, u, false) <==> u == [] || u in CharLang(from, to)
      ensures LeadsIn(g, st, u, true) <==> u == [] && RangesInverted(from, to)
    {
      StartLeads(g, st);
      ReadsNothing(g, s);
      forall x | x in st && Reads(g, s, u, x)
        ensures (u == [] && x == s) || (|u| == 1 && x == e && InTrans(u[0], g[s].ranges))
      {
        MatcherReads(g, st, u, x);
      }
      if |u| == 1 { RangesToHits(from, to, e, u[0]); }
      if u in CharLang(from, to) { LangLeads(g, st, u); }
      if u == [] && RangesInverted(from, to) { LeadsBy(g, st, u, true, s); }
    }
    MatcherTail(g, st, from, to);
  }

  lemma MatcherEnds(g: Graph, st: seq<nat>)
    requires Matcher(g, st)
    ensures |st| == 2 && st[0] != st[1] && EpsState(g, st[1], [st[1]]) && st[0] in g
    ensures forall t :: t in g[st[0]].ranges ==> t.target == st[1]
  {
    assert st[0] in States(st);
  }

  lemma MatcherLang2(g: Graph, st: seq<nat>, from: seq<Char32>, to: seq<Char32>)
    requires Matcher(g, st) && |from| == |to| && g[st[0]].ranges == RangesTo(from, to, st[1])
    ensures LangOf(g, st) == CharLang(from, to)
  {
    hide Matcher, Reads;
    MatcherEnds(g, st);
    forall w: Word ensures w in LangOf(g, st) <==> w in CharLang(from, to) {
      MatcherLang(g, st, w);
      if |w| == 1 { RangesToHits(from, to, st[1], w[0]); }
    }
  }

  lemma MatcherTail(g: Graph, st: seq<nat>, from: seq<Char32>, to: seq<Char32>)
    requires Matcher(g, st) && |from| == |to| && g[st[0]].ranges == RangesTo(from, to, st[1])
    ensures InvertedToEnd(g, st) <==> RangesInverted(from, to)
  {
    hide Matcher, Reads;
    MatcherEnds(g, st);
    var s, e := st[0], st[1];
    RangesToInverted(from, to, e);
    if p, t, w: Word :| InvertedTransition(g, st, p, t) && Reads(g, t.target, w, e) {
      NotCold(g, e, [e], st, p, t);
    }
    if t :| t in RangesTo(from, to, e) && t.from > t.to {
      ReadsNothing(g, e);
      TailBy(g, st, s, t, []);
    }
  }

  class Automaton {
    var states: seq<nat>
    var mman: nat          // the memory manager of the states, 0 if freed
    var isDFA: bool

    constructor ()
      ensures IsFree()
    {
      states, mman, isDFA := [], 0, false;
    }

    /** automat_FREE */
    predicate IsFree()
      reads this
    {
      states == [] && mman == 0
    }

    ghost predicate Valid(h: Heap)
      reads this, h
    {
      mman != 0 && WellFormed(h.node, states) && h.Owned(states, mman)
    }

    ghost function Lang(h: Heap): Lang
      reads this, h
      requires states != []
    {
      LangOf(h.node, states)
    }

    /** Where words lead to, and where the ranges from > to are. */
    ghost function Profile(h: Heap): Profile
      reads this, h
      requires states != []
    {
      ProfileOf(h.node, states)
    }

    method Free()
      modifies this
      ensures IsFree()
    {
      states, mman, isDFA := [], 0, false;
    }

    /** initmove_automat */
    method InitMove(src: Automaton)
      requires src != this
      modifies this, src
      ensures states == old(src.states) && mman == old(src.mman) && isDFA == old(src.isDFA)
      ensures src.IsFree()
    {
      states, mman, isDFA := src.states, src.mman, src.isDFA;
      src.states, src.mman, src.isDFA := [], 0, false;
    }

    method InitEmpty(h: Heap, useMman: nat)
      requires h.Valid() && useMman <= h.mmans
      modifies this, h
      ensures h.Valid() && mman != 0 && !isDFA
      ensures h.Owned(states, mman) && h.Since(old(h.owner), old(h.mmans))
      ensures if useMman != 0 then mman == useMman else mman == h.mmans == old(h.mmans) + 1
      ensures Built(old(h.node), h.node, {}, states, iset{[]}) && Acyclic(h.node, states) && Upright(h.node, states)
      ensures states != [] && Profile(h) == NothingProfile()
    {
      hide OwnedBy, Stays, Heap.Valid, WellFormed, LangOf, Ranked, BackRanked, Built, Confined, ProfileOf;
      mman := useMman;
      if mman == 0 { mman := h.NewMman(); }
      var e := h.New(Node([], [], []), mman);
      ghost var o := h.owner;
      var s := h.New(Node([e], [], []), mman);
      OwnedNew(old(h.owner), o, h.owner, e, s, mman);
      h.Set(e, Node([e], [], []));
      states, isDFA := [s, e], false;
      ConfinedNew(old(h.node), e, Node([], [], []), s, Node([e], [], []), Node([e], [], []), h.node);
      EmptyLang(h.node, s, e);
      EmptyProfile(h.node, s, e);
      BuiltNew(old(h.node), h.node, states, iset{[]});
    }

    method InitMatch(h: Heap, useMman: nat, from: seq<Char32>, to: seq<Char32>)
      requires h.Valid() && |from| == |to| && useMman <= h.mmans
      modifies this, h
      ensures h.Valid() && mman != 0 && !isDFA
      ensures h.Owned(states, mman) && h.Since(old(h.owner), old(h.mmans))
      ensures if useMman != 0 then mman == useMman else mman == h.mmans == old(h.mmans) + 1
      ensures Built(old(h.node), h.node, {}, states, CharLang(from, to)) && Acyclic(h.node, states)
      ensures Matcher(h.node, states)
      ensures h.node[Start(states)].ranges == RangesTo(from, to, End(states))
    {
      hide OwnedBy, Stays, Heap.Valid, WellFormed, LangOf, Ranked, BackRanked, Built, Confined;
      mman := useMman;
      if mman == 0 { mman := h.NewMman(); }
      var e := h.New(Node([], [], []), mman);
      ghost var o := h.owner;
      var s := h.New(Node([], RangesTo(from, to, e), [|from|]), mman);
      OwnedNew(old(h.owner), o, h.owner, e, s, mman);
      h.Set(e, Node([e], [], []));
      states, isDFA := [s, e], false;
      ConfinedNew(old(h.node), e, Node([], [], []), s, Node([], RangesTo(from, to, e), [|from|]), Node([e], [], []),
                  h.node);
      InitialMatcher(h.node, s, e, from, to);
      MatcherFormed(h.node, states);
      BuiltNew(old(h.node), h.node, states, CharLang(from, to));
    }

    method ExtendMatch(h: Heap, from: seq<Char32>, to: seq<Char32>) returns (err: Err)
      requires h.Valid() && |from| == |to|
      requires IsFree() || (Valid(h) && Matcher(h.node, states))
      modifies this`isDFA, h`node
      ensures h.Valid() && (err == OK ==> Valid(h))
      ensures err == EINVAL <==> IsFree() || |from| == 0
      ensures err == EINVAL ==> h.node == old(h.node) && isDFA == old(isDFA)
      ensures err == OK ==>
        Built(old(h.node), h.node, States(states), states, old(Lang(h)) + CharLang(from, to)) && Acyclic(h.node, states)
      ensures err == OK ==> Matcher(h.node, states) && !isDFA
      ensures err == OK ==>
        h.node[Start(states)].ranges == old(h.node[Start(states)].ranges) + RangesTo(from, to, End(states))
    {
      if |states| < 2 || |from| == 0 {
        return EINVAL;
      }
      ghost var g := h.node;
      var s, e := states[0], states[|states| - 1];
      var n := h.node[s];
      var more := RangesTo(from, to, e);
      h.Set(s, Node(n.empty, n.ranges + more, n.chunks + [|from|]));
      isDFA := false;
      ExtendedMatcher(g, h.node, states, from, to);
      return OK;
    }

    /** Allocates a new state, without transitions, for every state of src. */
    static method NewStates(h: Heap, st: seq<nat>, m: nat) returns (d: map<nat, nat>)
      requires h.Valid() && WellFormed(h.node, st) && 0 < m <= h.mmans
      modifies h
      ensures h.Valid() && Renamed(old(h.node), h.node, st, d) && Blank(h.node, st, d)
      ensures Stays(old(h.owner), h.owner) && h.mmans == old(h.mmans) && OwnedBy(h.owner, Names(st, d), m)
    {
      hide OwnedBy, Stays, Heap.Valid;
      StaysSame(h.owner);
      OwnedNone(h.owner, m);
      assert Names(st[..0], map[]) == [];
      d := map[];
      for i := 0 to |st|
        invariant h.Valid() && Stays(old(h.owner), h.owner) && h.mmans == old(h.mmans)
        invariant OwnedBy(h.owner, Names(st[..i], d), m)
        invariant forall p :: p in d <==> p in st[..i]
        invariant forall p :: p in d ==> d[p] !in old(h.node) && d[p] in h.node && h.node[d[p]] == Node([], [], [])
        invariant forall p, q :: p in d && q in d && p != q ==> d[p] != d[q]
        invariant Keeps(old(h.node), h.node)
      {
        ghost var o := h.owner;
        var x := h.New(Node([], [], []), m);
        StaysTwice(old(h.owner), o, h.owner);
        OwnedNames(o, st, d, i, h.owner, x, m);
        assert st[..i + 1] == st[..i] + [st[i]];
        d := d[st[i] := x];
      }
      assert st[..|st|] == st;
    }

    static method FillCopies(node0: Graph, ghost g: Graph, st: seq<nat>, d: map<nat, nat>) returns (node: Graph)
      requires Renamed(g, node0, st, d)
      ensures node.Keys == node0.Keys && CopyOf(g, st, node, d) && Renamed(g, node, st, d)
    {
      node := node0;
      for i := 0 to |st|
        invariant node.Keys == node0.Keys && Keeps(g, node)
        invariant forall j :: 0 <= j < i ==> Copied(g, node, d, st[j])
      {
        EdgesStay(g, st, st[i]);
        node := node[At(d, st[i]) := MapNode(node[st[i]], d)];
        assert forall j :: 0 <= j < i ==> At(d, st[j]) != At(d, st[i]);
      }
    }

    method InitCopy(h: Heap, src: Automaton, useMman: nat)
      requires h.Valid() && src != this && src.Valid(h) && useMman <= h.mmans
      modifies this, h
      ensures h.Valid() && mman != 0 && isDFA == src.isDFA
      ensures h.Owned(states, mman) && h.Since(old(h.owner), old(h.mmans))
      ensures if useMman != 0 then mman == useMman else mman == h.mmans == old(h.mmans) + 1
      ensures Built(old(h.node), h.node, {}, states, old(src.Lang(h)))
      ensures states != [] && (old(Ranked(h.node, src.states)) ==> Ranked(h.node, states))
      ensures old(src.states != [] && BackRanked(h.node, src.states)) ==> BackRanked(h.node, states)
      ensures old(Upright(h.node, src.states)) ==> Upright(h.node, states)
      ensures exists d :: CopyOf(old(h.node), src.states, h.node, d) && states == Names(src.states, d)
    {
      hide WellFormed, CopyOf, Naming, Renamed, Built, Keeps, Ranked, BackRanked, LangOf, Upright, OwnedBy, Stays,
        Heap.Valid;
      mman := useMman;
      if mman == 0 { mman := h.NewMman(); }
      ghost var g := h.node;
      var d := NewStates(h, src.states, mman);
      var node := FillCopies(h.node, g, src.states, d);
      NotEmpty(g, src.states);
      CopyDone(g, src.states, node, d);
      h.Replace(node);
      states, isDFA := Names(src.states, d), src.isDFA;
    }

    /** Enters the empty transitions of s, turned around, into the renamed states. */
    static method TurnEmpty(node0: Graph, st: seq<nat>, d: map<nat, nat>, s: nat, list: seq<nat>) returns (node: Graph)
      requires Naming(st, d) && s in st
      requires forall p :: p in st ==> At(d, p) in node0
      requires forall r :: r in list ==> r in st
      ensures node.Keys == node0.Keys && TurnedEmpty(node0, node, st, d, s, list)
    {
      node := node0;
      for j := 0 to |list|
        invariant node.Keys == node0.Keys && TurnedEmpty(node0, node, st, d, s, list[..j])
      {
        ghost var node1 := node;
        var t := At(d, list[j]);
        node := node[t := node[t].(empty := node[t].empty + [At(d, s)])];
        TurnEmptyStep(node0, node1, node, st, d, s, list, j);
      }
      assert list[..|list|] == list;
    }

    static method TurnRanges(node0: Graph, st: seq<nat>, d: map<nat, nat>, s: nat, list: seq<Trans>)
      returns (node: Graph)
      requires Naming(st, d) && s in st
      requires forall p :: p in st ==> At(d, p) in node0
      requires forall t :: t in list ==> t.target in st
      ensures node.Keys == node0.Keys && TurnedRanges(node0, node, st, d, s, list)
    {
      node := node0;
      for j := 0 to |list|
        invariant node.Keys == node0.Keys && TurnedRanges(node0, node, st, d, s, list[..j])
      {
        ghost var node1 := node;
        var t, x := list[j], At(d, list[j].target);
        node := node[x := Node(node[x].empty, node[x].ranges + [Trans(t.from, t.to, At(d, s))], node[x].chunks + [1])];
        TurnRangesStep(node0, node1, node, st, d, s, list, j);
      }
      assert list[..|list|] == list;
    }

    /** Turns the transitions of the state s around, which are those of the node n. */
    static method TurnNode(node0: Graph, st: seq<nat>, d: map<nat, nat>, s: nat, n: Node) returns (node: Graph)
      requires TurnReady(node0, st, d, s, n)
      ensures node.Keys == node0.Keys && TurnedNode(node0, node, st, d, s, n)
    {
      hide TurnedEmpty, TurnedRanges;
      var node1 := TurnEmpty(node0, st, d, s, n.empty);
      node := TurnRanges(node1, st, d, s, n.ranges);
      assert TurnedEmpty(node0, node1, st, d, s, n.empty);
    }

    static method TurnState(node0: Graph, ghost g: Graph, st: seq<nat>, d: map<nat, nat>, i: nat) returns (node: Graph)
      requires i < |st| && Turning(g, st[..i], node0, st, d)
      ensures node.Keys == node0.Keys && Turning(g, st[..i + 1], node, st, d)
    {
      hide Turning, TurnReady, TurnedNode, Renamed, Turned, WellFormed, Naming;
      RenamedState(g, node0, st, d, st[..i], i);
      node := TurnNode(node0, st, d, st[i], node0[st[i]]);
      PartOf(g, st[..i], node0, st, d, i);
      TurnedMore(g, st[..i], node0, node, st, d, st[i]);
      assert st[..i + 1] == st[..i] + [st[i]];
    }

    static method TurnAll(node0: Graph, ghost g: Graph, st: seq<nat>, d: map<nat, nat>) returns (node: Graph)
      requires Renamed(g, node0, st, d) && Blank(node0, st, d)
      ensures node.Keys == node0.Keys && Renamed(g, node, st, d) && ReverseOf(g, st, node, d)
    {
      hide Turning, ReverseOf, Renamed, Blank;
      node := node0;
      TurnedNone(g, node, st, d);
      for i := 0 to |st|
        invariant node.Keys == node0.Keys && Turning(g, st[..i], node, st, d)
      {
        node := TurnState(node, g, st, d, i);
      }
      assert st[..|st|] == st;
      RenamedState(g, node, st, d, st, 0);
      var e := At(d, st[0]);
      ghost var node1 := node;
      if node[e].empty == [] || node[e].empty[|node[e].empty| - 1] != e {
        node := node[e := node[e].(empty := node[e].empty + [e])];
      }
      TurnedEnd(g, st, node1, node, d);
    }

    static method MirrorStates(h: Heap, st: seq<nat>, m: nat) returns (st': seq<nat>)
      requires h.Valid() && WellFormed(h.node, st) && 0 < m <= h.mmans
      modifies h
      ensures h.Valid() && MirrorOf(old(h.node), st, h.node, st')
      ensures h.Since(old(h.owner), old(h.mmans)) && h.mmans == old(h.mmans) && h.Owned(st', m)
    {
      hide WellFormed, ReverseOf, Naming, Renamed, MirrorOf, Blank, OwnedBy, Stays, Heap.Valid;
      ghost var g := h.node;
      var d := NewStates(h, st, m);
      OwnedFlipped(h.owner, Names(st, d), m);
      var node := TurnAll(h.node, g, st, d);
      ReverseDone(g, st, node, d);
      h.Replace(node);
      st' := Flip(Names(st, d));
    }

    static lemma MirrorAcyclic(g: Graph, st: seq<nat>, g': Graph, st': seq<nat>)
      requires ReversalOf(g, st, g', st')
      ensures Acyclic(g, st) ==> Acyclic(g', st')
    {
      hide Ranked, BackRanked, Reversible;
      if Acyclic(g, st) { AcyclicReversible(g, st); }
    }

    method InitReverse(h: Heap, src: Automaton, useMman: nat) returns (err: Err)
      requires h.Valid() && src != this && (src.IsFree() || src.Valid(h)) && useMman <= h.mmans
      modifies this, h
      ensures h.Valid() && h.Since(old(h.owner), old(h.mmans))
      ensures err == EINVAL <==> src.IsFree()
      ensures err == EINVAL ==> unchanged(this) && h.node == old(h.node)
      ensures err == OK ==> mman != 0 && !isDFA && h.Owned(states, mman)
      ensures err == OK ==> if useMman != 0 then mman == useMman else mman == h.mmans == old(h.mmans) + 1
      ensures err == OK ==> Built(old(h.node), h.node, {}, states, Reversed(old(src.Lang(h))))
      ensures err == OK ==> ReversalOf(old(h.node), src.states, h.node, states)
      ensures err == OK ==> (old(Acyclic(h.node, src.states)) ==> Acyclic(h.node, states))
    {
      hide Built, ReversalOf, Acyclic;
      var m := useMman;
      if m == 0 { m := h.NewMman(); }
      if |src.states| < 2 {
        return EINVAL;
      }
      ghost var g := h.node;
      states := MirrorStates(h, src.states, m);
      MirrorAcyclic(g, src.states, h.node, states);
      mman, isDFA := m, false;
      return OK;
    }

    /** The states of ndfa2, copied if they belong to another memory manager; frees ndfa2. */
    static method Adopt(h: Heap, ndfa2: Automaton, useMman: nat) returns (st: seq<nat>)
      requires h.Valid() && ndfa2.Valid(h) && 0 < useMman <= h.mmans
      modifies ndfa2, h
      ensures h.Valid() && ndfa2.IsFree()
      ensures h.Owned(st, useMman) && h.Since(old(h.owner), old(h.mmans))
      ensures old(ndfa2.mman) == useMman ==> st == old(ndfa2.states)
      ensures Adopted(old(h.node), old(ndfa2.states), h.node, st)
      ensures st != [] && ProfileOf(h.node, st) == old(ndfa2.Profile(h))
    {
      hide WellFormed, LangOf, OwnedBy, Stays, Heap.Valid, CopyOf, ProfileOf, Ranked, BackRanked, Upright, Built,
        Adopted;
      NotEmpty(h.node, ndfa2.states);
      StaysSame(h.owner);
      if ndfa2.mman != useMman {
        var copy := new Automaton();
        copy.InitCopy(h, ndfa2, useMman);
        ghost var d :| CopyOf(old(h.node), ndfa2.states, h.node, d) && copy.states == Names(ndfa2.states, d);
        CopyProfile(old(h.node), ndfa2.states, h.node, d);
        st := copy.states;
        AdoptedCopy(old(h.node), ndfa2.states, h.node, st);
      } else {
        st := ndfa2.states;
        AdoptedSame(h.node, st);
      }
      ndfa2.Free();
    }

    static method Chain(h: Heap, st1: seq<nat>, st2: seq<nat>, m: nat) returns (st: seq<nat>)
      requires h.Valid() && WellFormed(h.node, st1) && WellFormed(h.node, st2) && Disjoint(st1, st2)
      requires h.Owned(st1, m) && h.Owned(st2, m)
      modifies h
      ensures h.Valid() && h.Owned(st, m) && h.Since(old(h.owner), old(h.mmans))
      ensures GlueResult(old(h.node), h.node, st1, st2, st, Concat(LangOf(old(h.node), st1), LangOf(old(h.node), st2)))
      ensures st != [] && ProfileOf(h.node, st) == SequenceOfProfiles(
        LangOf(old(h.node), st1), ProfileOf(old(h.node), st1), LangOf(old(h.node), st2), ProfileOf(old(h.node), st2))
    {
      hide WellFormed, GlueResult, LangOf, Concat, OwnedBy, Stays, Heap.Valid, ProfileOf, SequenceOfProfiles,
        SequenceOf, Edited;
      ghost var g := h.node;
      EndsIn(g, st1);
      EndsIn(g, st2);
      EndsDiffer(g, st1, st2);
      var e := h.New(Node([], [], []), m);
      ghost var o := h.owner;
      var s := h.New(Node([st1[0]], [], []), m);
      OwnedNew(old(h.owner), o, h.owner, e, s, m);
      OwnedAround(old(h.owner), h.owner, st1, st2, e, s, m);
      var end1, end2 := st1[|st1| - 1], st2[|st2| - 1];
      h.Set(e, Node([e], [], []));
      h.Set(end1, Patch(h.node[end1], st2[0]));
      h.Set(end2, Patch(h.node[end2], e));
      st := [s] + st1 + st2 + [e];
      EditedGlue(g, e, Node([], [], []), Node([e], [], []), s, Node([st1[0]], [], []), end1, Patch(g[end1], st2[0]),
                 end2, Patch(g[end2], e), h.node);
      SequenceMade(g, st1, st2, h.node, s, e);
      SequenceProfile(g, st1, st2, h.node, s, e);
    }

    static method Fork(h: Heap, st1: seq<nat>, st2: seq<nat>, m: nat) returns (st: seq<nat>)
      requires h.Valid() && WellFormed(h.node, st1) && WellFormed(h.node, st2) && Disjoint(st1, st2)
      requires h.Owned(st1, m) && h.Owned(st2, m)
      modifies h
      ensures h.Valid() && h.Owned(st, m) && h.Since(old(h.owner), old(h.mmans))
      ensures GlueResult(old(h.node), h.node, st1, st2, st, LangOf(old(h.node), st1) + LangOf(old(h.node), st2))
      ensures st != [] && ProfileOf(h.node, st) ==
        OrOfProfiles(ProfileOf(old(h.node), st1), ProfileOf(old(h.node), st2))
    {
      hide WellFormed, GlueResult, LangOf, OwnedBy, Stays, Heap.Valid, ProfileOf, OrOfProfiles, OrOf,
        Edited;
      ghost var g := h.node;
      EndsIn(g, st1);
      EndsIn(g, st2);
      EndsDiffer(g, st1, st2);
      var e := h.New(Node([], [], []), m);
      ghost var o := h.owner;
      var s := h.New(Node([st1[0], st2[0]], [], []), m);
      OwnedNew(old(h.owner), o, h.owner, e, s, m);
      OwnedAround(old(h.owner), h.owner, st1, st2, e, s, m);
      var end1, end2 := st1[|st1| - 1], st2[|st2| - 1];
      h.Set(e, Node([e], [], []));
      h.Set(end1, Patch(h.node[end1], e));
      h.Set(end2, Patch(h.node[end2], e));
      st := [s] + st1 + st2 + [e];
      EditedGlue(g, e, Node([], [], []), Node([e], [], []), s, Node([st1[0], st2[0]], [], []), end1, Patch(g[end1], e),
                 end2, Patch(g[end2], e), h.node);
      OrMade(g, st1, st2, h.node, s, e);
      OrProfile(g, st1, st2, h.node, s, e);
    }

    /** The loop is entered in front of the exit. */
    static method LoopAny(h: Heap, st1: seq<nat>, m: nat) returns (st: seq<nat>)
      requires h.Valid() && WellFormed(h.node, st1) && h.Owned(st1, m)
      modifies h
      ensures h.Owned(st, m) && h.Since(old(h.owner), old(h.mmans))
      ensures h.Valid() && GlueResult(old(h.node), h.node, st1, [], st, Star(LangOf(old(h.node), st1)))
      ensures st != [] && ProfileOf(h.node, st) == LoopOfProfile(LangOf(old(h.node), st1), ProfileOf(old(h.node), st1))
      ensures exists s, e :: StarOf(old(h.node), st1, h.node, s, e) && st == [s] + st1 + [e]
    {
      hide StarOf, WellFormed, GlueResult, LangOf, Star, OwnedBy, Stays, Heap.Valid, ProfileOf, LoopOfProfile;
      ghost var g := h.node;
      EndsIn(g, st1);
      var e := h.New(Node([], [], []), m);
      var end1 := st1[|st1| - 1];
      h.Set(e, Node([e], [], []));
      ghost var o := h.owner;
      var s := h.New(Node([st1[0], e], [], []), m);
      OwnedLoop(old(h.owner), o, h.owner, st1, e, s, m);
      h.Set(end1, Patch(h.node[end1], s));
      st := [s] + st1 + [e];
      StarMade(g, st1, h.node, s, e);
      StarProfile(g, st1, h.node, s, e);
    }

    /** The loop is entered behind the exit. */
    static method LoopOnce(h: Heap, st1: seq<nat>, m: nat) returns (st: seq<nat>)
      requires h.Valid() && WellFormed(h.node, st1) && h.Owned(st1, m)
      modifies h
      ensures h.Owned(st, m) && h.Since(old(h.owner), old(h.mmans))
      ensures h.Valid() && GlueResult(old(h.node), h.node, st1, [], st, Plus(LangOf(old(h.node), st1)))
      ensures st != [] && ProfileOf(h.node, st) == LoopOfProfile(LangOf(old(h.node), st1), ProfileOf(old(h.node), st1))
    {
      hide WellFormed, GlueResult, LangOf, Plus, OwnedBy, Stays, Heap.Valid, Edited, ProfileOf, LoopOfProfile, PlusOf;
      ghost var g := h.node;
      EndsIn(g, st1);
      var e := h.New(Node([], [], []), m);
      var end1 := st1[|st1| - 1];
      h.Set(e, Node([e], [], []));
      ghost var o := h.owner;
      var s0 := h.New(Node([st1[0]], [], []), m);
      ghost var o1 := h.owner;
      var s := h.New(Node([st1[0], e], [], []), m);
      OwnedThird(old(h.owner), o, o1, h.owner, st1, e, s0, s, m);
      h.Set(end1, Patch(h.node[end1], s));
      st := [s0, s] + st1 + [e];
      EditedLoop(g, e, Node([], [], []), Node([e], [], []), s0, Node([st1[0]], [], []), s, Node([st1[0], e], [], []),
                 end1, Patch(g[end1], s), h.node);
      PlusMade(g, st1, h.node, s0, s, e);
      PlusProfile(g, st1, h.node, s0, s, e);
    }

    method OpSequence(h: Heap, ndfa2: Automaton) returns (err: Err)
      requires h.Valid() && ndfa2 != this && (IsFree() || Valid(h)) && (ndfa2.IsFree() || ndfa2.Valid(h))
      requires Disjoint(states, ndfa2.states)
      modifies this, ndfa2, h
      ensures h.Valid() && h.Since(old(h.owner), old(h.mmans))
      ensures err == EINVAL <==> old(IsFree() || ndfa2.IsFree())
      ensures err == EINVAL ==> unchanged(this) && unchanged(ndfa2) && unchanged(h)
      ensures err == OK ==> ndfa2.IsFree() && Valid(h) && mman == old(mman) && !isDFA
      ensures err == OK ==> GlueResult(old(h.node), h.node, old(states), old(ndfa2.states), states,
        Concat(old(Lang(h)), old(ndfa2.Lang(h))))
      ensures err == OK ==> states != []
      ensures err == OK ==>
        Profile(h) == old(SequenceOfProfiles(Lang(h), Profile(h), ndfa2.Lang(h), ndfa2.Profile(h)))
    {
      hide GlueResult, Adopted, OwnedBy, Stays, Heap.Valid, ProfileOf, SequenceOfProfiles, OrOfProfiles, LangOf, Concat;
      StaysSame(h.owner);
      if |states| < 2 || |ndfa2.states| < 2 {
        return EINVAL;
      }
      ghost var g, st2, L1 := h.node, ndfa2.states, Lang(h);
      var st := Adopt(h, ndfa2, mman);
      AdoptedBeside(g, states, st2, h.node, st);
      AdoptedProfile(g, states, st2, h.node, st);
      OwnedStays(old(h.owner), h.owner, states, mman);
      ghost var g1, o := h.node, h.owner;
      states := Chain(h, states, st, mman);
      GlueAdopted(g, old(states), st2, g1, st, h.node, states, Concat(L1, LangOf(g, st2)));
      StaysTwice(old(h.owner), o, h.owner);
      GlueFormed(g, h.node, old(states), st2, states, Concat(L1, LangOf(g, st2)));
      isDFA := false;
      return OK;
    }

    method OpOr(h: Heap, ndfa2: Automaton) returns (err: Err)
      requires h.Valid() && ndfa2 != this && (IsFree() || Valid(h)) && (ndfa2.IsFree() || ndfa2.Valid(h))
      requires Disjoint(states, ndfa2.states)
      modifies this, ndfa2, h
      ensures h.Valid() && h.Since(old(h.owner), old(h.mmans))
      ensures err == EINVAL <==> old(IsFree() || ndfa2.IsFree())
      ensures err == EINVAL ==> unchanged(this) && unchanged(ndfa2) && unchanged(h)
      ensures err == OK ==> ndfa2.IsFree() && Valid(h) && mman == old(mman) && !isDFA
      ensures err == OK ==> GlueResult(old(h.node), h.node, old(states), old(ndfa2.states), states,
        old(Lang(h)) + old(ndfa2.Lang(h)))
      ensures err == OK ==> states != [] && Profile(h) == old(OrOfProfiles(Profile(h), ndfa2.Profile(h)))
    {
      hide GlueResult, Adopted, OwnedBy, Stays, Heap.Valid, ProfileOf, SequenceOfProfiles, OrOfProfiles, LangOf, Concat;
      StaysSame(h.owner);
      if |states| < 2 || |ndfa2.states| < 2 {
        return EINVAL;
      }
      ghost var g, st2, L1 := h.node, ndfa2.states, Lang(h);
      var st := Adopt(h, ndfa2, mman);
      AdoptedBeside(g, states, st2, h.node, st);
      AdoptedProfile(g, states, st2, h.node, st);
      OwnedStays(old(h.owner), h.owner, states, mman);
      ghost var g1, o := h.node, h.owner;
      states := Fork(h, states, st, mman);
      GlueAdopted(g, old(states), st2, g1, st, h.node, states, L1 + LangOf(g, st2));
      StaysTwice(old(h.owner), o, h.owner);
      GlueFormed(g, h.node, old(states), st2, states, L1 + LangOf(g, st2));
      isDFA := false;
      return OK;
    }

    method OpRepeat(h: Heap, isAtLeastOneTime: bool) returns (err: Err)
      requires h.Valid() && (IsFree() || Valid(h))
      modifies this, h
      ensures h.Valid() && h.Since(old(h.owner), old(h.mmans))
      ensures err == EINVAL <==> old(IsFree())
      ensures err == EINVAL ==> unchanged(this) && unchanged(h)
      ensures err == OK ==> Valid(h) && mman == old(mman) && !isDFA
      ensures err == OK ==> GlueResult(old(h.node), h.node, old(states), [], states,
        if isAtLeastOneTime then Plus(old(Lang(h))) else Star(old(Lang(h))))
      ensures err == OK ==> states != [] && Profile(h) == old(LoopOfProfile(Lang(h), Profile(h)))
      ensures err == OK && !isAtLeastOneTime ==>
        exists s, e :: StarOf(old(h.node), old(states), h.node, s, e) && states == [s] + old(states) + [e]
    {
      hide OwnedBy, Stays, Heap.Valid, GlueResult, StarOf, Star, Plus, LangOf, ProfileOf, LoopOfProfile;
      StaysSame(h.owner);
      if |states| < 2 {
        return EINVAL;
      }
      if isAtLeastOneTime {
        states := LoopOnce(h, states, mman);
      } else {
        states := LoopAny(h, states, mman);
      }
      GlueFormed(old(h.node), h.node, old(states), [], states,
                 if isAtLeastOneTime then Plus(old(Lang(h))) else Star(old(Lang(h))));
      isDFA := false;
      return OK;
    }
  }
}
