/** Automata as lists of states over a graph, and how gluing automata together
    by their end states combines the languages they accept. */
module Thompson {
  import opened Sequences
  import opened Graphs
  import opened Languages

  function States(st: seq<nat>): set<nat> {
    set s | s in st
  }

  function Start(st: seq<nat>): nat
    requires st != []
  {
    st[0]
  }

  function End(st: seq<nat>): nat
    requires st != []
  {
    st[|st| - 1]
  }

  function Sum(s: seq<nat>): nat {
    if s == [] then 0 else s[0] + Sum(s[1..])
  }

  /** The invariant of automat_t: start is first, end is last, and the last
      empty transition of the end state leads back to itself. */
  ghost predicate WellFormed(g: Graph, st: seq<nat>) {
    && |st| >= 2
    && Distinct(st)
    && Closed(g, States(st))
    && EndLoop(g, End(st))
  }

  lemma EdgesStay(g: Graph, st: seq<nat>, p: nat)
    requires WellFormed(g, st) && p in st
    ensures p in g
    ensures forall r :: r in g[p].empty ==> r in st
    ensures forall t :: t in g[p].ranges ==> t.target in st
  {
    assert p in States(st);
    forall r | r in g[p].empty ensures r in st { assert r in States(st); }
    forall t | t in g[p].ranges ensures t.target in st { assert t.target in States(st); }
  }

  lemma ClosedBy(g: Graph, st: seq<nat>)
    requires forall p :: p in st ==> p in g
    requires forall p, r :: p in st && r in g[p].empty ==> r in st
    requires forall p, t :: p in st && t in g[p].ranges ==> t.target in st
    ensures Closed(g, States(st))
  {
  }

  ghost predicate EndLoop(g: Graph, e: nat) {
    e in g && g[e].empty != [] && g[e].empty[|g[e].empty| - 1] == e
  }

  ghost function LangOf(g: Graph, st: seq<nat>): Lang
    requires st != []
  {
    iset w: Word | Reads(g, Start(st), w, End(st))
  }

  lemma LangFrame(g: Graph, g': Graph, st: seq<nat>)
    requires WellFormed(g, st) && Agree(g, g', States(st))
    ensures WellFormed(g', st) && LangOf(g', st) == LangOf(g, st)
  {
    forall w: Word ensures Reads(g, Start(st), w, End(st)) == Reads(g', Start(st), w, End(st)) {
      ReadsFrame(g, g', States(st), Start(st), w, End(st));
    }
  }

  /** last_emptylist(&node->emptylist)->state = x */
  function Patch(node: Node, x: nat): Node
    requires node.empty != []
  {
    node.(empty := node.empty[|node.empty| - 1 := x])
  }

  /** g' contains the automaton st of g, with the self-loop of its end state
      redirected to a state x outside of it. */
  ghost predicate Glued(g: Graph, st: seq<nat>, g': Graph, x: nat) {
    && WellFormed(g, st)
    && States(st) <= g'.Keys
    && x !in st
    && g'[End(st)] == Patch(g[End(st)], x)
    && forall p :: p in st && p != End(st) ==> g'[p] == g[p]
  }

  lemma {:induction false} EnterGlued(g: Graph, st: seq<nat>, g': Graph, x: nat, p: nat, w: Word, n: nat)
    requires Glued(g, st, g', x) && p in st && Go(g, p, w, End(st), n)
    ensures Reads(g', p, w, End(st))
    decreases n
  {
    var e := End(st);
    EdgesStay(g, st, p);
    if n == 0 {
      ReadsNothing(g', p);
    } else if r :| Eps(g, p, r) && Go(g, r, w, e, n - 1) {
      EnterGlued(g, st, g', x, r, w, n - 1);
      var i :| 0 <= i < |g[p].empty| && g[p].empty[i] == r;
      assert g'[p].empty[i] == r || (p == e && r == e);
      if Eps(g', p, r) {
        EpsThenReads(g', p, r, w, e);
      }
    } else {
      var r :| Chr(g, p, w[0], r) && Go(g, r, w[1..], e, n - 1);
      EnterGlued(g, st, g', x, r, w[1..], n - 1);
      assert Chr(g', p, w[0], r);
      ChrThenReads(g', p, r, w, e);
    }
  }

  lemma GluedEps(g: Graph, st: seq<nat>, g': Graph, x: nat, p: nat, r: nat)
    requires Glued(g, st, g', x) && p in st && Eps(g', p, r)
    ensures if r == x then p == End(st) else r in st && Eps(g, p, r)
  {
    EdgesStay(g, st, p);
    var i :| 0 <= i < |g'[p].empty| && g'[p].empty[i] == r;
    assert r != x ==> g[p].empty[i] == r;
  }

  lemma GluedChr(g: Graph, st: seq<nat>, g': Graph, x: nat, p: nat, c: Char32, r: nat)
    requires Glued(g, st, g', x) && p in st && Chr(g', p, c, r)
    ensures r in st && Chr(g, p, c, r)
  {
    EdgesStay(g, st, p);
  }

  /** A path that leaves the glued automaton reads one of its words and then moves to x. */
  lemma {:induction false} ExitGlued(g: Graph, st: seq<nat>, g': Graph, x: nat, p: nat, w: Word, f: nat, n: nat)
    returns (k: nat, m: nat)
    requires Glued(g, st, g', x) && p in st && f !in st && Go(g', p, w, f, n)
    ensures k <= |w| && m < n
    ensures Reads(g, p, w[..k], End(st)) && Go(g', x, w[k..], f, m)
    decreases n
  {
    hide Glued, Reads;
    var e := End(st);
    if r :| Eps(g', p, r) && Go(g', r, w, f, n - 1) {
      GluedEps(g, st, g', x, p, r);
      if r == x {
        k, m := 0, n - 1;
        ReadsNothing(g, e);
        assert w[..0] == [] && w[0..] == w;
      } else {
        k, m := ExitGlued(g, st, g', x, r, w, f, n - 1);
        EpsThenReads(g, p, r, w[..k], e);
      }
    } else {
      var r :| Chr(g', p, w[0], r) && Go(g', r, w[1..], f, n - 1);
      GluedChr(g, st, g', x, p, w[0], r);
      k, m := ExitGlued(g, st, g', x, r, w[1..], f, n - 1);
      FirstTaken(w, k);
      ChrThenReads(g, p, r, w[..k + 1], e);
      k := k + 1;
    }
  }

  lemma FirstTaken(w: Word, k: nat)
    requires w != [] && k <= |w[1..]|
    ensures w[..k + 1] != [] && w[..k + 1][0] == w[0] && w[..k + 1][1..] == w[1..][..k] && w[1..][k..] == w[k + 1..]
  {
  }

  /** initempty_state(s, s): all there is to read in such a state is nothing. */
  lemma {:induction false} LoopOnly(g: Graph, e: nat, w: Word, f: nat, n: nat)
    requires e in g && g[e].empty == [e] && g[e].ranges == [] && Go(g, e, w, f, n)
    ensures w == [] && f == e
    decreases n
  {
    if n > 0 {
      assert !exists r :: w != [] && Chr(g, e, w[0], r);
      LoopOnly(g, e, w, f, n - 1);
    }
  }

  ghost predicate EpsState(g: Graph, p: nat, targets: seq<nat>) {
    p in g && g[p].empty == targets && g[p].ranges == []
  }

  lemma EpsStateStep(g: Graph, p: nat, targets: seq<nat>, w: Word, f: nat, n: nat) returns (r: nat)
    requires EpsState(g, p, targets) && Go(g, p, w, f, n) && p != f
    ensures n > 0 && r in targets && Go(g, r, w, f, n - 1)
  {
    assert n > 0;
    assert !exists r :: w != [] && Chr(g, p, w[0], r);
    r :| Eps(g, p, r) && Go(g, r, w, f, n - 1);
  }

  /** opsequence_automat: s -> (st1) -> (st2) -> e */
  lemma SequenceReads(g: Graph, st1: seq<nat>, st2: seq<nat>, g': Graph, s: nat, e: nat, w: Word)
    requires st2 != [] && Glued(g, st1, g', Start(st2)) && Glued(g, st2, g', e)
    requires e !in st1 && s != e
    requires EpsState(g', s, [Start(st1)]) && EpsState(g', e, [e])
    requires Reads(g', s, w, e)
    ensures w in Concat(LangOf(g, st1), LangOf(g, st2))
  {
    var n: nat :| Go(g', s, w, e, n);
    var r := EpsStateStep(g', s, [Start(st1)], w, e, n);
    var k, m := ExitGlued(g, st1, g', Start(st2), Start(st1), w, e, n - 1);
    var k2, m2 := ExitGlued(g, st2, g', e, Start(st2), w[k..], e, m);
    LoopOnly(g', e, w[k..][k2..], e, m2);
    assert w[k..][..k2] == w[k..];
    assert Splits(LangOf(g, st1), LangOf(g, st2), w, k);
  }

  lemma SequenceAccepts(g: Graph, st1: seq<nat>, st2: seq<nat>, g': Graph, s: nat, e: nat, w: Word)
    requires st2 != [] && Glued(g, st1, g', Start(st2)) && Glued(g, st2, g', e)
    requires EpsState(g', s, [Start(st1)])
    requires w in Concat(LangOf(g, st1), LangOf(g, st2))
    ensures Reads(g', s, w, e)
  {
    var k: nat :| Splits(LangOf(g, st1), LangOf(g, st2), w, k);
    ThroughGlued(g, st1, g', Start(st2), w[..k]);
    ThroughGlued(g, st2, g', e, w[k..]);
    ReadsConcat(g', Start(st1), w[..k], Start(st2), w[k..], e);
    assert w[..k] + w[k..] == w;
    EpsThenReads(g', s, Start(st1), w, e);
  }

  lemma SequenceLang(g: Graph, st1: seq<nat>, st2: seq<nat>, g': Graph, s: nat, e: nat)
    requires st2 != [] && Glued(g, st1, g', Start(st2)) && Glued(g, st2, g', e)
    requires e !in st1 && s != e
    requires EpsState(g', s, [Start(st1)]) && EpsState(g', e, [e])
    ensures LangOf(g', [s] + st1 + st2 + [e]) == Concat(LangOf(g, st1), LangOf(g, st2))
  {
    var st := [s] + st1 + st2 + [e];
    assert Start(st) == s && End(st) == e;
    forall w: Word ensures Reads(g', s, w, e) <==> w in Concat(LangOf(g, st1), LangOf(g, st2)) {
      if Reads(g', s, w, e) {
        SequenceReads(g, st1, st2, g', s, e, w);
      }
      if w in Concat(LangOf(g, st1), LangOf(g, st2)) {
        SequenceAccepts(g, st1, st2, g', s, e, w);
      }
    }
  }

  lemma ThroughGlued(g: Graph, st: seq<nat>, g': Graph, x: nat, w: Word)
    requires Glued(g, st, g', x) && w in LangOf(g, st)
    ensures Reads(g', Start(st), w, x)
  {
    var e := End(st);
    var n: nat :| Go(g, Start(st), w, e, n);
    EnterGlued(g, st, g', x, Start(st), w, n);
    assert g'[e].empty[|g'[e].empty| - 1] == x;
    ReadsEps(g', e, x);
    ReadsConcat(g', Start(st), w, e, [], x);
    assert w + [] == w;
  }

  /** opor_automat: s -> (st1) -> e and s -> (st2) -> e */
  lemma OrLang(g: Graph, st1: seq<nat>, st2: seq<nat>, g': Graph, s: nat, e: nat)
    requires Glued(g, st1, g', e) && Glued(g, st2, g', e)
    requires s != e
    requires EpsState(g', s, [Start(st1), Start(st2)]) && EpsState(g', e, [e])
    ensures LangOf(g', [s] + st1 + st2 + [e]) == LangOf(g, st1) + LangOf(g, st2)
  {
    var st := [s] + st1 + st2 + [e];
    assert Start(st) == s && End(st) == e;
    forall w: Word | Reads(g', s, w, e) ensures w in LangOf(g, st1) + LangOf(g, st2) {
      var n: nat :| Go(g', s, w, e, n);
      var r := EpsStateStep(g', s, [Start(st1), Start(st2)], w, e, n);
      var sti := if r == Start(st1) then st1 else st2;
      var k, m := ExitGlued(g, sti, g', e, Start(sti), w, e, n - 1);
      LoopOnly(g', e, w[k..], e, m);
      assert w[..k] == w;
    }
    forall w: Word | w in LangOf(g, st1) + LangOf(g, st2) ensures Reads(g', s, w, e) {
      var sti := if w in LangOf(g, st1) then st1 else st2;
      ThroughGlued(g, sti, g', e, w);
      EpsThenReads(g', s, Start(sti), w, e);
    }
  }

  /** oprepeat_automat: the loop s -> (st) -> s with an exit s -> e */
  lemma {:induction false} LoopReads(g: Graph, st: seq<nat>, g': Graph, s: nat, e: nat, w: Word, n: nat)
    requires Glued(g, st, g', s) && s != e && e !in st
    requires EpsState(g', s, [Start(st), e]) && EpsState(g', e, [e])
    requires Go(g', s, w, e, n)
    ensures w in Star(LangOf(g, st))
    decreases n
  {
    var r := EpsStateStep(g', s, [Start(st), e], w, e, n);
    if r == e {
      LoopOnly(g', e, w, e, n - 1);
    } else {
      var k, m := ExitGlued(g, st, g', s, Start(st), w, e, n - 1);
      LoopReads(g, st, g', s, e, w[k..], m);
      StarStep(LangOf(g, st), w[..k], w[k..]);
      assert w[..k] + w[k..] == w;
    }
  }

  lemma {:induction false} LoopAccepts(g: Graph, st: seq<nat>, g': Graph, s: nat, e: nat, w: Word)
    requires Glued(g, st, g', s) && s != e
    requires EpsState(g', s, [Start(st), e]) && EpsState(g', e, [e])
    requires InStar(LangOf(g, st), w)
    ensures Reads(g', s, w, e)
    decreases |w|
  {
    if w == [] {
      ReadsEps(g', s, e);
    } else {
      var L := LangOf(g, st);
      var k: nat :| 0 < k <= |w| && w[..k] in L && InStar(L, w[k..]);
      LoopAccepts(g, st, g', s, e, w[k..]);
      ThroughGlued(g, st, g', s, w[..k]);
      EpsThenReads(g', s, Start(st), w[..k], s);
      ReadsConcat(g', s, w[..k], s, w[k..], e);
      assert w[..k] + w[k..] == w;
    }
  }

  lemma StarLang(g: Graph, st: seq<nat>, g': Graph, s: nat, e: nat)
    requires Glued(g, st, g', s) && s != e && e !in st
    requires EpsState(g', s, [Start(st), e]) && EpsState(g', e, [e])
    ensures LangOf(g', [s] + st + [e]) == Star(LangOf(g, st))
  {
    assert Start([s] + st + [e]) == s && End([s] + st + [e]) == e;
    forall w: Word ensures Reads(g', s, w, e) <==> w in Star(LangOf(g, st)) {
      if Reads(g', s, w, e) {
        var n: nat :| Go(g', s, w, e, n);
        LoopReads(g, st, g', s, e, w, n);
      }
      if w in Star(LangOf(g, st)) {
        LoopAccepts(g, st, g', s, e, w);
      }
    }
  }

  lemma PlusLang(g: Graph, st: seq<nat>, g': Graph, s0: nat, s: nat, e: nat)
    requires Glued(g, st, g', s) && s != e && e !in st && s0 != e
    requires EpsState(g', s0, [Start(st)])
    requires EpsState(g', s, [Start(st), e]) && EpsState(g', e, [e])
    ensures LangOf(g', [s0, s] + st + [e]) == Plus(LangOf(g, st))
  {
    var L := LangOf(g, st);
    assert Start([s0, s] + st + [e]) == s0 && End([s0, s] + st + [e]) == e;
    forall w: Word | Reads(g', s0, w, e) ensures w in Plus(L) {
      var n: nat :| Go(g', s0, w, e, n);
      var r := EpsStateStep(g', s0, [Start(st)], w, e, n);
      var k, m := ExitGlued(g, st, g', s, Start(st), w, e, n - 1);
      LoopReads(g, st, g', s, e, w[k..], m);
      assert Splits(L, Star(L), w, k);
    }
    forall w: Word | w in Plus(L) ensures Reads(g', s0, w, e) {
      var k: nat :| Splits(L, Star(L), w, k);
      ThroughGlued(g, st, g', s, w[..k]);
      LoopAccepts(g, st, g', s, e, w[k..]);
      ReadsConcat(g', Start(st), w[..k], s, w[k..], e);
      assert w[..k] + w[k..] == w;
      EpsThenReads(g', s0, Start(st), w, e);
    }
  }

  /** No character range is turned around. */
  ghost predicate Upright(g: Graph, st: seq<nat>) {
    forall p :: p in st ==> UprightAt(g, p)
  }

  ghost predicate UprightAt(g: Graph, p: nat) {
    !HasInverted(g, p)
  }

  /** The state has a transition from > to. */
  predicate HasInverted(g: Graph, p: nat) {
    p in g && exists t :: t in g[p].ranges && t.from > t.to
  }

  /** Only the states in own may differ; the states of the result are own or new ones. */
  ghost predicate Confined(g: Graph, g': Graph, own: set<nat>, st: seq<nat>) {
    && (forall p :: p in g ==> p in g')
    && (forall p :: p in g && p !in own ==> g'[p] == g[p])
    && (forall p :: p in st ==> p in own || p !in g)
  }

  /** The automaton st' accepts L. It was built in g' out of the states in own and of new ones. */
  ghost predicate Built(g: Graph, g': Graph, own: set<nat>, st': seq<nat>, L: Lang) {
    && WellFormed(g', st')
    && LangOf(g', st') == L
    && Confined(g, g', own, st')
  }
}
