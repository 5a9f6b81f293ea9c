/** Transition graphs of finite automata: nodes with empty transitions and
    character-range transitions, and the words read along their paths. */
module Graphs {

  datatype Err = OK | EINVAL

  // char32_t: a 32-bit unsigned character code
  type Char32 = c: nat | c < 0x1_0000_0000

  type Word = seq<Char32>

  /** rangestate_t: the transition may be taken on every character in [from..to]. */
  datatype Trans = Trans(from: Char32, to: Char32, target: nat)

  /** The transitions of one state_t. `chunks` holds the sizes of the
      range_transition_t nodes over which `ranges` is spread, in order. */
  datatype Node = Node(empty: seq<nat>, ranges: seq<Trans>, chunks: seq<nat>)

  type Graph = map<nat, Node>

  predicate Eps(g: Graph, p: nat, q: nat) {
    p in g && q in g[p].empty
  }

  predicate Hit(t: Trans, c: Char32) {
    t.from <= c <= t.to
  }

  ghost predicate Chr(g: Graph, p: nat, c: Char32, q: nat) {
    p in g && exists t :: t in g[p].ranges && Hit(t, c) && t.target == q
  }

  /** There is a path of exactly n transitions from p to q that reads w. */
  ghost predicate Go(g: Graph, p: nat, w: Word, q: nat, n: nat)
    decreases n
  {
    if n == 0 then p == q && w == []
    else
      || (exists r :: Eps(g, p, r) && Go(g, r, w, q, n - 1))
      || (w != [] && exists r :: Chr(g, p, w[0], r) && Go(g, r, w[1..], q, n - 1))
  }

  /** q is reachable from p by reading w. */
  ghost predicate Reads(g: Graph, p: nat, w: Word, q: nat) {
    exists n: nat :: Go(g, p, w, q, n)
  }

  ghost predicate Closed(g: Graph, S: set<nat>) {
    && S <= g.Keys
    && (forall p, q :: p in S && q in g[p].empty ==> q in S)
    && (forall p, t :: p in S && t in g[p].ranges ==> t.target in S)
  }

  lemma {:induction false} GoConcat(g: Graph, p: nat, u: Word, q: nat, m: nat, v: Word, r: nat, n: nat)
    requires Go(g, p, u, q, m) && Go(g, q, v, r, n)
    ensures Go(g, p, u + v, r, m + n)
    decreases m
  {
    if m == 0 {
      assert u + v == v;
    } else if x :| Eps(g, p, x) && Go(g, x, u, q, m - 1) {
      GoConcat(g, x, u, q, m - 1, v, r, n);
      assert Go(g, x, u + v, r, m + n - 1);
    } else {
      var x :| Chr(g, p, u[0], x) && Go(g, x, u[1..], q, m - 1);
      GoConcat(g, x, u[1..], q, m - 1, v, r, n);
      assert (u + v)[1..] == u[1..] + v;
      assert Chr(g, p, (u + v)[0], x) && Go(g, x, (u + v)[1..], r, m + n - 1);
    }
  }

  lemma ReadsConcat(g: Graph, p: nat, u: Word, q: nat, v: Word, r: nat)
    requires Reads(g, p, u, q) && Reads(g, q, v, r)
    ensures Reads(g, p, u + v, r)
  {
    var m: nat :| Go(g, p, u, q, m);
    var n: nat :| Go(g, q, v, r, n);
    GoConcat(g, p, u, q, m, v, r, n);
  }

  lemma ReadsNothing(g: Graph, p: nat)
    ensures Reads(g, p, [], p)
  {
    assert Go(g, p, [], p, 0);
  }

  lemma ReadsEps(g: Graph, p: nat, q: nat)
    requires Eps(g, p, q)
    ensures Reads(g, p, [], q)
  {
    assert Go(g, q, [], q, 0);
    assert Go(g, p, [], q, 1);
  }

  lemma ReadsChr(g: Graph, p: nat, c: Char32, q: nat)
    requires Chr(g, p, c, q)
    ensures Reads(g, p, [c], q)
  {
    var w: Word := [c];
    assert w[1..] == [];
    assert Go(g, q, w[1..], q, 0);
    assert Chr(g, p, w[0], q);
    assert Go(g, p, w, q, 1);
  }

  lemma EpsThenReads(g: Graph, p: nat, x: nat, w: Word, q: nat)
    requires Eps(g, p, x) && Reads(g, x, w, q)
    ensures Reads(g, p, w, q)
  {
    ReadsEps(g, p, x);
    ReadsConcat(g, p, [], x, w, q);
    assert [] + w == w;
  }

  lemma ChrThenReads(g: Graph, p: nat, x: nat, w: Word, q: nat)
    requires w != [] && Chr(g, p, w[0], x) && Reads(g, x, w[1..], q)
    ensures Reads(g, p, w, q)
  {
    ReadsChr(g, p, w[0], x);
    ReadsConcat(g, p, [w[0]], x, w[1..], q);
    assert [w[0]] + w[1..] == w;
  }

  /** Paths that start in a closed set of states stay in it. */
  lemma {:induction false} GoStays(g: Graph, S: set<nat>, p: nat, w: Word, q: nat, n: nat)
    requires Closed(g, S) && p in S && Go(g, p, w, q, n)
    ensures q in S
    decreases n
  {
    if n == 0 {
    } else if x :| Eps(g, p, x) && Go(g, x, w, q, n - 1) {
      GoStays(g, S, x, w, q, n - 1);
    } else {
      var x :| Chr(g, p, w[0], x) && Go(g, x, w[1..], q, n - 1);
      GoStays(g, S, x, w[1..], q, n - 1);
    }
  }

  ghost predicate Agree(g: Graph, g': Graph, S: set<nat>) {
    S <= g.Keys && S <= g'.Keys && forall p :: p in S ==> g[p] == g'[p]
  }

  /** Transitions outside a closed set of states cannot change what it reads. */
  lemma {:induction false} GoFrame(g: Graph, g': Graph, S: set<nat>, p: nat, w: Word, q: nat, n: nat)
    requires Closed(g, S) && Agree(g, g', S) && p in S && Go(g, p, w, q, n)
    ensures Go(g', p, w, q, n)
    decreases n
  {
    if n == 0 {
    } else if x :| Eps(g, p, x) && Go(g, x, w, q, n - 1) {
      GoFrame(g, g', S, x, w, q, n - 1);
      assert Eps(g', p, x);
    } else {
      var x :| Chr(g, p, w[0], x) && Go(g, x, w[1..], q, n - 1);
      GoFrame(g, g', S, x, w[1..], q, n - 1);
      assert Chr(g', p, w[0], x);
    }
  }

  lemma ReadsFrame(g: Graph, g': Graph, S: set<nat>, p: nat, w: Word, q: nat)
    requires Closed(g, S) && Agree(g, g', S) && p in S
    ensures Reads(g, p, w, q) == Reads(g', p, w, q)
  {
    if n: nat :| Go(g, p, w, q, n) {
      GoFrame(g, g', S, p, w, q, n);
    }
    if n: nat :| Go(g', p, w, q, n) {
      GoFrame(g', g, S, p, w, q, n);
    }
  }
}
