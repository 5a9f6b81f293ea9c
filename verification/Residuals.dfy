/** What is left to be read in the states of a deterministic automaton. */
module Residuals {
  import opened Graphs
  import opened Languages
  import opened Thompson
  import opened Subset

  lemma FirstChar(g: Graph, st: seq<nat>, p: nat, w: Word, n: nat) returns (q: nat)
    requires Deterministic(g, st) && p in st && w != [] && Go(g, p, w, End(st), n)
    ensures n > 0 && Chr(g, p, w[0], q) && Go(g, q, w[1..], End(st), n - 1)
  {
    hide WellFormed, Chunked, RangesSorted;
    var e := End(st);
    if p == e {
      LoopOnly(g, e, w, e, n);
    }
    assert DfaNode(g, p, e);
    q := FirstMove(g, p, e, w, n);
  }

  /** Apart from the end state, a word leads to one state of a deterministic automaton only. */
  lemma {:induction false} OneState(g: Graph, st: seq<nat>, p: nat, w: Word, q: nat, n: nat, q': nat, n': nat)
    requires Deterministic(g, st) && p in st && q != End(st) && q' != End(st)
    requires Go(g, p, w, q, n) && Go(g, p, w, q', n')
    ensures q == q'
    decreases n
  {
    hide Deterministic, WellFormed, RangesSorted, Chunked;
    var e := End(st);
    EndAtEnd(g, st);
    if p == e {
      LoopOnly(g, e, w, q, n);
    }
    TargetsStay(g, st, p);
    var r := OneStep(g, st, p, w, q, n);
    var r' := OneStep(g, st, p, w, q', n');
    if w != [] {
      OneTarget(g, st, p, w[0], r, r');
      OneState(g, st, r, w[1..], q, n - 1, q', n' - 1);
    }
  }

  lemma SameTarget(ts: seq<Trans>, c: Char32, q: nat, r: nat)
    requires RangesSorted(ts) && Sends(ts, c, q) && Sends(ts, c, r)
    ensures q == r
  {
    var t :| t in ts && Graphs.Hit(t, c) && t.target == q;
    var u :| u in ts && Graphs.Hit(u, c) && u.target == r;
    var i :| 0 <= i < |ts| && ts[i] == t;
    var j :| 0 <= j < |ts| && ts[j] == u;
  }

  /** A path that does not end in the end state does not take its empty transition. */
  lemma OneStep(g: Graph, st: seq<nat>, p: nat, w: Word, q: nat, n: nat) returns (r: nat)
    requires Deterministic(g, st) && p in st && p != End(st) && q != End(st) && Go(g, p, w, q, n)
    ensures w == [] ==> p == q
    ensures w != [] ==> n > 0 && Sends(g[p].ranges, w[0], r) && Go(g, r, w[1..], q, n - 1)
  {
    var e := End(st);
    assert DfaNode(g, p, e);
    r := 0;
    if n > 0 {
      if x :| Eps(g, p, x) && Go(g, x, w, q, n - 1) {
        LoopOnly(g, e, w, q, n - 1);
      } else {
        r :| Chr(g, p, w[0], r) && Go(g, r, w[1..], q, n - 1);
      }
    }
  }

  lemma NoWord(g: Graph, e: nat, w: Word)
    requires EpsState(g, e, [e]) && w != []
    ensures !Reads(g, e, w, e)
  {
    if n: nat :| Go(g, e, w, e, n) {
      LoopOnly(g, e, w, e, n);
    }
  }

  /** After the word u everything is as it was before. */
  ghost predicate BackBy(L: Lang, u: Word) {
    u != [] && forall w: Word :: u + w in L <==> w in L
  }

  /** Some word leads back to all of the language. */
  ghost predicate Returns(L: Lang) {
    L != iset{} && exists u: Word :: BackBy(L, u)
  }

  /** A transition on some character leads to t. */
  ghost predicate Entered(g: Graph, st: seq<nat>, t: nat)
    requires st != []
  {
    exists s, c: Char32 :: s in st && s != End(st) && s in g && Sends(g[s].ranges, c, t)
  }

  /** Half way through a word that is accepted. */
  lemma {:induction false} SplitWord(g: Graph, st: seq<nat>, p: nat, u: Word, w: Word, n: nat) returns (t: nat)
    requires Deterministic(g, st) && p in st && w != [] && Go(g, p, u + w, End(st), n)
    ensures t in st && t != End(st) && Reads(g, p, u, t) && Reads(g, t, w, End(st)) && (u != [] ==> Entered(g, st, t))
    decreases |u|
  {
    hide Chunked, RangesSorted, WellFormed, Reads;
    var e := End(st);
    if p == e {
      LoopOnly(g, e, u + w, e, n);
    }
    t := p;
    if u == [] {
      assert u + w == w;
      ReadsNothing(g, p);
      GoReads(g, p, w, e, n);
    } else {
      var q := FirstChar(g, st, p, u + w, n);
      assert (u + w)[1..] == u[1..] + w;
      TargetsStay(g, st, p);
      t := SplitWord(g, st, q, u[1..], w, n - 1);
      ChrThenReads(g, p, q, u, t);
      if u[1..] == [] {
        SameEmpty(g, st, q, t);
        assert Sends(g[p].ranges, u[0], t);
      }
    }
  }

  lemma GoReads(g: Graph, p: nat, w: Word, q: nat, n: nat)
    requires Go(g, p, w, q, n)
    ensures Reads(g, p, w, q)
  {
  }

  lemma EndAtEnd(g: Graph, st: seq<nat>)
    requires Deterministic(g, st)
    ensures st != [] && EpsState(g, End(st), [End(st)])
  {
  }

  lemma PathOf(g: Graph, p: nat, w: Word, q: nat) returns (n: nat)
    requires Reads(g, p, w, q)
    ensures Go(g, p, w, q, n)
  {
    n :| Go(g, p, w, q, n);
  }

  lemma TargetsStay(g: Graph, st: seq<nat>, p: nat)
    requires Deterministic(g, st) && p in st
    ensures p in g && forall t :: t in g[p].ranges ==> t.target in st
  {
    EdgesStay(g, st, p);
  }

  lemma SameEmpty(g: Graph, st: seq<nat>, p: nat, q: nat)
    requires Deterministic(g, st) && p in st && q != End(st) && Reads(g, p, [], q)
    ensures p == q
  {
    var n: nat :| Go(g, p, [], q, n);
    if p == End(st) {
      LoopOnly(g, p, [], q, n);
    } else {
      var r := OneStep(g, st, p, [], q, n);
    }
  }

  /** The state that u leads to accepts what may follow u. */
  lemma Residual(g: Graph, st: seq<nat>, p: nat, u: Word, t: nat, w: Word, n: nat)
    requires Deterministic(g, st) && p in st && t != End(st) && Go(g, p, u, t, n)
    ensures Reads(g, p, u + w, End(st)) <==> Reads(g, t, w, End(st))
  {
    hide Chunked, RangesSorted, WellFormed, Reads, Deterministic;
    var e := End(st);
    GoReads(g, p, u, t, n);
    if Reads(g, t, w, e) {
      ReadsConcat(g, p, u, t, w, e);
    }
    if Reads(g, p, u + w, e) {
      ResidualOf(g, st, p, u, t, w, n);
    }
  }

  lemma {:induction false} ResidualOf(g: Graph, st: seq<nat>, p: nat, u: Word, t: nat, w: Word, n: nat)
    requires Deterministic(g, st) && p in st && t != End(st) && Go(g, p, u, t, n) && Reads(g, p, u + w, End(st))
    ensures Reads(g, t, w, End(st))
    decreases |u|
  {
    hide Chunked, RangesSorted, WellFormed, Deterministic, Reads;
    var e := End(st);
    EndAtEnd(g, st);
    if p == e {
      LoopOnly(g, e, u, t, n);
    }
    var r := OneStep(g, st, p, u, t, n);
    if u == [] {
      assert u + w == w;
    } else {
      var m := PathOf(g, p, u + w, e);
      var q := FirstChar(g, st, p, u + w, m);
      assert (u + w)[1..] == u[1..] + w;
      TargetsStay(g, st, p);
      OneTarget(g, st, p, u[0], q, r);
      GoReads(g, q, u[1..] + w, e, m - 1);
      ResidualOf(g, st, r, u[1..], t, w, n - 1);
    }
  }

  lemma OneTarget(g: Graph, st: seq<nat>, p: nat, c: Char32, q: nat, r: nat)
    requires Deterministic(g, st) && p in st && p != End(st) && p in g
    requires Sends(g[p].ranges, c, q) && Sends(g[p].ranges, c, r)
    ensures q == r
  {
    assert DfaNode(g, p, End(st));
    SameTarget(g[p].ranges, c, q, r);
  }

  /** a* for some character a returns: every a leads back to the start. */
  lemma StarReturns(a: Char32)
    ensures Returns(Star(CharLang([a], [a])))
  {
    var L, one := Star(CharLang([a], [a])), CharLang([a], [a]);
    assert [a] in one;
    forall w: Word ensures [a] + w in L <==> w in L {
      if w in L { StarStep(one, [a], w); }
      if InStar(one, [a] + w) { StarRest(a, w); }
    }
    assert BackBy(L, [a]);
    assert [] in L;
  }

  lemma StarRest(a: Char32, w: Word)
    requires InStar(CharLang([a], [a]), [a] + w)
    ensures InStar(CharLang([a], [a]), w)
  {
    assert ([a] + w)[1..] == w;
  }

  /** A language whose words are bounded never returns. */
  lemma BoundedNeverReturns(L: Lang, bound: nat)
    requires forall w: Word :: w in L ==> |w| <= bound
    ensures !Returns(L)
  {
    if Returns(L) {
      var u: Word :| BackBy(L, u);
      var w: Word :| w in L;
      var v := LongWord(L, u, w, bound + 1);
    }
  }

  lemma {:induction false} LongWord(L: Lang, u: Word, w: Word, k: nat) returns (v: Word)
    requires BackBy(L, u) && w in L
    ensures v in L && |v| >= k
  {
    v := w;
    if k > 0 {
      v := LongWord(L, u, w, k - 1);
      v := u + v;
    }
  }
}
