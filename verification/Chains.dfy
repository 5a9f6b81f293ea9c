/** Chains of states whose only transition is an empty one. An automaton without
    a cycle of such states carries a rank that decreases along every chain; one
    whose reversal has no such cycle carries a rank that increases. */
module Chains {
  import opened Graphs
  import opened Thompson

  type Rank = map<nat, nat>

  function Of(f: Rank, s: nat): nat {
    if s in f then f[s] else 0
  }

  /** The state has a single transition, an empty one, that leads elsewhere. */
  predicate Single(g: Graph, s: nat) {
    s in g && g[s].ranges == [] && |g[s].empty| == 1 && g[s].empty[0] != s
  }

  ghost predicate RankedBy(g: Graph, st: seq<nat>, f: Rank) {
    forall s :: s in st && Single(g, s) ==> Of(f, g[s].empty[0]) < Of(f, s)
  }

  /** No cycle of states with a single empty transition, except self-loops. */
  ghost predicate Ranked(g: Graph, st: seq<nat>) {
    exists f: Rank :: RankedBy(g, st, f)
  }

  /** The empty transitions of r other than the final self-loop of the end state. */
  function Inside(g: Graph, st: seq<nat>, r: nat): seq<nat>
    requires st != []
  {
    if r !in g then []
    else if r == End(st) && g[r].empty != [] then g[r].empty[..|g[r].empty| - 1]
    else g[r].empty
  }

  /** How often x occurs in s. */
  function Count(s: seq<nat>, x: nat): nat {
    multiset(s)[x]
  }

  /** There is a single transition to t, an empty one, and it starts in s. */
  ghost predicate OnlyFrom(g: Graph, st: seq<nat>, s: nat, t: nat)
    requires st != []
  {
    && s != t
    && s in st
    && Count(Inside(g, st, s), t) == 1
    && (forall r :: r in st && t in Inside(g, st, r) ==> r == s)
    && (forall r, c :: r in st && r in g && c in g[r].ranges ==> c.target != t)
  }

  ghost predicate BackRankedBy(g: Graph, st: seq<nat>, f: Rank)
    requires st != []
  {
    forall s, t :: t in st && t != Start(st) && OnlyFrom(g, st, s, t) ==> Of(f, s) < Of(f, t)
  }

  /** No cycle of states, each of them entered only by an empty transition from the one before. */
  ghost predicate BackRanked(g: Graph, st: seq<nat>)
    requires st != []
  {
    exists f: Rank :: BackRankedBy(g, st, f)
  }

  ghost predicate ReversibleBy(g: Graph, st: seq<nat>, f: Rank)
    requires st != []
  {
    forall s, t :: t in st && t != Start(st) && t != End(st) && OnlyFrom(g, st, s, t) ==> Of(f, s) < Of(f, t)
  }

  /** The same without regard to the end state: after reversal no cycle of states with a single
      empty transition remains. */
  ghost predicate Reversible(g: Graph, st: seq<nat>)
    requires st != []
  {
    exists f: Rank :: ReversibleBy(g, st, f)
  }

  lemma BackRankedReversible(g: Graph, st: seq<nat>)
    requires st != [] && BackRanked(g, st)
    ensures Reversible(g, st)
  {
    var f: Rank :| BackRankedBy(g, st, f);
    assert ReversibleBy(g, st, f);
  }

  /** A single element. */
  lemma OneElement(s: seq<nat>, x: nat)
    requires Count(s, x) == 1 && forall y :: y in s ==> y == x
    ensures s == [x]
  {
    assert x in s;
    assert s[0] in s;
    var rest := s[1..];
    assert s == [x] + rest;
    assert multiset(s) == multiset([x]) + multiset(rest);
    assert x !in rest;
    assert forall i :: 0 <= i < |rest| ==> rest[i] in rest && rest[i] in s;
  }

  lemma {:induction false} Bound(f: Rank) returns (b: nat)
    ensures forall s :: Of(f, s) <= b
    decreases |f|
  {
    if f == map[] {
      b := 0;
    } else {
      var s :| s in f;
      var f' := f - {s};
      assert |f'.Keys| < |f.Keys| by { assert f'.Keys == f.Keys - {s}; }
      var b' := Bound(f');
      b := if b' < f[s] then f[s] else b';
      forall x ensures Of(f, x) <= b { assert x != s ==> Of(f', x) == Of(f, x); }
    }
  }

  lemma RankFrame(g: Graph, g': Graph, st: seq<nat>)
    requires WellFormed(g, st) && Agree(g, g', States(st))
    ensures Ranked(g, st) == Ranked(g', st) && BackRanked(g, st) == BackRanked(g', st)
  {
    RankFrame1(g, g', st);
    LangFrame(g, g', st);
    RankFrame1(g', g, st);
  }

  lemma RankFrame1(g: Graph, g': Graph, st: seq<nat>)
    requires WellFormed(g, st) && Agree(g, g', States(st))
    ensures Ranked(g, st) ==> Ranked(g', st)
    ensures BackRanked(g, st) ==> BackRanked(g', st)
  {
    assert forall p :: p in st ==> p in States(st) && g[p] == g'[p];
    if f: Rank :| RankedBy(g, st, f) {
      assert RankedBy(g', st, f);
    }
    if f: Rank :| BackRankedBy(g, st, f) {
      forall s, t | t in st && t != Start(st) && OnlyFrom(g', st, s, t) ensures Of(f, s) < Of(f, t) {
        assert forall r :: r in st ==> Inside(g, st, r) == Inside(g', st, r);
        assert OnlyFrom(g, st, s, t);
      }
      assert BackRankedBy(g', st, f);
    }
  }

  /** Within a glued automaton the ranks of the old one still fit, except at its end state. */
  lemma GluedForward(g: Graph, st: seq<nat>, g': Graph, x: nat, f: Rank, f': Rank, d: nat)
    requires Glued(g, st, g', x) && RankedBy(g, st, f)
    requires forall p :: p in st ==> Of(f', p) == Of(f, p) + d
    requires Of(f', x) < d
    ensures RankedBy(g', st, f')
  {
    forall s | s in st && Single(g', s) ensures Of(f', g'[s].empty[0]) < Of(f', s) {
      EdgesStay(g, st, s);
      if s != End(st) { assert g[s].empty[0] in st; }
    }
  }

  lemma GluedInside(g: Graph, st: seq<nat>, g': Graph, x: nat, st': seq<nat>, r: nat, t: nat)
    requires Glued(g, st, g', x) && st' != [] && End(st') !in st && r in st && t in st
    ensures Count(Inside(g, st, r), t) == Count(Inside(g', st', r), t)
  {
    EdgesStay(g, st, r);
    var a, b := g[r].empty, g'[r].empty;
    if r == End(st) {
      assert a[..|a| - 1] == b[..|b| - 1] && b == b[..|b| - 1] + [x];
    }
  }

  lemma GluedBackward(g: Graph, st: seq<nat>, g': Graph, x: nat, st': seq<nat>, s: nat, t: nat)
    requires Glued(g, st, g', x) && st' != [] && End(st') !in st
    requires forall p :: p in st ==> p in st'
    requires t in st && OnlyFrom(g', st', s, t)
    ensures s in st ==> OnlyFrom(g, st, s, t)
  {
    if s in st {
      hide WellFormed;
      forall r | r in st ensures Count(Inside(g, st, r), t) == Count(Inside(g', st', r), t) {
        GluedInside(g, st, g', x, st', r, t);
      }
      forall r, c | r in st && r in g && c in g[r].ranges ensures c.target != t {
        assert c in g'[r].ranges;
      }
    }
  }
}
