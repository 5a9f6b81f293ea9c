/** makedfa_automat and makedfa2_automat: the subset construction. */
module Determinize {
  import opened Sequences
  import opened Graphs
  import opened Thompson
  import opened Subset
  import opened Scanning
  import opened Exploring
  import opened Visiting
  import Closures
  import Glue
  import MultiStates

  /** The transition is turned from the statevector to its state. */
  function Turned(t: Trans, dfa: seq<nat>): Trans {
    Trans(t.from, t.to, if t.target < |dfa| then dfa[t.target] else t.target)
  }

  function Converted(n: Node, dfa: seq<nat>): (r: Node)
    ensures r.empty == n.empty && r.chunks == n.chunks && |r.ranges| == |n.ranges|
  {
    n.(ranges := seq(|n.ranges|, i requires 0 <= i < |n.ranges| => Turned(n.ranges[i], dfa)))
  }

  /** All statevectors have been processed. */
  ghost predicate Complete(src: Source, base: nat, v: Vecs, dfa: seq<nat>, raw: Graph) {
    Explored(src, base, v, dfa, raw) && |dfa| == |v.vecs| > 0
  }

  function SubsetsOf(base: nat, v: Vecs, raw: Graph): Subsets {
    map s | s in raw && base < s <= base + |v.vecs| :: States(v.vecs[s - base - 1])
  }

  /** The new automaton has been put into the graph. */
  ghost predicate Placed(g: Graph, base: nat, dfa: seq<nat>, raw: Graph) {
    && base in g && g[base] == Node([base], [], [])
    && forall s :: s in raw ==> s in g && g[s] == Converted(raw[s], dfa)
  }

  lemma SendsConverted(n: Node, dfa: seq<nat>, c: Char32, q: nat)
    requires forall c: Char32, m: nat :: Sends(n.ranges, c, m) ==> m < |dfa|
    ensures Sends(Converted(n, dfa).ranges, c, q) <==>
      exists m: nat :: Sends(n.ranges, c, m) && m < |dfa| && dfa[m] == q
  {
    var ts, ts' := n.ranges, Converted(n, dfa).ranges;
    if t' :| t' in ts' && Hit(t', c) && t'.target == q {
      var i :| 0 <= i < |ts'| && ts'[i] == t';
      assert ts[i] in ts && Hit(ts[i], c) && Sends(ts, c, ts[i].target);
    }
    if m: nat :| Sends(ts, c, m) && m < |dfa| && dfa[m] == q {
      var t :| t in ts && Hit(t, c) && t.target == m;
      var i :| 0 <= i < |ts| && ts[i] == t;
      assert ts'[i] in ts' && Hit(ts'[i], c);
    }
  }

  /** The set of a statevector, and what its node does. */
  lemma RawAt(src: Source, base: nat, v: Vecs, dfa: seq<nat>, raw: Graph, s: nat)
    requires Complete(src, base, v, dfa, raw) && s in raw
    ensures base < s <= base + |v.vecs| && |dfa| == |v.vecs| && dfa[s - base - 1] == s
    ensures RawFor(src, raw[s], v.vecs, States(v.vecs[s - base - 1]), base)
    ensures s != base + 1 ==> NotOnlyEnd(raw[s]) && Useful(src, States(v.vecs[s - base - 1]))
    ensures States(v.vecs[s - base - 1]) <= src.S1 + src.S2 && EpsClosed(src.g, States(v.vecs[s - base - 1]))
  {
    hide RawFor, Final, EpsClosed, Found, Indexed, Useful;
    assert ExploredAt(src, base, v.vecs, dfa, raw, s - base - 1);
  }

  lemma StandsAt(src: Source, base: nat, v: Vecs, dfa: seq<nat>, raw: Graph, Q: set<nat>, c: Char32, m: nat)
    requires Complete(src, base, v, dfa, raw) && m < |v.vecs| && LeadsTo(src, Q, c, States(v.vecs[m]))
    ensures Stands(src, Q, c, dfa[m], base, SubsetsOf(base, v, raw))
  {
    hide RawFor, Final, LeadsTo, Found, Indexed, Sets;
    assert ExploredAt(src, base, v.vecs, dfa, raw, m);
  }

  lemma SeparateConverted(src: Source, base: nat, v: Vecs, dfa: seq<nat>, raw: Graph, s: nat)
    requires Complete(src, base, v, dfa, raw) && s in raw && Apart(raw[s].ranges)
    requires forall t :: t in raw[s].ranges ==> t.target < |dfa|
    ensures Separate(Converted(raw[s], dfa).ranges, base)
  {
    hide RawFor, Final, Found, Indexed, Sets, RawKeys;
    var ts, ts' := raw[s].ranges, Converted(raw[s], dfa).ranges;
    forall i | 0 <= i < |ts'| - 1 && ts'[i].to + 1 == ts'[i + 1].from && ts'[i].target == ts'[i + 1].target
      ensures ts'[i].target == base
    {
      var a, b := ts[i].target, ts[i + 1].target;
      assert ts[i] in ts && ts[i + 1] in ts && a != b;
      assert ExploredAt(src, base, v.vecs, dfa, raw, a) && ExploredAt(src, base, v.vecs, dfa, raw, b);
    }
  }

  lemma TargetsIn(src: Source, base: nat, v: Vecs, dfa: seq<nat>, raw: Graph, s: nat)
    requires Complete(src, base, v, dfa, raw) && s in raw
    ensures Apart(raw[s].ranges) && forall t :: t in raw[s].ranges ==> t.target < |dfa|
  {
    RawAt(src, base, v, dfa, raw, s);
    hide Complete;
    forall t | t in raw[s].ranges ensures t.target < |dfa| {
      var i :| 0 <= i < |raw[s].ranges| && raw[s].ranges[i] == t;
      assert Hit(t, t.from) && Sends(raw[s].ranges, t.from, t.target);
    }
  }

  lemma NodeConverted(src: Source, base: nat, v: Vecs, dfa: seq<nat>, raw: Graph, s: nat)
    requires Complete(src, base, v, dfa, raw) && s in raw
    ensures base < s <= base + |v.vecs|
    ensures NodeFor(src, Converted(raw[s], dfa), States(v.vecs[s - base - 1]), base, SubsetsOf(base, v, raw))
  {
    hide Complete, Dead, LeadsTo, EpsClosed, Stands, Sends;
    RawAt(src, base, v, dfa, raw, s);
    TargetsIn(src, base, v, dfa, raw, s);
    SeparateConverted(src, base, v, dfa, raw, s);
    var n, Q, sub := raw[s], States(v.vecs[s - base - 1]), SubsetsOf(base, v, raw);
    var n' := Converted(n, dfa);
    forall c: Char32, q: nat | Sends(n'.ranges, c, q) ensures Stands(src, Q, c, q, base, sub) {
      SendsConverted(n, dfa, c, q);
      var m: nat :| Sends(n.ranges, c, m) && m < |dfa| && dfa[m] == q;
      StandsAt(src, base, v, dfa, raw, Q, c, m);
    }
    forall c: Char32 | forall q: nat :: !Sends(n'.ranges, c, q) ensures Dead(src, Q, c) {
      forall m: nat ensures !Sends(n.ranges, c, m) {
        if Sends(n.ranges, c, m) {
          SendsConverted(n, dfa, c, dfa[m]);
        }
      }
    }
  }

  lemma SubsetsDiffer(src: Source, base: nat, v: Vecs, dfa: seq<nat>, raw: Graph)
    requires Complete(src, base, v, dfa, raw)
    ensures var sub := SubsetsOf(base, v, raw); forall s, t :: s in sub && t in sub && s != t ==> sub[s] != sub[t]
  {
    hide ExploredAt, Found, RawKeys;
    var sub := SubsetsOf(base, v, raw);
    forall s, t | s in sub && t in sub && sub[s] == sub[t] ensures s == t {
      SameVec(v, s - base - 1, t - base - 1);
    }
  }

  /** Every statevector has been reached from the first one. */
  lemma {:induction false} Reached(src: Source, base: nat, v: Vecs, dfa: seq<nat>, raw: Graph, g: Graph, i: nat)
    returns (u: Word)
    requires Complete(src, base, v, dfa, raw) && Placed(g, base, dfa, raw) && i < |dfa|
    ensures Reads(g, base + 1, u, dfa[i])
    decreases i
  {
    assert ExploredAt(src, base, v.vecs, dfa, raw, i);
    if i == 0 {
      u := [];
      ReadsNothing(g, base + 1);
    } else {
      var j, c := FoundAt(src, base, v, dfa, raw, i);
      var s := dfa[j];
      var u0 := Reached(src, base, v, dfa, raw, g, j);
      SendsConverted(raw[s], dfa, c, dfa[i]);
      assert Chr(g, s, c, dfa[i]);
      ReadsChr(g, s, c, dfa[i]);
      ReadsConcat(g, base + 1, u0, s, [c], dfa[i]);
      u := u0 + [c];
    }
  }

  lemma FoundAt(src: Source, base: nat, v: Vecs, dfa: seq<nat>, raw: Graph, i: nat) returns (j: nat, c: Char32)
    requires Complete(src, base, v, dfa, raw) && 0 < i < |dfa|
    ensures j < i && dfa[j] != base && dfa[j] in raw && Sends(raw[dfa[j]].ranges, c, i)
    ensures forall c: Char32, m: nat :: Sends(raw[dfa[j]].ranges, c, m) ==> m < |dfa|
  {
    assert Found(dfa, raw, base, i);
    j :| FoundFrom(dfa, raw, base, j, i);
    assert ExploredAt(src, base, v.vecs, dfa, raw, j);
    c :| Sends(raw[dfa[j]].ranges, c, i);
  }

  /** The list of the states that have been made, in the order of their statevectors. */
  ghost predicate Listed(order: seq<nat>, raw: Graph, base: nat) {
    && (forall s :: s in order <==> s in raw)
    && Distinct(order) && (order != [] ==> order[0] == base + 1)
  }

  lemma TargetsStay(src: Source, base: nat, v: Vecs, dfa: seq<nat>, raw: Graph, s: nat)
    requires Complete(src, base, v, dfa, raw) && s in raw
    ensures forall r :: r in Converted(raw[s], dfa).empty ==> r == base
    ensures forall t :: t in Converted(raw[s], dfa).ranges ==> t.target == base || t.target in raw
  {
    hide InvertedIn, Final, EpsClosed, LeadsTo, Dead, Found, Indexed, Sets;
    RawAt(src, base, v, dfa, raw, s);
    var n := raw[s];
    var n' := Converted(n, dfa);
    forall t' | t' in n'.ranges ensures t'.target == base || t'.target in raw {
      var i :| 0 <= i < |n'.ranges| && n'.ranges[i] == t';
      var t := n.ranges[i];
      assert t in n.ranges && Hit(t, t.from) && Sends(n.ranges, t.from, t.target);
      assert ExploredAt(src, base, v.vecs, dfa, raw, t.target);
    }
  }

  lemma PlacedWellFormed(src: Source, base: nat, v: Vecs, dfa: seq<nat>, raw: Graph, g: Graph, order: seq<nat>)
    requires Complete(src, base, v, dfa, raw) && Placed(g, base, dfa, raw) && Listed(order, raw, base) && order != []
    ensures WellFormed(g, order + [base])
  {
    hide Complete;
    var st := order + [base];
    forall p | p in st
      ensures p in g
      ensures forall r :: r in g[p].empty ==> r in st
      ensures forall t :: t in g[p].ranges ==> t.target in st
    {
      if p in raw { TargetsStay(src, base, v, dfa, raw, p); }
    }
    ClosedBy(g, st);
    assert base !in raw by { NotBase(src, base, v, dfa, raw); }
  }

  lemma NotBase(src: Source, base: nat, v: Vecs, dfa: seq<nat>, raw: Graph)
    requires Complete(src, base, v, dfa, raw)
    ensures base !in raw && base + 1 in raw
    ensures forall s :: s in raw ==> base < s <= base + |v.vecs|
  {
    hide RawFor, Final, Found, Indexed, Sets;
    assert ExploredAt(src, base, v.vecs, dfa, raw, 0);
  }

  lemma NodesBuilt(src: Source, base: nat, v: Vecs, dfa: seq<nat>, raw: Graph, g: Graph)
    requires Complete(src, base, v, dfa, raw) && Placed(g, base, dfa, raw)
    ensures var sub := SubsetsOf(base, v, raw); forall s :: s in sub ==> s in g && NodeFor(src, g[s], sub[s], base, sub)
    ensures forall s :: s in raw && s != base + 1 ==>
      NotOnlyEnd(g[s]) && base < s <= base + |v.vecs| && Useful(src, States(v.vecs[s - base - 1]))
  {
    hide Complete, NodeFor, Useful;
    var sub := SubsetsOf(base, v, raw);
    forall s | s in sub ensures NodeFor(src, g[s], sub[s], base, sub) {
      NodeConverted(src, base, v, dfa, raw, s);
    }
    forall s | s in raw && s != base + 1
      ensures NotOnlyEnd(g[s]) && base < s <= base + |v.vecs| && Useful(src, States(v.vecs[s - base - 1]))
    {
      RawAt(src, base, v, dfa, raw, s);
    }
  }

  lemma AllReached(src: Source, base: nat, v: Vecs, dfa: seq<nat>, raw: Graph, g: Graph, first: nat)
    requires Complete(src, base, v, dfa, raw) && Placed(g, base, dfa, raw) && first == base + 1
    ensures forall s :: s in raw ==> exists u: Word :: Reads(g, first, u, s)
  {
    hide Complete, Placed, Reads, RawFor;
    forall s | s in raw ensures exists u: Word :: Reads(g, first, u, s) {
      RawAt(src, base, v, dfa, raw, s);
      var u := Reached(src, base, v, dfa, raw, g, s - base - 1);
    }
  }

  lemma PlacedEnd(g: Graph, base: nat, dfa: seq<nat>, raw: Graph)
    requires Placed(g, base, dfa, raw)
    ensures EpsState(g, base, [base]) && Chunked(g[base])
  {
  }

  /** The automaton that has been built is the subset automaton. */
  lemma SubsetBuilt(src: Source, base: nat, v: Vecs, dfa: seq<nat>, raw: Graph, g: Graph, order: seq<nat>)
    requires Complete(src, base, v, dfa, raw) && Placed(g, base, dfa, raw) && Listed(order, raw, base) && Proper(src)
    ensures v.vecs != [] && SubsetDfa(src, States(v.vecs[0]), g, order + [base], SubsetsOf(base, v, raw))
  {
    hide Explored, Proper, NodeFor, WellFormed, Reads, Useful, NotOnlyEnd, Placed;
    PlacedEnd(g, base, dfa, raw);
    NotBase(src, base, v, dfa, raw);
    assert order != [] by { assert base + 1 in order; }
    PlacedWellFormed(src, base, v, dfa, raw, g, order);
    SubsetsDiffer(src, base, v, dfa, raw);
    NodesBuilt(src, base, v, dfa, raw, g);
    AllReached(src, base, v, dfa, raw, g, order[0]);
    assert States(order + [base]) - {base} == SubsetsOf(base, v, raw).Keys;
  }

  /** The worklist: every statevector is processed, and those found on the way are appended. */
  method Explore(ghost src: Source, g: Graph, op: Op, nrdfa: map<nat, nat>, nrend: map<nat, bv8>, start: seq<nat>,
                 base: nat)
    returns (err: Err, v: Vecs, dfa: seq<nat>, raw: Graph, order: seq<nat>)
    requires src.g == g && src.op == op && Proper(src) && Flagged(src, nrdfa, nrend)
    requires MultiStates.Ascending(start) && States(start) <= src.S1 + src.S2 && EpsClosed(g, States(start))
    ensures err == OK ==> Complete(src, base, v, dfa, raw) && Listed(order, raw, base) && v.vecs[0] == start
    ensures err == EINVAL <==> VisitsInverted(src, States(start))
  {
    hide Proper, Flagged, Explored, Listed, VisitsInverted, InvertedIn;
    v, dfa, raw, order := Vecs([start], map[start := 0]), [], map[], [];
    ExploredStart(src, base, v, start);
    ghost var S := src.S1 + src.S2;
    Bound(src, base, v, dfa, raw, S);
    while |dfa| < |v.vecs|
      invariant Explored(src, base, v, dfa, raw) && Listed(order, raw, base) && |dfa| <= |v.vecs| <= |Power(S)|
      invariant v.vecs != [] && v.vecs[0] == start
      decreases |Power(S)| - |dfa|
    {
      var v1, n;
      ExploredParts(src, base, v, dfa, raw);
      err, v1, n := Process(src, g, op, nrdfa, nrend, v, |dfa|, base);
      if err != OK {
        InvertedFound(src, base, v, dfa, raw);
        return;
      }
      v, dfa, raw, order := Advance(src, base, v, dfa, raw, order, v1, n);
      Bound(src, base, v, dfa, raw, S);
    }
    err := OK;
    NoneInverted(src, base, v, dfa, raw);
  }

  /** Every statevector is visited. */
  lemma {:induction false} VecVisited(src: Source, base: nat, v: Vecs, dfa: seq<nat>, raw: Graph, m: nat)
    returns (u: Word)
    requires Explored(src, base, v, dfa, raw) && m < |v.vecs|
    ensures Visits(src, States(v.vecs[0]), u, States(v.vecs[m]))
    decreases m
  {
    hide Explored, LeadsTo, Useful, Sends;
    if m == 0 {
      u := [];
    } else {
      var j, c := FoundBy(src, base, v, dfa, raw, m);
      u := VecVisited(src, base, v, dfa, raw, j);
      VisitsMore(src, States(v.vecs[0]), u, States(v.vecs[j]), c, States(v.vecs[m]));
      u := u + [c];
    }
  }

  lemma FoundBy(src: Source, base: nat, v: Vecs, dfa: seq<nat>, raw: Graph, m: nat) returns (j: nat, c: Char32)
    requires Explored(src, base, v, dfa, raw) && 0 < m < |v.vecs|
    ensures j < m && LeadsTo(src, States(v.vecs[j]), c, States(v.vecs[m])) && Useful(src, States(v.vecs[m]))
  {
    hide LeadsTo, Useful, Dead, InvertedIn, RawKeys, Indexed;
    assert Found(dfa, raw, base, m);
    j :| FoundFrom(dfa, raw, base, j, m);
    assert ExploredAt(src, base, v.vecs, dfa, raw, j);
    c :| Sends(raw[dfa[j]].ranges, c, m);
  }

  /** A statevector with a range from > to is visited. */
  lemma InvertedFound(src: Source, base: nat, v: Vecs, dfa: seq<nat>, raw: Graph)
    requires Explored(src, base, v, dfa, raw) && |dfa| < |v.vecs| && InvertedIn(src.g, States(v.vecs[|dfa|]))
    ensures VisitsInverted(src, States(v.vecs[0]))
  {
    hide Explored, InvertedIn, Visits;
    var u := VecVisited(src, base, v, dfa, raw, |dfa|);
  }

  /** Every set that is visited has been processed. */
  lemma {:induction false} VisitedVec(src: Source, base: nat, v: Vecs, dfa: seq<nat>, raw: Graph, i: nat, u: Word,
                                      C: set<nat>)
    returns (k: nat)
    requires Complete(src, base, v, dfa, raw) && i < |v.vecs| && Visits(src, States(v.vecs[i]), u, C)
    ensures k < |v.vecs| && C == States(v.vecs[k])
    decreases |u|
  {
    hide Complete, LeadsTo, Useful;
    if u == [] {
      k := i;
    } else {
      var B :| LeadsTo(src, States(v.vecs[i]), u[0], B) && Useful(src, B) && Visits(src, B, u[1..], C);
      var q := NextVec(src, base, v, dfa, raw, i, u[0], B);
      k := VisitedVec(src, base, v, dfa, raw, q, u[1..], C);
    }
  }

  lemma NextVec(src: Source, base: nat, v: Vecs, dfa: seq<nat>, raw: Graph, i: nat, c: Char32, B: set<nat>)
    returns (q: nat)
    requires Complete(src, base, v, dfa, raw) && i < |v.vecs| && LeadsTo(src, States(v.vecs[i]), c, B) && Useful(src, B)
    ensures q < |v.vecs| && B == States(v.vecs[q])
  {
    hide LeadsTo, Useful, Dead, Found, Indexed, Sets, RawKeys, InvertedIn;
    var Q := States(v.vecs[i]);
    assert ExploredAt(src, base, v.vecs, dfa, raw, i);
    if Dead(src, Q, c) {
      DeadEnds(src, Q, c, B);
    }
    assert dfa[i] != base;
    q :| Sends(raw[dfa[i]].ranges, c, q);
    LeadsToUnique(src, Q, c, B, States(v.vecs[q]));
  }

  lemma NoneInverted(src: Source, base: nat, v: Vecs, dfa: seq<nat>, raw: Graph)
    requires Complete(src, base, v, dfa, raw) && v.vecs != []
    ensures !VisitsInverted(src, States(v.vecs[0]))
  {
    hide Complete, Visits, InvertedIn;
    if u: Word, C :| Visits(src, States(v.vecs[0]), u, C) && InvertedIn(src.g, C) {
      var k := VisitedVec(src, base, v, dfa, raw, 0, u, C);
      UprightVec(src, base, v, dfa, raw, k);
    }
  }

  lemma UprightVec(src: Source, base: nat, v: Vecs, dfa: seq<nat>, raw: Graph, k: nat)
    requires Complete(src, base, v, dfa, raw) && k < |v.vecs|
    ensures !InvertedIn(src.g, States(v.vecs[k]))
  {
    hide InvertedIn, RawFor, Final, Found, Indexed, Sets, RawKeys;
    assert ExploredAt(src, base, v.vecs, dfa, raw, k);
  }

  lemma ExploredStart(src: Source, base: nat, v: Vecs, start: seq<nat>)
    requires MultiStates.Ascending(start) && States(start) <= src.S1 + src.S2 && EpsClosed(src.g, States(start))
    requires v == Vecs([start], map[start := 0])
    ensures Explored(src, base, v, [], map[]) && Listed([], map[], base)
  {
  }

  lemma Bound(src: Source, base: nat, v: Vecs, dfa: seq<nat>, raw: Graph, S: set<nat>)
    requires Explored(src, base, v, dfa, raw) && S == src.S1 + src.S2
    ensures |dfa| <= |v.vecs| <= |Power(S)|
  {
    hide ExploredAt, Found, RawKeys, Indexed, Sets, Power;
    VecsBound(src, v, S);
  }

  lemma ExploredParts(src: Source, base: nat, v: Vecs, dfa: seq<nat>, raw: Graph)
    requires Explored(src, base, v, dfa, raw)
    ensures Indexed(v) && Sets(src, v)
  {
  }

  /** The statevector that has been processed gets its state. */
  method Advance(ghost src: Source, base: nat, v0: Vecs, dfa0: seq<nat>, raw0: Graph, order0: seq<nat>, v1: Vecs,
                 n: Node)
    returns (v: Vecs, dfa: seq<nat>, raw: Graph, order: seq<nat>)
    requires Explored(src, base, v0, dfa0, raw0) && Listed(order0, raw0, base) && |dfa0| < |v0.vecs|
    requires Scanned(src, States(v0.vecs[|dfa0|]), v1, |v0.vecs|, n, CHARS) && Extends(v0, v1)
    requires n.empty == (if IsEnd(src, States(v0.vecs[|dfa0|])) then [base] else [])
    requires !InvertedIn(src.g, States(v0.vecs[|dfa0|]))
    ensures Explored(src, base, v, dfa, raw) && Listed(order, raw, base) && |dfa| == |dfa0| + 1
    ensures v == v1
  {
    hide Explored, Scanned, Listed, IsEnd, InvertedIn;
    v := v1;
    if |n.empty| != 0 && |n.ranges| == 0 && |dfa0| != 0 {
      ExploredEnd(src, base, v0, dfa0, raw0, v1, n);
      dfa, raw, order := dfa0 + [base], raw0, order0;
    } else {
      ExploredNew(src, base, v0, dfa0, raw0, v1, n);
      ListedMore(src, base, v0, dfa0, raw0, order0, n);
      var s := base + 1 + |dfa0|;
      dfa, raw, order := dfa0 + [s], raw0[s := n], order0 + [s];
    }
  }

  lemma ListedMore(src: Source, base: nat, v: Vecs, dfa: seq<nat>, raw: Graph, order: seq<nat>, n: Node)
    requires Explored(src, base, v, dfa, raw) && Listed(order, raw, base)
    ensures Listed(order + [base + 1 + |dfa|], raw[base + 1 + |dfa| := n], base)
  {
    hide ExploredAt, Found, Indexed, Sets;
    var s := base + 1 + |dfa|;
    assert s !in raw;
    if |dfa| > 0 {
      FirstMade(src, base, v, dfa, raw);
      assert base + 1 in order;
    }
  }

  lemma FirstMade(src: Source, base: nat, v: Vecs, dfa: seq<nat>, raw: Graph)
    requires Explored(src, base, v, dfa, raw) && |dfa| > 0
    ensures base + 1 in raw
  {
    hide RawFor, Final, Found, Indexed, Sets;
    assert ExploredAt(src, base, v.vecs, dfa, raw, 0);
  }

  /** Converts the targets of all transitions of a state. */
  method ConvertNode(n: Node, dfa: seq<nat>) returns (r: Node)
    requires forall t :: t in n.ranges ==> t.target < |dfa|
    ensures r == Converted(n, dfa)
  {
    r := n;
    for i := 0 to |n.ranges|
      invariant r.empty == n.empty && r.chunks == n.chunks && |r.ranges| == |n.ranges|
      invariant forall j :: 0 <= j < i ==> r.ranges[j] == Converted(n, dfa).ranges[j]
      invariant forall j :: i <= j < |n.ranges| ==> r.ranges[j] == n.ranges[j]
    {
      assert n.ranges[i] in n.ranges;
      r := r.(ranges := r.ranges[i := r.ranges[i].(target := dfa[r.ranges[i].target])]);
    }
    assert r.ranges == Converted(n, dfa).ranges;
  }

  /** Converts all pointers to statevectors into pointers to states. */
  method ConvertAll(raw: Graph, order: seq<nat>, dfa: seq<nat>, end: nat) returns (g: Graph)
    requires Distinct(order) && (forall s :: s in order <==> s in raw) && end !in raw
    requires forall s, t :: s in raw && t in raw[s].ranges ==> t.target < |dfa|
    ensures g.Keys == raw.Keys + {end} && Placed(g, end, dfa, raw)
  {
    g := raw[end := Node([end], [], [])];
    for i := 0 to |order|
      invariant g.Keys == raw.Keys + {end} && g[end] == Node([end], [], [])
      invariant forall j :: 0 <= j < i ==> g[order[j]] == Converted(raw[order[j]], dfa)
      invariant forall j :: i <= j < |order| ==> g[order[j]] == raw[order[j]]
    {
      var s := order[i];
      assert s in order;
      var n := ConvertNode(g[s], dfa);
      g := g[s := n];
    }
    forall s | s in raw ensures s in g && g[s] == Converted(raw[s], dfa) {
      var j :| 0 <= j < |order| && order[j] == s;
    }
  }

  /** The flags nrdfa and nrendstate of all states. */
  method InitFlags(st1: seq<nat>, st2: seq<nat>, op: Op) returns (nrdfa: map<nat, nat>, nrend: map<nat, bv8>)
    requires st1 != [] && (op == ONE <==> st2 == []) && Glue.Disjoint(st1, st2)
    ensures forall g :: Flagged(SourceOf(g, op, st1, st2), nrdfa, nrend)
  {
    nrdfa, nrend := map[], map[];
    for i := 0 to |st1|
      invariant forall j :: 0 <= j < i ==>
        st1[j] in nrdfa && nrdfa[st1[j]] == 1 && st1[j] in nrend && nrend[st1[j]] == 0
    {
      nrdfa, nrend := nrdfa[st1[i] := 1], nrend[st1[i] := 0];
    }
    nrend := nrend[End(st1) := 1];
    if op != ONE {
      for i := 0 to |st2|
        invariant forall p :: p in st1 ==>
          p in nrdfa && nrdfa[p] == 1 && p in nrend && nrend[p] == if p == End(st1) then 1 else 0
        invariant forall j :: 0 <= j < i ==>
          st2[j] in nrdfa && nrdfa[st2[j]] == 2 && st2[j] in nrend && nrend[st2[j]] == 0
      {
        assert st2[i] in st2;
        nrdfa, nrend := nrdfa[st2[i] := 2], nrend[st2[i] := 0];
      }
      assert End(st2) in st2;
      nrend := nrend[End(st2) := 2];
    }
    assert op == ONE ==> States(st2) == {};
  }

  /** The start set: the start states and what empty transitions lead to. */
  method StartVector(g: Graph, st1: seq<nat>, st2: seq<nat>, op: Op) returns (start: seq<nat>)
    requires Operands(g, op, st1, st2)
    ensures MultiStates.Ascending(start) && States(start) <= States(st1) + States(st2)
    ensures EpsClosed(g, States(start)) && IsClosure(g, Starts(op, st1, st2), States(start))
  {
    hide Closed, IsClosure, EpsClosed, MultiStates.MultiState.Valid, MultiStates.MultiState.Contents;
    var ms := new MultiStates.MultiState();
    ms.MembersNone();
    var _ := ms.Add(st1[0]);
    if op != ONE {
      var _ := ms.Add(st2[0]);
    }
    StartsInside(g, st1, st2, op);
    assert ms.Contents() == Starts(op, st1, st2);
    Closures.FollowEmpty(g, ms, States(st1) + States(st2));
    start := ms.ToSeq();
    assert States(start) == ms.Contents();
    StartClosed(g, st1, st2, op, States(start));
  }

  lemma StartsInside(g: Graph, st1: seq<nat>, st2: seq<nat>, op: Op)
    requires Operands(g, op, st1, st2)
    ensures Starts(op, st1, st2) <= States(st1) + States(st2) && Closed(g, States(st1) + States(st2))
    ensures op == ONE <==> st2 == []
  {
    assert st1[0] in st1 && (op != ONE ==> st2[0] in st2);
    assert op == ONE ==> States(st2) == {};
  }

  lemma StartClosed(g: Graph, st1: seq<nat>, st2: seq<nat>, op: Op, C: set<nat>)
    requires Operands(g, op, st1, st2) && IsClosure(g, Starts(op, st1, st2), C)
    ensures EpsClosed(g, C) && C <= States(st1) + States(st2)
  {
    hide SetReads;
    StartsInside(g, st1, st2, op);
    ClosureWithin(g, Starts(op, st1, st2), C, States(st1) + States(st2));
  }
}
