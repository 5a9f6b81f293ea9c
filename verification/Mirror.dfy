/** Copies and reversals of automata: what a renamed or a reversed graph reads. */
module Mirror {
  import opened Sequences
  import opened Graphs
  import opened Languages
  import opened Thompson
  import opened Chains

  function At(d: map<nat, nat>, p: nat): nat {
    if p in d then d[p] else 0
  }

  /** d names a state of the new graph for every state of st. */
  ghost predicate Naming(st: seq<nat>, d: map<nat, nat>) {
    && (forall p :: p in st <==> p in d)
    && (forall p, q :: p in d && q in d && p != q ==> At(d, p) != At(d, q))
  }

  function MapTrans(ts: seq<Trans>, d: map<nat, nat>): seq<Trans>
    requires forall t :: t in ts ==> t.target in d
  {
    seq(|ts|, i requires 0 <= i < |ts| => Trans(ts[i].from, ts[i].to, At(d, ts[i].target)))
  }

  function MapNode(n: Node, d: map<nat, nat>): Node
    requires forall r :: r in n.empty ==> r in d
    requires forall t :: t in n.ranges ==> t.target in d
  {
    Node(seq(|n.empty|, i requires 0 <= i < |n.empty| => At(d, n.empty[i])), MapTrans(n.ranges, d), n.chunks)
  }

  function Names(st: seq<nat>, d: map<nat, nat>): (r: seq<nat>)
    ensures |r| == |st| && forall i :: 0 <= i < |st| ==> r[i] == At(d, st[i])
  {
    seq(|st|, i requires 0 <= i < |st| => At(d, st[i]))
  }

  ghost predicate CopyOf(g: Graph, st: seq<nat>, g': Graph, d: map<nat, nat>) {
    && WellFormed(g, st) && Naming(st, d)
    && forall p :: p in st ==> Copied(g, g', d, p)
  }

  lemma NodeTargets(n: Node, d: map<nat, nat>)
    requires forall r :: r in n.empty ==> r in d
    requires forall t :: t in n.ranges ==> t.target in d
    ensures forall i :: 0 <= i < |n.empty| ==> MapNode(n, d).empty[i] == At(d, n.empty[i])
    ensures forall i :: 0 <= i < |n.ranges| ==>
              MapNode(n, d).ranges[i] == Trans(n.ranges[i].from, n.ranges[i].to, At(d, n.ranges[i].target))
  {
  }

  lemma CopyEps(g: Graph, st: seq<nat>, g': Graph, d: map<nat, nat>, p: nat, r: nat)
    requires CopyOf(g, st, g', d) && p in st && Eps(g, p, r)
    ensures r in st && Eps(g', At(d, p), At(d, r))
  {
    NodeTargets(g[p], d);
    var i :| 0 <= i < |g[p].empty| && g[p].empty[i] == r;
    assert g'[At(d, p)].empty[i] == At(d, r);
  }

  lemma CopyChr(g: Graph, st: seq<nat>, g': Graph, d: map<nat, nat>, p: nat, c: Char32, r: nat)
    requires CopyOf(g, st, g', d) && p in st && Chr(g, p, c, r)
    ensures r in st && Chr(g', At(d, p), c, At(d, r))
  {
    NodeTargets(g[p], d);
    var i :| 0 <= i < |g[p].ranges| && Hit(g[p].ranges[i], c) && g[p].ranges[i].target == r;
    var t := g'[At(d, p)].ranges[i];
    assert t in g'[At(d, p)].ranges && Hit(t, c) && t.target == At(d, r);
  }

  lemma UncopyEps(g: Graph, st: seq<nat>, g': Graph, d: map<nat, nat>, p: nat, x: nat) returns (r: nat)
    requires CopyOf(g, st, g', d) && p in st && Eps(g', At(d, p), x)
    ensures r in st && x == At(d, r) && Eps(g, p, r)
  {
    NodeTargets(g[p], d);
    var i :| 0 <= i < |g'[At(d, p)].empty| && g'[At(d, p)].empty[i] == x;
    r := g[p].empty[i];
  }

  lemma UncopyTrans(g: Graph, st: seq<nat>, g': Graph, d: map<nat, nat>, p: nat, t: Trans) returns (u: Trans)
    requires CopyOf(g, st, g', d) && p in st && t in g'[At(d, p)].ranges
    ensures u in g[p].ranges && u.target in st && t == Trans(u.from, u.to, At(d, u.target))
  {
    NodeTargets(g[p], d);
    var i :| 0 <= i < |g'[At(d, p)].ranges| && g'[At(d, p)].ranges[i] == t;
    u := g[p].ranges[i];
  }

  lemma UncopyChr(g: Graph, st: seq<nat>, g': Graph, d: map<nat, nat>, p: nat, c: Char32, x: nat) returns (r: nat)
    requires CopyOf(g, st, g', d) && p in st && Chr(g', At(d, p), c, x)
    ensures r in st && x == At(d, r) && Chr(g, p, c, r)
  {
    var t :| t in g'[At(d, p)].ranges && Hit(t, c) && t.target == x;
    var u := UncopyTrans(g, st, g', d, p, t);
    r := u.target;
    EdgesStay(g, st, p);
    assert Hit(u, c);
  }

  lemma UncopyName(st: seq<nat>, d: map<nat, nat>, x: nat) returns (p: nat)
    requires Naming(st, d) && x in Names(st, d)
    ensures p in st && At(d, p) == x
  {
    var i :| 0 <= i < |st| && At(d, st[i]) == x;
    p := st[i];
  }

  lemma NameIn(st: seq<nat>, d: map<nat, nat>, p: nat)
    requires Naming(st, d) && p in st
    ensures At(d, p) in Names(st, d)
  {
    var i :| 0 <= i < |st| && st[i] == p;
    assert Names(st, d)[i] == At(d, p);
  }

  lemma NamesDistinct(st: seq<nat>, d: map<nat, nat>)
    requires Naming(st, d) && Distinct(st)
    ensures Distinct(Names(st, d))
  {
  }

  lemma CopyClosed(g: Graph, st: seq<nat>, g': Graph, d: map<nat, nat>, x: nat)
    requires CopyOf(g, st, g', d) && x in Names(st, d)
    ensures x in g'
    ensures forall r :: r in g'[x].empty ==> r in Names(st, d)
    ensures forall t :: t in g'[x].ranges ==> t.target in Names(st, d)
  {
    var p := UncopyName(st, d, x);
    forall r | r in g'[x].empty ensures r in Names(st, d) {
      var q := UncopyEps(g, st, g', d, p, r);
      NameIn(st, d, q);
    }
    forall t | t in g'[x].ranges ensures t.target in Names(st, d) {
      var u := UncopyTrans(g, st, g', d, p, t);
      NameIn(st, d, u.target);
    }
  }

  lemma CopyEnd(g: Graph, st: seq<nat>, g': Graph, d: map<nat, nat>)
    requires CopyOf(g, st, g', d)
    ensures EndLoop(g', End(Names(st, d)))
  {
    assert Copied(g, g', d, End(st));
    var e := g[End(st)].empty;
    NodeTargets(g[End(st)], d);
    assert g'[At(d, End(st))].empty[|e| - 1] == At(d, e[|e| - 1]);
  }

  lemma CopyWellFormed(g: Graph, st: seq<nat>, g': Graph, d: map<nat, nat>)
    requires CopyOf(g, st, g', d)
    ensures WellFormed(g', Names(st, d))
  {
    NamesDistinct(st, d);
    CopyEnd(g, st, g', d);
    var st' := Names(st, d);
    forall p | p in st'
      ensures p in g'
      ensures forall r :: r in g'[p].empty ==> r in st'
      ensures forall t :: t in g'[p].ranges ==> t.target in st'
    {
      CopyClosed(g, st, g', d, p);
    }
    ClosedBy(g', st');
  }

  lemma {:induction false} CopyGo(g: Graph, st: seq<nat>, g': Graph, d: map<nat, nat>, p: nat, w: Word, q: nat, n: nat)
    requires CopyOf(g, st, g', d) && p in st && Go(g, p, w, q, n)
    ensures q in st && Go(g', At(d, p), w, At(d, q), n)
    decreases n
  {
    hide CopyOf, At;
    if n == 0 {
    } else if r :| Eps(g, p, r) && Go(g, r, w, q, n - 1) {
      CopyEps(g, st, g', d, p, r);
      CopyGo(g, st, g', d, r, w, q, n - 1);
    } else {
      var r :| Chr(g, p, w[0], r) && Go(g, r, w[1..], q, n - 1);
      CopyChr(g, st, g', d, p, w[0], r);
      CopyGo(g, st, g', d, r, w[1..], q, n - 1);
    }
  }

  lemma {:induction false} UncopyGo(g: Graph, st: seq<nat>, g': Graph, d: map<nat, nat>, p: nat, w: Word, x: nat,
                                    n: nat)
    returns (q: nat)
    requires CopyOf(g, st, g', d) && p in st && Go(g', At(d, p), w, x, n)
    ensures q in st && x == At(d, q) && Go(g, p, w, q, n)
    decreases n
  {
    hide CopyOf, At;
    if n == 0 {
      q := p;
    } else if y :| Eps(g', At(d, p), y) && Go(g', y, w, x, n - 1) {
      var r := UncopyEps(g, st, g', d, p, y);
      q := UncopyGo(g, st, g', d, r, w, x, n - 1);
    } else {
      var y :| Chr(g', At(d, p), w[0], y) && Go(g', y, w[1..], x, n - 1);
      var r := UncopyChr(g, st, g', d, p, w[0], y);
      q := UncopyGo(g, st, g', d, r, w[1..], x, n - 1);
    }
  }

  lemma CopyLang(g: Graph, st: seq<nat>, g': Graph, d: map<nat, nat>)
    requires CopyOf(g, st, g', d)
    ensures LangOf(g', Names(st, d)) == LangOf(g, st)
  {
    assert Start(Names(st, d)) == At(d, Start(st)) && End(Names(st, d)) == At(d, End(st));
    assert Start(st) in st && End(st) in st && Naming(st, d);
    hide CopyOf, Names;
    var p, q := Start(st), End(st);
    forall w: Word ensures Reads(g, p, w, q) <==> Reads(g', At(d, p), w, At(d, q)) {
      if n: nat :| Go(g, p, w, q, n) {
        CopyGo(g, st, g', d, p, w, q, n);
      }
      if n: nat :| Go(g', At(d, p), w, At(d, q), n) {
        var x := UncopyGo(g, st, g', d, p, w, At(d, q), n);
        SameName(st, d, q, x);
      }
    }
  }

  lemma SameName(st: seq<nat>, d: map<nat, nat>, p: nat, q: nat)
    requires Naming(st, d) && p in st && q in st && At(d, p) == At(d, q)
    ensures p == q
  {
  }

  lemma RenameRank(st: seq<nat>, d: map<nat, nat>, f: Rank) returns (f': Rank)
    requires Naming(st, d)
    ensures forall p :: p in st ==> Of(f', At(d, p)) == Of(f, p)
  {
    f' := map p | p in st :: At(d, p) := Of(f, p);
  }

  lemma CopyRanked(g: Graph, st: seq<nat>, g': Graph, d: map<nat, nat>)
    requires CopyOf(g, st, g', d)
    ensures Ranked(g, st) ==> Ranked(g', Names(st, d))
  {
    var st' := Names(st, d);
    if f: Rank :| RankedBy(g, st, f) {
      var f' := RenameRank(st, d, f);
      forall s | s in st' && Single(g', s) ensures Of(f', g'[s].empty[0]) < Of(f', s) {
        var i :| 0 <= i < |st| && At(d, st[i]) == s;
        EdgesStay(g, st, st[i]);
        assert g'[s].empty[0] == At(d, g[st[i]].empty[0]);
        assert |g'[s].ranges| == |g[st[i]].ranges|;
      }
      assert RankedBy(g', st', f');
    }
  }

  lemma {:induction false} NamedCount(a: seq<nat>, b: seq<nat>, st: seq<nat>, d: map<nat, nat>, r: nat)
    requires Naming(st, d) && r in st
    requires |a| == |b| && forall i :: 0 <= i < |a| ==> a[i] in st && b[i] == At(d, a[i])
    ensures Count(a, r) == Count(b, At(d, r))
    decreases |a|
  {
    if a != [] {
      var n := |a| - 1;
      NamedCount(a[..n], b[..n], st, d, r);
      assert a == a[..n] + [a[n]] && b == b[..n] + [b[n]];
    }
  }

  lemma CopyEmpty(g: Graph, st: seq<nat>, g': Graph, d: map<nat, nat>, p: nat)
    requires CopyOf(g, st, g', d) && p in st
    ensures p in g && At(d, p) in g' && |g[p].empty| == |g'[At(d, p)].empty|
    ensures forall i :: 0 <= i < |g[p].empty| ==> g[p].empty[i] in st && g'[At(d, p)].empty[i] == At(d, g[p].empty[i])
    ensures p == End(st) ==> g[p].empty != []
  {
    NodeTargets(g[p], d);
  }

  lemma NamesEnd(st: seq<nat>, d: map<nat, nat>, p: nat)
    requires st != [] && Naming(st, d) && p in st
    ensures p == End(st) <==> At(d, p) == End(Names(st, d))
  {
    assert End(st) in st;
  }

  lemma CopyInside(g: Graph, st: seq<nat>, g': Graph, d: map<nat, nat>, p: nat, r: nat)
    requires CopyOf(g, st, g', d) && p in st && r in st
    ensures Count(Inside(g, st, p), r) == Count(Inside(g', Names(st, d), At(d, p)), At(d, r))
  {
    CopyEmpty(g, st, g', d, p);
    NamesEnd(st, d, p);
    assert Naming(st, d);
    hide CopyOf;
    var a, b := g[p].empty, g'[At(d, p)].empty;
    if p == End(st) {
      NamedCount(a[..|a| - 1], b[..|b| - 1], st, d, r);
    } else {
      NamedCount(a, b, st, d, r);
    }
  }

  lemma CopyBackRanked(g: Graph, st: seq<nat>, g': Graph, d: map<nat, nat>)
    requires CopyOf(g, st, g', d)
    ensures BackRanked(g, st) ==> BackRanked(g', Names(st, d))
  {
    var st' := Names(st, d);
    if f: Rank :| BackRankedBy(g, st, f) {
      var f' := RenameRank(st, d, f);
      forall s', t' | t' in st' && t' != Start(st') && OnlyFrom(g', st', s', t') ensures Of(f', s') < Of(f', t') {
        var s := UncopyName(st, d, s');
        var t := UncopyName(st, d, t');
        UncopyOnlyFrom(g, st, g', d, s, t);
      }
      assert BackRankedBy(g', st', f');
    }
  }

  lemma UncopyOnlyFrom(g: Graph, st: seq<nat>, g': Graph, d: map<nat, nat>, s: nat, t: nat)
    requires CopyOf(g, st, g', d) && s in st && t in st
    requires OnlyFrom(g', Names(st, d), At(d, s), At(d, t))
    ensures OnlyFrom(g, st, s, t)
  {
    var st' := Names(st, d);
    CopyInside(g, st, g', d, s, t);
    forall r | r in st && t in Inside(g, st, r) ensures r == s {
      NameIn(st, d, r);
      CopyInside(g, st, g', d, r, t);
    }
    forall r, c | r in st && r in g && c in g[r].ranges ensures c.target != t {
      NameIn(st, d, r);
      NodeTargets(g[r], d);
      var k :| 0 <= k < |g[r].ranges| && g[r].ranges[k] == c;
      assert g'[At(d, r)].ranges[k] in g'[At(d, r)].ranges;
    }
  }

  /** initreverse_automat: every transition of st is turned around; the new end
      state, the copy of the old start state, has a self-loop. */
  ghost predicate ReverseOf(g: Graph, st: seq<nat>, g': Graph, d: map<nat, nat>) {
    && WellFormed(g, st) && Naming(st, d)
    && (forall p :: p in st ==> Reversing(g, st, g', d, p))
    && EndLoop(g', At(d, Start(st)))
  }

  ghost predicate ReversalOf(g: Graph, st: seq<nat>, g': Graph, st': seq<nat>) {
    && (exists d :: ReverseOf(g, st, g', d) && st' == Flip(Names(st, d)))
    && st != [] && st' != []
    && (Reversible(g, st) <==> Ranked(g', st'))
    && (Ranked(g, st) ==> BackRanked(g', st'))
  }

  ghost predicate MirrorOf(g: Graph, st: seq<nat>, g': Graph, st': seq<nat>) {
    && st != []
    && Built(g, g', {}, st', Reversed(LangOf(g, st)))
    && ReversalOf(g, st, g', st')
  }

  ghost predicate Reversing(g: Graph, st: seq<nat>, g': Graph, d: map<nat, nat>, p: nat)
    requires st != []
  {
    && At(d, p) in g'
    && (if p == Start(st) then SelfLooped(g, st, d, p, g'[At(d, p)].empty)
        else EpsFrom(g, st, d, p, g'[At(d, p)].empty))
    && RangesFrom(g, st, d, p, g'[At(d, p)].ranges)
  }

  /** The new end state: its self-loop stands behind the transitions that were turned around,
      unless those are self-loops themselves. */
  ghost predicate SelfLooped(g: Graph, st: seq<nat>, d: map<nat, nat>, p: nat, empty: seq<nat>) {
    || (empty != [] && empty[|empty| - 1] == At(d, p) && EpsFrom(g, st, d, p, empty[..|empty| - 1]))
    || (AllAre(empty, At(d, p)) && EpsFrom(g, st, d, p, empty))
  }

  ghost predicate AllAre(s: seq<nat>, a: nat) {
    forall x :: x in s ==> x == a
  }

  ghost predicate Keeps(g: Graph, g': Graph) {
    forall p :: p in g ==> p in g' && g'[p] == g[p]
  }

  /** The states of st have been given new names in node, a graph that still holds g. */
  ghost predicate Renamed(g: Graph, node: Graph, st: seq<nat>, d: map<nat, nat>) {
    && WellFormed(g, st) && Naming(st, d) && Keeps(g, node)
    && forall p :: p in st ==> At(d, p) in node && At(d, p) !in g
  }

  ghost predicate Blank(node: Graph, st: seq<nat>, d: map<nat, nat>) {
    forall p :: p in st ==> At(d, p) in node && node[At(d, p)] == Node([], [], [])
  }

  ghost predicate Turning(g: Graph, part: seq<nat>, node: Graph, st: seq<nat>, d: map<nat, nat>) {
    Renamed(g, node, st, d) && Turned(g, part, node, st, d) && StartTurned(node, st, d)
  }

  lemma TurnedNone(g: Graph, node: Graph, st: seq<nat>, d: map<nat, nat>)
    requires Renamed(g, node, st, d) && Blank(node, st, d)
    ensures Turning(g, [], node, st, d)
  {
  }

  lemma PartOf(g: Graph, part: seq<nat>, node: Graph, st: seq<nat>, d: map<nat, nat>, i: nat)
    requires Turning(g, part, node, st, d) && i < |st| && part == st[..i]
    ensures st[i] in st && st[i] !in part && (forall q :: q in part ==> q in st) && (st[i] == st[0] ==> part == [])
  {
  }

  lemma RenamedState(g: Graph, node: Graph, st: seq<nat>, d: map<nat, nat>, part: seq<nat>, i: nat)
    requires Turning(g, part, node, st, d) && i <= |st|
    ensures |st| >= 2 && At(d, st[0]) in node
    ensures i < |st| ==>
      st[i] in g && st[i] in node && node[st[i]] == g[st[i]] && TurnReady(node, st, d, st[i], g[st[i]])
  {
    if i < |st| { EdgesStay(g, st, st[i]); }
  }

  /** p leads to the states of part that had an empty transition to p, once for every such transition. */
  ghost predicate EpsFrom(g: Graph, part: seq<nat>, d: map<nat, nat>, p: nat, empty: seq<nat>) {
    && (forall x :: x in empty ==> exists q :: q in part && x == At(d, q))
    && (forall q :: q in part ==> q in g && Count(empty, At(d, q)) == Count(g[q].empty, p))
  }

  ghost predicate RangesFrom(g: Graph, part: seq<nat>, d: map<nat, nat>, p: nat, ranges: seq<Trans>) {
    && (forall t :: t in ranges ==>
          exists q :: q in part && t.target == At(d, q) && q in g && Trans(t.from, t.to, p) in g[q].ranges)
    && (forall q, t :: q in part && q in g && t in g[q].ranges && t.target == p ==>
          Trans(t.from, t.to, At(d, q)) in ranges)
  }

  /** If a self-loop of the state a comes last nothing else leads there. */
  ghost predicate LoopsFirst(empty: seq<nat>, a: nat) {
    empty != [] && empty[|empty| - 1] == a ==> AllAre(empty, a)
  }

  ghost predicate StartTurned(g': Graph, st: seq<nat>, d: map<nat, nat>) {
    st != [] && At(d, st[0]) in g' ==> LoopsFirst(g'[At(d, st[0])].empty, At(d, st[0]))
  }

  /** The transitions of the states in part have been turned around. */
  ghost predicate Turned(g: Graph, part: seq<nat>, g': Graph, st: seq<nat>, d: map<nat, nat>) {
    forall p :: p in st ==>
      && At(d, p) in g'
      && EpsFrom(g, part, d, p, g'[At(d, p)].empty)
      && RangesFrom(g, part, d, p, g'[At(d, p)].ranges)
  }

  function Copies(a: nat, n: nat): seq<nat> {
    seq(n, _ => a)
  }

  ghost predicate TurnedOneEmpty(e0: seq<nat>, e1: seq<nat>, a: nat, p: nat, list: seq<nat>) {
    e1 == e0 + Copies(a, Count(list, p))
  }

  ghost predicate TurnedOneRange(r0: seq<Trans>, r1: seq<Trans>, a: nat, p: nat, list: seq<Trans>) {
    forall t :: t in r1 <==> t in r0 || (t.target == a && Trans(t.from, t.to, p) in list)
  }

  ghost predicate SameElsewhere(g0: Graph, g1: Graph, st: seq<nat>, d: map<nat, nat>) {
    && (forall p :: p in g0 ==> p in g1)
    && (forall p :: p in g0 && (forall q :: q in st ==> p != At(d, q)) ==> g1[p] == g0[p])
  }

  /** The graph g1 is g0 with empty transitions to s, renamed, from every state in list. */
  ghost predicate TurnedEmpty(g0: Graph, g1: Graph, st: seq<nat>, d: map<nat, nat>, s: nat, list: seq<nat>) {
    && SameElsewhere(g0, g1, st, d)
    && forall p :: p in st ==>
         && At(d, p) in g0 && At(d, p) in g1
         && g1[At(d, p)].ranges == g0[At(d, p)].ranges
         && TurnedOneEmpty(g0[At(d, p)].empty, g1[At(d, p)].empty, At(d, s), p, list)
  }

  /** The graph g1 is g0 with the range transitions in list, turned around, to s, renamed. */
  ghost predicate TurnedRanges(g0: Graph, g1: Graph, st: seq<nat>, d: map<nat, nat>, s: nat, list: seq<Trans>) {
    && SameElsewhere(g0, g1, st, d)
    && forall p :: p in st ==>
         && At(d, p) in g0 && At(d, p) in g1
         && g1[At(d, p)].empty == g0[At(d, p)].empty
         && TurnedOneRange(g0[At(d, p)].ranges, g1[At(d, p)].ranges, At(d, s), p, list)
  }

  ghost predicate TurnReady(g0: Graph, st: seq<nat>, d: map<nat, nat>, s: nat, n: Node) {
    && Naming(st, d) && s in st
    && (forall p :: p in st ==> At(d, p) in g0)
    && (forall r :: r in n.empty ==> r in st)
    && (forall t :: t in n.ranges ==> t.target in st)
  }

  /** All transitions of the state s, those of the node n, have been turned around. */
  ghost predicate TurnedNode(g0: Graph, g2: Graph, st: seq<nat>, d: map<nat, nat>, s: nat, n: Node) {
    exists g1: Graph :: TurnedEmpty(g0, g1, st, d, s, n.empty) && TurnedRanges(g1, g2, st, d, s, n.ranges)
  }

  lemma TurnEmptyOne(e0: seq<nat>, e1: seq<nat>, e2: seq<nat>, a: nat, p: nat, list: seq<nat>, u: nat)
    requires TurnedOneEmpty(e0, e1, a, p, list) && e2 == if p == u then e1 + [a] else e1
    ensures TurnedOneEmpty(e0, e2, a, p, list + [u])
  {
    var n := Count(list, p);
    assert Count(list + [u], p) == if p == u then n + 1 else n;
    assert Copies(a, n + 1) == Copies(a, n) + [a];
  }

  lemma TurnEmptyStep(g0: Graph, g1: Graph, g2: Graph, st: seq<nat>, d: map<nat, nat>, s: nat, list: seq<nat>, j: nat)
    requires Naming(st, d) && j < |list| && list[j] in st
    requires TurnedEmpty(g0, g1, st, d, s, list[..j])
    requires At(d, list[j]) in g1
    requires g2 == g1[At(d, list[j]) := g1[At(d, list[j])].(empty := g1[At(d, list[j])].empty + [At(d, s)])]
    ensures TurnedEmpty(g0, g2, st, d, s, list[..j + 1])
  {
    hide TurnedOneEmpty;
    var u := list[j];
    assert list[..j + 1] == list[..j] + [u];
    forall p | p in st
      ensures At(d, p) in g0 && g2[At(d, p)].ranges == g1[At(d, p)].ranges
      ensures TurnedOneEmpty(g0[At(d, p)].empty, g2[At(d, p)].empty, At(d, s), p, list[..j + 1])
    {
      if At(d, p) == At(d, u) { SameName(st, d, p, u); }
      TurnEmptyOne(g0[At(d, p)].empty, g1[At(d, p)].empty, g2[At(d, p)].empty, At(d, s), p, list[..j], u);
    }
  }

  lemma TurnRangesOne(r0: seq<Trans>, r1: seq<Trans>, r2: seq<Trans>, a: nat, p: nat, list: seq<Trans>, u: Trans)
    requires TurnedOneRange(r0, r1, a, p, list)
    requires r2 == if p == u.target then r1 + [Trans(u.from, u.to, a)] else r1
    ensures TurnedOneRange(r0, r2, a, p, list + [u])
  {
    forall t: Trans
      ensures t in r2 <==> t in r0 || (t.target == a && Trans(t.from, t.to, p) in list + [u])
    {
      assert Trans(t.from, t.to, p) in list + [u] <==> Trans(t.from, t.to, p) in list || Trans(t.from, t.to, p) == u;
      assert t in r2 <==> t in r1 || (p == u.target && t == Trans(u.from, u.to, a));
    }
  }

  lemma TurnRangesStep(g0: Graph, g1: Graph, g2: Graph, st: seq<nat>, d: map<nat, nat>, s: nat, list: seq<Trans>,
                       j: nat)
    requires Naming(st, d) && j < |list| && list[j].target in st
    requires TurnedRanges(g0, g1, st, d, s, list[..j])
    requires At(d, list[j].target) in g1
    requires var n := g1[At(d, list[j].target)];
      g2 == g1[At(d, list[j].target) :=
                 Node(n.empty, n.ranges + [Trans(list[j].from, list[j].to, At(d, s))], n.chunks + [1])]
    ensures TurnedRanges(g0, g2, st, d, s, list[..j + 1])
  {
    var u := list[j];
    assert list[..j + 1] == list[..j] + [u];
    forall p | p in st
      ensures At(d, p) in g0 && g2[At(d, p)].empty == g1[At(d, p)].empty
      ensures TurnedOneRange(g0[At(d, p)].ranges, g2[At(d, p)].ranges, At(d, s), p, list[..j + 1])
    {
      if At(d, p) == At(d, u.target) { SameName(st, d, p, u.target); }
      TurnRangesOne(g0[At(d, p)].ranges, g1[At(d, p)].ranges, g2[At(d, p)].ranges, At(d, s), p, list[..j], u);
    }
  }

  lemma EpsFromMore(g: Graph, part: seq<nat>, st: seq<nat>, d: map<nat, nat>, p: nat, e0: seq<nat>, e1: seq<nat>,
                    s: nat)
    requires Naming(st, d) && s in st && s !in part && forall q :: q in part ==> q in st
    requires s in g && EpsFrom(g, part, d, p, e0) && TurnedOneEmpty(e0, e1, At(d, s), p, g[s].empty)
    ensures EpsFrom(g, part + [s], d, p, e1)
  {
    var all, n := part + [s], Count(g[s].empty, p);
    assert forall q :: q in all <==> q in part || q == s;
    assert At(d, s) !in e0;
    CopiesCount(e0, At(d, s), n);
    forall x | x in e1 ensures exists q :: q in all && x == At(d, q) {
      if x in e0 {
        var q :| q in part && x == At(d, q);
        assert q in all;
      } else {
        assert s in all;
      }
    }
  }

  lemma {:induction false} CopiesCount(e: seq<nat>, a: nat, n: nat)
    ensures forall x :: Count(e + Copies(a, n), x) == Count(e, x) + if x == a then n else 0
    ensures forall x :: x in e + Copies(a, n) ==> x in e || x == a
    decreases n
  {
    if n == 0 {
      assert e + Copies(a, 0) == e;
    } else {
      CopiesCount(e, a, n - 1);
      assert e + Copies(a, n) == e + Copies(a, n - 1) + [a];
    }
  }

  lemma LoopsFirstMore(e0: seq<nat>, e1: seq<nat>, b: nat, a: nat, p: nat, list: seq<nat>)
    requires LoopsFirst(e0, a) && TurnedOneEmpty(e0, e1, b, p, list) && (e0 == [] || a != b)
    ensures LoopsFirst(e1, a)
  {
    CopiesCount(e0, b, Count(list, p));
    if Count(list, p) == 0 {
      assert e1 == e0;
    }
  }

  lemma RangesFromMore(g: Graph, part: seq<nat>, d: map<nat, nat>, p: nat, r0: seq<Trans>, r1: seq<Trans>, s: nat)
    requires s in g && RangesFrom(g, part, d, p, r0) && TurnedOneRange(r0, r1, At(d, s), p, g[s].ranges)
    ensures RangesFrom(g, part + [s], d, p, r1)
  {
    var all := part + [s];
    assert forall q :: q in all <==> q in part || q == s;
    assert s in all;
    forall t | t in r1
      ensures exists q :: q in all && t.target == At(d, q) && q in g && Trans(t.from, t.to, p) in g[q].ranges
    {
      if t in r0 {
        var q :| q in part && t.target == At(d, q) && q in g && Trans(t.from, t.to, p) in g[q].ranges;
        assert q in all;
      }
    }
    forall q, t | q in all && q in g && t in g[q].ranges && t.target == p ensures Trans(t.from, t.to, At(d, q)) in r1 {
      var t' := Trans(t.from, t.to, At(d, q));
      assert Trans(t'.from, t'.to, p) == t;
    }
  }

  lemma RenamedMore(g: Graph, g1: Graph, g2: Graph, g3: Graph, st: seq<nat>, d: map<nat, nat>, s: nat, a: seq<nat>,
                    b: seq<Trans>)
    requires Renamed(g, g1, st, d)
    requires TurnedEmpty(g1, g2, st, d, s, a) && TurnedRanges(g2, g3, st, d, s, b)
    ensures Renamed(g, g3, st, d)
  {
    hide WellFormed, Naming, TurnedOneEmpty, TurnedOneRange;
    forall p | p in g ensures p in g3 && g3[p] == g[p] {
      assert g2[p] == g1[p];
    }
  }

  lemma NothingYet(g: Graph, part: seq<nat>, st: seq<nat>, d: map<nat, nat>, p: nat, empty: seq<nat>, s: nat)
    requires Naming(st, d) && s in st && p in st && EpsFrom(g, part, d, p, empty) && (s == p ==> part == [])
    ensures empty == [] || At(d, p) != At(d, s)
  {
    if s == p && empty != [] {
      FirstIn(empty);
    }
  }

  lemma EpsMore(g: Graph, part: seq<nat>, g1: Graph, g2: Graph, st: seq<nat>, d: map<nat, nat>, s: nat)
    requires Turning(g, part, g1, st, d) && s in g && TurnedEmpty(g1, g2, st, d, s, g[s].empty)
    requires s in st && s !in part && (forall q :: q in part ==> q in st)
    ensures forall p :: p in st ==> At(d, p) in g2 && EpsFrom(g, part + [s], d, p, g2[At(d, p)].empty)
  {
    assert Naming(st, d);
    hide Renamed, TurnedOneEmpty, EpsFrom, RangesFrom, SameElsewhere, StartTurned, Naming;
    forall p | p in st ensures At(d, p) in g2 && EpsFrom(g, part + [s], d, p, g2[At(d, p)].empty) {
      EpsFromMore(g, part, st, d, p, g1[At(d, p)].empty, g2[At(d, p)].empty, s);
    }
  }

  lemma StartMore(g: Graph, part: seq<nat>, g1: Graph, g2: Graph, g3: Graph, st: seq<nat>, d: map<nat, nat>, s: nat)
    requires Turning(g, part, g1, st, d) && s in g && s in st && (s == st[0] ==> part == [])
    requires TurnedEmpty(g1, g2, st, d, s, g[s].empty) && TurnedRanges(g2, g3, st, d, s, g[s].ranges)
    ensures StartTurned(g3, st, d)
  {
    hide WellFormed, TurnedOneEmpty, TurnedOneRange, RangesFrom, EpsFrom, SameElsewhere, LoopsFirst;
    var p := st[0];
    assert p in st;
    NothingYet(g, part, st, d, p, g1[At(d, p)].empty, s);
    LoopsFirstMore(g1[At(d, p)].empty, g2[At(d, p)].empty, At(d, s), At(d, p), p, g[s].empty);
  }

  lemma TurnedMore(g: Graph, part: seq<nat>, g1: Graph, g3: Graph, st: seq<nat>, d: map<nat, nat>, s: nat)
    requires Turning(g, part, g1, st, d) && s in g && TurnedNode(g1, g3, st, d, s, g[s])
    requires s in st && s !in part && (forall q :: q in part ==> q in st) && (s == st[0] ==> part == [])
    ensures Turning(g, part + [s], g3, st, d)
  {
    hide Renamed, EpsFrom, RangesFrom, StartTurned, TurnedEmpty, TurnedRanges;
    var g2: Graph :| TurnedEmpty(g1, g2, st, d, s, g[s].empty) && TurnedRanges(g2, g3, st, d, s, g[s].ranges);
    RenamedMore(g, g1, g2, g3, st, d, s, g[s].empty, g[s].ranges);
    StartMore(g, part, g1, g2, g3, st, d, s);
    EpsMore(g, part, g1, g2, st, d, s);
    RangesMore(g, part, g1, g2, g3, st, d, s);
    assert Turned(g, part + [s], g3, st, d);
  }

  lemma RangesMore(g: Graph, part: seq<nat>, g1: Graph, g2: Graph, g3: Graph, st: seq<nat>, d: map<nat, nat>, s: nat)
    requires Turning(g, part, g1, st, d) && s in g && s in st
    requires TurnedEmpty(g1, g2, st, d, s, g[s].empty) && TurnedRanges(g2, g3, st, d, s, g[s].ranges)
    ensures forall p :: p in st ==> At(d, p) in g2 && At(d, p) in g3 && g3[At(d, p)].empty == g2[At(d, p)].empty
    ensures forall p :: p in st ==> RangesFrom(g, part + [s], d, p, g3[At(d, p)].ranges)
  {
    hide Renamed, TurnedOneEmpty, TurnedOneRange, EpsFrom, RangesFrom, SameElsewhere, StartTurned;
    forall p | p in st
      ensures At(d, p) in g2 && At(d, p) in g3 && g3[At(d, p)].empty == g2[At(d, p)].empty
      ensures RangesFrom(g, part + [s], d, p, g3[At(d, p)].ranges)
    {
      RangesFromMore(g, part, d, p, g2[At(d, p)].ranges, g3[At(d, p)].ranges, s);
    }
  }

  /** The reversed automaton, complete but for the self-loop of its end state. */
  lemma TurnedEnd(g: Graph, st: seq<nat>, g1: Graph, g2: Graph, d: map<nat, nat>)
    requires |st| >= 2 && Turning(g, st, g1, st, d)
    requires var e := At(d, st[0]);
      e in g1 && (g2 == g1 || g2 == g1[e := g1[e].(empty := g1[e].empty + [e])])
    requires EndLoop(g2, At(d, st[0]))
    ensures ReverseOf(g, st, g2, d) && Renamed(g, g2, st, d)
  {
    hide WellFormed, RangesFrom;
    var s := st[0];
    assert s in st;
    forall p | p in st ensures Reversing(g, st, g2, d, p) {
      assert EpsFrom(g, st, d, p, g1[At(d, p)].empty);
      if At(d, p) == At(d, s) { SameName(st, d, p, s); }
      if p == s && g2 != g1 {
        assert g2[At(d, p)].empty[..|g2[At(d, p)].empty| - 1] == g1[At(d, p)].empty;
      }
    }
  }

  ghost predicate Copied(g: Graph, g': Graph, d: map<nat, nat>, p: nat) {
    && p in g && At(d, p) in g'
    && (forall r :: r in g[p].empty ==> r in d)
    && (forall t :: t in g[p].ranges ==> t.target in d)
    && g'[At(d, p)] == MapNode(g[p], d)
  }

  lemma CopyUpright(g: Graph, st: seq<nat>, g': Graph, d: map<nat, nat>)
    requires CopyOf(g, st, g', d)
    ensures Upright(g, st) ==> Upright(g', Names(st, d))
  {
    if Upright(g, st) {
      forall x | x in Names(st, d) ensures UprightAt(g', x) {
        var p := UncopyName(st, d, x);
        assert Copied(g, g', d, p) && UprightAt(g, p);
        NodeTargets(g[p], d);
        hide CopyOf;
        forall t' | t' in g'[x].ranges ensures t'.from <= t'.to {
          var i :| 0 <= i < |g'[x].ranges| && g'[x].ranges[i] == t';
          assert g[p].ranges[i] in g[p].ranges;
        }
      }
    }
  }

  lemma CopyDone(g: Graph, st: seq<nat>, g': Graph, d: map<nat, nat>)
    requires CopyOf(g, st, g', d) && Renamed(g, g', st, d)
    ensures Built(g, g', {}, Names(st, d), LangOf(g, st))
    ensures Ranked(g, st) ==> Ranked(g', Names(st, d))
    ensures BackRanked(g, st) ==> BackRanked(g', Names(st, d))
    ensures Upright(g, st) ==> Upright(g', Names(st, d))
  {
    CopyUpright(g, st, g', d);
    CopyWellFormed(g, st, g', d);
    CopyLang(g, st, g', d);
    CopyRanked(g, st, g', d);
    CopyBackRanked(g, st, g', d);
    forall x | x in Names(st, d) ensures x !in g {
      var p := UncopyName(st, d, x);
    }
  }

  lemma ReverseDone(g: Graph, st: seq<nat>, g': Graph, d: map<nat, nat>)
    requires ReverseOf(g, st, g', d) && Renamed(g, g', st, d)
    ensures MirrorOf(g, st, g', Flip(Names(st, d)))
  {
    ReverseWellFormed(g, st, g', d);
    ReverseLang(g, st, g', d);
    ReverseRanked(g, st, g', d);
    ReverseBackRanked(g, st, g', d);
    ReverseNames(st, d);
  }

  function Flip(st: seq<nat>): (r: seq<nat>)
    ensures |r| == |st| && forall i :: 0 <= i < |st| ==> r[i] == st[|st| - 1 - i]
  {
    seq(|st|, i requires 0 <= i < |st| => st[|st| - 1 - i])
  }

  lemma ReverseNames(st: seq<nat>, d: map<nat, nat>)
    requires Naming(st, d)
    ensures forall x :: x in Flip(Names(st, d)) <==> exists p :: p in st && At(d, p) == x
  {
    var r := Flip(Names(st, d));
    forall p | p in st ensures At(d, p) in r {
      var i :| 0 <= i < |st| && st[i] == p;
      assert r[|st| - 1 - i] == At(d, p);
    }
  }

  lemma ReverseClosed(g: Graph, st: seq<nat>, g': Graph, d: map<nat, nat>, p: nat)
    requires ReverseOf(g, st, g', d) && p in st
    ensures At(d, p) in g'
    ensures forall x :: x in g'[At(d, p)].empty ==> exists q :: q in st && At(d, q) == x
    ensures forall t :: t in g'[At(d, p)].ranges ==> exists q :: q in st && At(d, q) == t.target
  {
    forall x | x in g'[At(d, p)].empty ensures exists q :: q in st && At(d, q) == x {
      var q := UnreverseEps(g, st, g', d, p, x);
    }
  }

  lemma ReverseWellFormed(g: Graph, st: seq<nat>, g': Graph, d: map<nat, nat>)
    requires ReverseOf(g, st, g', d)
    ensures WellFormed(g', Flip(Names(st, d)))
  {
    var st' := Flip(Names(st, d));
    ReverseNames(st, d);
    NamesDistinct(st, d);
    assert Distinct(st') && End(st') == At(d, Start(st)) && EndLoop(g', At(d, Start(st)));
    forall x | x in st'
      ensures x in g'
      ensures forall r :: r in g'[x].empty ==> r in st'
      ensures forall t :: t in g'[x].ranges ==> t.target in st'
    {
      var p :| p in st && At(d, p) == x;
      hide ReverseOf, Names, Flip;
      ReverseClosed(g, st, g', d, p);
    }
    ClosedBy(g', st');
  }

  /** The empty transitions of the state named after p. */
  lemma ReversedEps(g: Graph, st: seq<nat>, g': Graph, d: map<nat, nat>, p: nat)
    requires ReverseOf(g, st, g', d) && p in st
    ensures At(d, p) in g'
    ensures forall x :: x in g'[At(d, p)].empty ==>
              exists q :: q in st && x == At(d, q) && (Eps(g, q, p) || (q == p && p == Start(st)))
    ensures forall q :: q in st && Eps(g, q, p) ==> At(d, q) in g'[At(d, p)].empty
  {
    hide RangesFrom;
    assert Reversing(g, st, g', d, p);
    var e := g'[At(d, p)].empty;
    if p == Start(st) && !EpsFrom(g, st, d, p, e) {
      assert e == e[..|e| - 1] + [At(d, p)];
      EpsFromEps(g, st, d, p, e[..|e| - 1]);
    } else {
      EpsFromEps(g, st, d, p, e);
    }
  }

  lemma EpsFromEps(g: Graph, st: seq<nat>, d: map<nat, nat>, p: nat, empty: seq<nat>)
    requires EpsFrom(g, st, d, p, empty)
    ensures forall x :: x in empty ==> exists q :: q in st && x == At(d, q) && Eps(g, q, p)
    ensures forall q :: q in st && Eps(g, q, p) ==> At(d, q) in empty
  {
  }

  lemma ReverseEps(g: Graph, st: seq<nat>, g': Graph, d: map<nat, nat>, q: nat, r: nat)
    requires ReverseOf(g, st, g', d) && q in st && Eps(g, q, r)
    ensures r in st && Reads(g', At(d, r), [], At(d, q))
  {
    EdgesStay(g, st, q);
    ReversedEps(g, st, g', d, r);
    assert Eps(g', At(d, r), At(d, q));
    ReadsEps(g', At(d, r), At(d, q));
  }

  lemma ReverseChr(g: Graph, st: seq<nat>, g': Graph, d: map<nat, nat>, q: nat, c: Char32, r: nat)
    requires ReverseOf(g, st, g', d) && q in st && Chr(g, q, c, r)
    ensures r in st && Reads(g', At(d, r), [c], At(d, q))
  {
    EdgesStay(g, st, q);
    var t :| t in g[q].ranges && Hit(t, c) && t.target == r;
    var t' := Trans(t.from, t.to, At(d, q));
    assert t' in g'[At(d, r)].ranges && Hit(t', c);
    assert Chr(g', At(d, r), c, At(d, q));
    ReadsChr(g', At(d, r), c, At(d, q));
  }

  lemma UnreverseEps(g: Graph, st: seq<nat>, g': Graph, d: map<nat, nat>, p: nat, x: nat) returns (r: nat)
    requires ReverseOf(g, st, g', d) && p in st && Eps(g', At(d, p), x)
    ensures r in st && x == At(d, r) && Reads(g, r, [], p)
  {
    ReversedEps(g, st, g', d, p);
    r :| r in st && x == At(d, r) && (Eps(g, r, p) || (r == p && p == Start(st)));
    if Eps(g, r, p) {
      ReadsEps(g, r, p);
    } else {
      ReadsNothing(g, p);
    }
  }

  lemma UnreverseChr(g: Graph, st: seq<nat>, g': Graph, d: map<nat, nat>, p: nat, c: Char32, x: nat) returns (r: nat)
    requires ReverseOf(g, st, g', d) && p in st && Chr(g', At(d, p), c, x)
    ensures r in st && x == At(d, r) && Chr(g, r, c, p)
  {
    var t :| t in g'[At(d, p)].ranges && Hit(t, c) && t.target == x;
    r :| r in st && t.target == At(d, r) && Trans(t.from, t.to, p) in g[r].ranges;
    EdgesStay(g, st, r);
    assert Hit(Trans(t.from, t.to, p), c);
  }

  lemma {:induction false} ReverseGo(g: Graph, st: seq<nat>, g': Graph, d: map<nat, nat>, q: nat, w: Word, p: nat,
                                     n: nat)
    requires ReverseOf(g, st, g', d) && q in st && Go(g, q, w, p, n)
    ensures p in st && Reads(g', At(d, p), Reverse(w), At(d, q))
    decreases n
  {
    hide ReverseOf, At;
    if n == 0 {
      ReadsNothing(g', At(d, p));
    } else if r :| Eps(g, q, r) && Go(g, r, w, p, n - 1) {
      ReverseEps(g, st, g', d, q, r);
      ReverseGo(g, st, g', d, r, w, p, n - 1);
      ReadsConcat(g', At(d, p), Reverse(w), At(d, r), [], At(d, q));
      assert Reverse(w) + [] == Reverse(w);
    } else {
      var r :| Chr(g, q, w[0], r) && Go(g, r, w[1..], p, n - 1);
      ReverseChr(g, st, g', d, q, w[0], r);
      ReverseGo(g, st, g', d, r, w[1..], p, n - 1);
      ReadsConcat(g', At(d, p), Reverse(w[1..]), At(d, r), [w[0]], At(d, q));
    }
  }

  lemma {:induction false} UnreverseGo(g: Graph, st: seq<nat>, g': Graph, d: map<nat, nat>, p: nat, w: Word, x: nat,
                                       n: nat)
    returns (q: nat)
    requires ReverseOf(g, st, g', d) && p in st && Go(g', At(d, p), w, x, n)
    ensures q in st && x == At(d, q) && Reads(g, q, Reverse(w), p)
    decreases n
  {
    hide ReverseOf, At;
    if n == 0 {
      ReadsNothing(g, p);
      q := p;
    } else if y :| Eps(g', At(d, p), y) && Go(g', y, w, x, n - 1) {
      var r := UnreverseEps(g, st, g', d, p, y);
      q := UnreverseGo(g, st, g', d, r, w, x, n - 1);
      ReadsConcat(g, q, Reverse(w), r, [], p);
      assert Reverse(w) + [] == Reverse(w);
    } else {
      var y :| Chr(g', At(d, p), w[0], y) && Go(g', y, w[1..], x, n - 1);
      var r := UnreverseChr(g, st, g', d, p, w[0], y);
      q := UnreverseGo(g, st, g', d, r, w[1..], x, n - 1);
      ReadsChr(g, r, w[0], p);
      ReadsConcat(g, q, Reverse(w[1..]), r, [w[0]], p);
    }
  }

  /** A path of the automaton and the same path backwards. */
  lemma ReverseReads(g: Graph, st: seq<nat>, g': Graph, d: map<nat, nat>, p: nat, w: Word, q: nat)
    requires ReverseOf(g, st, g', d) && p in st && q in st
    ensures Reads(g', At(d, p), w, At(d, q)) <==> Reads(g, q, Reverse(w), p)
  {
    assert Naming(st, d);
    hide ReverseOf;
    if n: nat :| Go(g', At(d, p), w, At(d, q), n) {
      var x := UnreverseGo(g, st, g', d, p, w, At(d, q), n);
      SameName(st, d, q, x);
    }
    if n: nat :| Go(g, q, Reverse(w), p, n) {
      ReverseGo(g, st, g', d, q, Reverse(w), p, n);
      ReverseTwice(w);
    }
  }

  lemma ReverseEnds(g: Graph, st: seq<nat>, g': Graph, d: map<nat, nat>)
    requires ReverseOf(g, st, g', d)
    ensures st != [] && Start(st) in st && End(st) in st
    ensures var st' := Flip(Names(st, d)); st' != [] && Start(st') == At(d, End(st)) && End(st') == At(d, Start(st))
  {
    hide Reversing;
    NotEmpty(g, st);
    hide ReverseOf, WellFormed, At, EndLoop;
    var names := Names(st, d);
    assert names[0] == At(d, st[0]) && names[|st| - 1] == At(d, st[|st| - 1]);
  }

  lemma NotEmpty(g: Graph, st: seq<nat>)
    requires WellFormed(g, st)
    ensures |st| > 0 && Start(st) in st && End(st) in st
  {
  }

  lemma ReverseLang(g: Graph, st: seq<nat>, g': Graph, d: map<nat, nat>)
    requires ReverseOf(g, st, g', d)
    ensures LangOf(g', Flip(Names(st, d))) == Reversed(LangOf(g, st))
  {
    hide ReverseOf, Flip, Names, At, Reads;
    var st' := Flip(Names(st, d));
    ReverseEnds(g, st, g', d);
    forall w: Word ensures w in LangOf(g', st') <==> Reverse(w) in LangOf(g, st) {
      ReverseReads(g, st, g', d, End(st), w, Start(st));
    }
  }

  /** The reversal is free of cycles of single empty transitions exactly if the automaton is reversible. */
  lemma ReverseRanked(g: Graph, st: seq<nat>, g': Graph, d: map<nat, nat>)
    requires ReverseOf(g, st, g', d) && st != []
    ensures Reversible(g, st) <==> Ranked(g', Flip(Names(st, d)))
  {
    hide ReverseOf, Names, Flip, ReversibleBy, RankedBy;
    if f: Rank :| ReversibleBy(g, st, f) {
      var f' := RankReversed(g, st, g', d, f);
    }
    if f': Rank :| RankedBy(g', Flip(Names(st, d)), f') {
      var f := RankUnreversed(g, st, g', d, f');
    }
  }

  lemma RankReversed(g: Graph, st: seq<nat>, g': Graph, d: map<nat, nat>, f: Rank) returns (f': Rank)
    requires ReverseOf(g, st, g', d) && st != [] && ReversibleBy(g, st, f)
    ensures RankedBy(g', Flip(Names(st, d)), f')
  {
    hide ReverseOf, Names, Flip, OnlyFrom;
    ReverseNamesOf(g, st, g', d);
    f' := RenameRank(st, d, f);
    forall x | x in Flip(Names(st, d)) && Single(g', x) ensures Of(f', g'[x].empty[0]) < Of(f', x) {
      var t :| t in st && At(d, t) == x;
      var s := SinglePredecessor(g, st, g', d, t);
      assert Of(f, s) < Of(f, t);
    }
  }

  lemma RankUnreversed(g: Graph, st: seq<nat>, g': Graph, d: map<nat, nat>, f': Rank) returns (f: Rank)
    requires ReverseOf(g, st, g', d) && st != [] && RankedBy(g', Flip(Names(st, d)), f')
    ensures ReversibleBy(g, st, f)
  {
    hide ReverseOf, Names, Flip, OnlyFrom, Single;
    ReverseNamesOf(g, st, g', d);
    f := map p | p in st :: Of(f', At(d, p));
    forall s, t | t in st && t != Start(st) && t != End(st) && OnlyFrom(g, st, s, t) ensures Of(f, s) < Of(f, t) {
      OnlyFromSingle(g, st, g', d, s, t);
      assert At(d, t) in Flip(Names(st, d)) && Single(g', At(d, t));
    }
  }

  lemma ReverseNamesOf(g: Graph, st: seq<nat>, g': Graph, d: map<nat, nat>)
    requires ReverseOf(g, st, g', d)
    ensures Naming(st, d) && forall x :: x in Flip(Names(st, d)) <==> exists p :: p in st && At(d, p) == x
  {
    ReverseNames(st, d);
  }

  lemma NoneIn(ts: seq<Trans>)
    requires forall x :: x !in ts
    ensures ts == []
  {
    if ts != [] { FirstTrans(ts); }
  }

  lemma FirstTrans(ts: seq<Trans>)
    requires ts != []
    ensures ts[0] in ts
  {
  }

  /** The only transition to t becomes the only one of the state named after t. */
  lemma OnlyFromSingle(g: Graph, st: seq<nat>, g': Graph, d: map<nat, nat>, s: nat, t: nat)
    requires ReverseOf(g, st, g', d) && t in st && t != Start(st) && t != End(st) && OnlyFrom(g, st, s, t)
    ensures s in st && Single(g', At(d, t)) && g'[At(d, t)].empty == [At(d, s)]
  {
    assert Reversing(g, st, g', d, t);
    var e, ranges := g'[At(d, t)].empty, g'[At(d, t)].ranges;
    assert forall x :: x !in ranges;
    NoneIn(ranges);
    forall q | q in st ensures Count(e, At(d, q)) == Count(Inside(g, st, q), t) {
      InsideUnlessEnd(g, st, q, t);
    }
    hide ReverseOf, WellFormed, RangesFrom, Inside;
    OneElement(e, At(d, s));
  }

  lemma SinglePredecessor(g: Graph, st: seq<nat>, g': Graph, d: map<nat, nat>, t: nat) returns (s: nat)
    requires ReverseOf(g, st, g', d) && t in st && Single(g', At(d, t))
    ensures s in st && t != Start(st) && t != End(st) && g'[At(d, t)].empty[0] == At(d, s) && OnlyFrom(g, st, s, t)
  {
    var y := g'[At(d, t)].empty[0];
    assert Eps(g', At(d, t), y);
    s := UnreverseEps(g, st, g', d, t, y);
    SingleIsOnlyFrom(g, st, g', d, s, t);
  }

  lemma SingleHasNoRange(g: Graph, st: seq<nat>, g': Graph, d: map<nat, nat>, r: nat, c: Trans)
    requires ReverseOf(g, st, g', d)
    requires r in st && r in g && c in g[r].ranges && c.target in st
    ensures !Single(g', At(d, c.target))
  {
    assert Trans(c.from, c.to, At(d, r)) in g'[At(d, c.target)].ranges;
  }

  lemma SingleIsOnlyFrom(g: Graph, st: seq<nat>, g': Graph, d: map<nat, nat>, s: nat, t: nat)
    requires ReverseOf(g, st, g', d)
    requires s in st && t in st && Single(g', At(d, t)) && g'[At(d, t)].empty == [At(d, s)] && s != t
    ensures t != Start(st) && t != End(st) && OnlyFrom(g, st, s, t)
  {
    hide ReverseOf, Single, WellFormed;
    SingleEps(g, st, g', d, s, t);
    forall r, c | r in st && r in g && c in g[r].ranges ensures c.target != t {
      EdgesStay(g, st, r);
      SingleHasNoRange(g, st, g', d, r, c);
    }
    forall r | r in st ensures r in g && Count(Inside(g, st, r), t) == Count(g[r].empty, t) {
      InsideUnlessEnd(g, st, r, t);
    }
  }

  lemma InsideUnlessEnd(g: Graph, st: seq<nat>, r: nat, t: nat)
    requires WellFormed(g, st) && r in st && t != End(st)
    ensures r in g && Count(Inside(g, st, r), t) == Count(g[r].empty, t)
  {
    EdgesStay(g, st, r);
    if r == End(st) {
      var a := g[r].empty;
      assert a == a[..|a| - 1] + [r];
    }
  }

  lemma SingleEps(g: Graph, st: seq<nat>, g': Graph, d: map<nat, nat>, s: nat, t: nat)
    requires ReverseOf(g, st, g', d)
    requires s in st && t in st && Single(g', At(d, t)) && g'[At(d, t)].empty == [At(d, s)] && s != t
    ensures WellFormed(g, st) && t != Start(st) && t != End(st) && s in g && Count(g[s].empty, t) == 1
    ensures forall q :: q in st && Eps(g, q, t) ==> q == s
  {
    hide RangesFrom;
    assert Reversing(g, st, g', d, t);
    assert At(d, s) in g'[At(d, t)].empty;
    ReversedEps(g, st, g', d, t);
    assert EndLoop(g, End(st)) && Eps(g, End(st), End(st));
    assert Count([At(d, s)], At(d, s)) == 1;
  }

  /** Only self-loops lead to the start state, so its copy needs no further one. */
  ghost predicate StartLoops(g: Graph, st: seq<nat>, g': Graph, d: map<nat, nat>)
    requires st != []
  {
    At(d, Start(st)) in g' && AllAre(g'[At(d, Start(st))].empty, At(d, Start(st)))
  }

  /** The empty transitions of t, seen from where they lead to. */
  lemma ReversedInside(g: Graph, st: seq<nat>, g': Graph, d: map<nat, nat>, q: nat, t: nat)
    requires ReverseOf(g, st, g', d) && q in st && t in st && (t == Start(st) ==> !StartLoops(g, st, g', d))
    ensures t in g && Count(Inside(g', Flip(Names(st, d)), At(d, q)), At(d, t)) == Count(g[t].empty, q)
  {
    hide ReverseOf, Flip, Names, WellFormed, Inside, EpsFrom;
    EdgesInside(g, st, g', d, t);
    InsideReversed(g, st, g', d, q);
    if q == Start(st) {
      StartReversed(g, st, g', d, t);
    } else {
      OtherReversed(g, st, g', d, q, t);
    }
  }

  lemma EdgesInside(g: Graph, st: seq<nat>, g': Graph, d: map<nat, nat>, t: nat)
    requires ReverseOf(g, st, g', d) && t in st
    ensures t in g
  {
    EdgesStay(g, st, t);
  }

  lemma OtherReversed(g: Graph, st: seq<nat>, g': Graph, d: map<nat, nat>, q: nat, t: nat)
    requires ReverseOf(g, st, g', d) && q in st && t in st && q != Start(st)
    ensures At(d, q) in g' && t in g && Count(g'[At(d, q)].empty, At(d, t)) == Count(g[t].empty, q)
  {
    hide RangesFrom, WellFormed;
    assert Reversing(g, st, g', d, q);
  }

  lemma StartReversed(g: Graph, st: seq<nat>, g': Graph, d: map<nat, nat>, t: nat)
    requires ReverseOf(g, st, g', d) && t in st && (t == Start(st) ==> !StartLoops(g, st, g', d)) && Start(st) in st
    ensures At(d, Start(st)) in g' && g'[At(d, Start(st))].empty != [] && t in g
    ensures var e := g'[At(d, Start(st))].empty; Count(e[..|e| - 1], At(d, t)) == Count(g[t].empty, Start(st))
  {
    hide RangesFrom, WellFormed, Inside;
    assert Reversing(g, st, g', d, Start(st));
    var a, e := At(d, Start(st)), g'[At(d, Start(st))].empty;
    if !EpsFrom(g, st, d, Start(st), e[..|e| - 1]) {
      assert t != Start(st);
      assert At(d, t) != a;
      assert At(d, t) !in e && At(d, t) !in e[..|e| - 1];
    }
  }

  lemma InsideReversed(g: Graph, st: seq<nat>, g': Graph, d: map<nat, nat>, q: nat)
    requires ReverseOf(g, st, g', d) && q in st
    ensures st != [] && Flip(Names(st, d)) != [] && At(d, q) in g'
    ensures var e := g'[At(d, q)].empty;
      && (q == Start(st) ==> e != [] && e[|e| - 1] == At(d, q))
      && Inside(g', Flip(Names(st, d)), At(d, q)) == if q == Start(st) then e[..|e| - 1] else e
  {
    hide RangesFrom, EpsFrom, Flip, Names;
    ReverseEnds(g, st, g', d);
    assert Reversing(g, st, g', d, q);
    if At(d, q) == At(d, Start(st)) { SameName(st, d, q, Start(st)); }
  }

  /** A state whose copy is entered by a single transition has a single one. */
  lemma OnlyFromReversed(g: Graph, st: seq<nat>, g': Graph, d: map<nat, nat>, s: nat, t: nat)
    requires ReverseOf(g, st, g', d) && s in st && t in st && (t == Start(st) ==> !StartLoops(g, st, g', d))
    requires st != [] && Flip(Names(st, d)) != [] && OnlyFrom(g', Flip(Names(st, d)), At(d, s), At(d, t))
    ensures Single(g, t) && g[t].empty == [s]
  {
    hide ReverseOf, Inside, Flip, Names, Single;
    var st' := Flip(Names(st, d));
    ReverseNamesOf(g, st, g', d);
    ReversedInside(g, st, g', d, s, t);
    NoRangeFrom(g, st, g', d, s, t);
    forall q | q in g[t].empty ensures q == s {
      ReversedInside(g, st, g', d, q, t);
      SameName(st, d, q, s);
    }
    OneElement(g[t].empty, s);
    OnlyEmpty(g, t, s);
  }

  lemma OnlyEmpty(g: Graph, t: nat, s: nat)
    requires t in g && g[t].ranges == [] && g[t].empty == [s] && s != t
    ensures Single(g, t)
  {
  }

  lemma NoRangeFrom(g: Graph, st: seq<nat>, g': Graph, d: map<nat, nat>, s: nat, t: nat)
    requires ReverseOf(g, st, g', d) && s in st && t in st
    requires st != [] && Flip(Names(st, d)) != [] && OnlyFrom(g', Flip(Names(st, d)), At(d, s), At(d, t))
    ensures t in g && g[t].ranges == [] && s != t && forall q :: q in g[t].empty ==> q in st
  {
    EdgesStay(g, st, t);
    ReverseNames(st, d);
    hide Inside, Flip, Names, EpsFrom, ReverseOf, WellFormed;
    if g[t].ranges != [] {
      RangeReversed(g, st, g', d, t, g[t].ranges[0]);
    }
  }

  lemma RangeReversed(g: Graph, st: seq<nat>, g': Graph, d: map<nat, nat>, t: nat, c: Trans)
    requires ReverseOf(g, st, g', d) && t in st && t in g && c in g[t].ranges
    ensures exists r, c' :: r in Flip(Names(st, d)) && r in g' && c' in g'[r].ranges && c'.target == At(d, t)
  {
    EdgesStay(g, st, t);
    ReverseNames(st, d);
    hide Flip, Names, EpsFrom;
    assert Reversing(g, st, g', d, c.target);
    assert Trans(c.from, c.to, At(d, t)) in g'[At(d, c.target)].ranges;
    assert At(d, c.target) in Flip(Names(st, d));
  }

  /** Reversal turns the ranks around. */
  lemma ReverseBackRanked(g: Graph, st: seq<nat>, g': Graph, d: map<nat, nat>)
    requires ReverseOf(g, st, g', d) && st != []
    ensures Flip(Names(st, d)) != [] && (Ranked(g, st) ==> BackRanked(g', Flip(Names(st, d))))
  {
    hide ReverseOf, Names, Flip, OnlyFrom, Single, StartLoops;
    var st', a := Flip(Names(st, d)), Start(st);
    ReverseNamesOf(g, st, g', d);
    ReverseEnds(g, st, g', d);
    if f: Rank :| RankedBy(g, st, f) {
      var b := Bound(f);
      var f1: Rank := if StartLoops(g, st, g', d) then f[a := b + 1] else f;
      var f' := RenameRank(st, d, f1);
      forall x, y | y in st' && y != Start(st') && OnlyFrom(g', st', x, y) ensures Of(f', x) < Of(f', y) {
        OnlySourceIn(g', st', x, y);
        var s :| s in st && At(d, s) == x;
        var t :| t in st && At(d, t) == y;
        if t != a || !StartLoops(g, st, g', d) {
          OnlyFromReversed(g, st, g', d, s, t);
          assert Of(f, s) < Of(f, t);
        }
        if StartLoops(g, st, g', d) { LeavesNothing(g, st, g', d, s, t); }
      }
      assert BackRankedBy(g', st', f');
    }
  }

  lemma OnlySourceIn(g: Graph, st: seq<nat>, s: nat, t: nat)
    requires st != [] && OnlyFrom(g, st, s, t)
    ensures s in st && s != t
  {
  }

  lemma LeavesNothing(g: Graph, st: seq<nat>, g': Graph, d: map<nat, nat>, s: nat, t: nat)
    requires ReverseOf(g, st, g', d) && s in st && t in st && st != [] && StartLoops(g, st, g', d)
    requires Flip(Names(st, d)) != [] && OnlyFrom(g', Flip(Names(st, d)), At(d, s), At(d, t))
    ensures s != Start(st)
  {
    var e := Inside(g', Flip(Names(st, d)), At(d, s));
    assert At(d, t) in e;
    assert At(d, t) in g'[At(d, s)].empty;
  }
}
