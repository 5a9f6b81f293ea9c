/** build_rangemap_from_statevector: the characters on which a set of states has
    transitions, split into ranges none of which is cut by a transition. */
module Building {
  import opened Graphs
  import opened Thompson
  import opened Subset
  import opened MultiStates
  import opened RangeMaps
  import opened BTree

  /** The transitions of the states of vec, one state after the other. */
  function AllTrans(g: Graph, vec: seq<nat>): seq<Trans> {
    if vec == [] then [] else
      var p := vec[|vec| - 1];
      AllTrans(g, vec[..|vec| - 1]) + if p in g then g[p].ranges else []
  }

  lemma {:induction false} AllTransOf(g: Graph, vec: seq<nat>, t: Trans)
    requires forall p :: p in vec ==> p in g
    ensures t in AllTrans(g, vec) <==> exists p :: p in vec && t in g[p].ranges
  {
    if vec != [] {
      var init, p := vec[..|vec| - 1], vec[|vec| - 1];
      AllTransOf(g, init, t);
      assert vec == init + [p];
    }
  }

  /** Every transition is an exact union of ranges, and the ranges hold nothing else. */
  ghost predicate SplitBy(es: seq<Entry>, ts: seq<Trans>) {
    && Ranges(es)
    && (forall t :: t in ts ==> t.from <= t.to && Exact(es, t.from, t.to))
    && (forall c: nat :: Cov(es, c) <==> exists t :: t in ts && t.from <= c <= t.to)
  }

  lemma SplitMore(es: seq<Entry>, ts: seq<Trans>, t: Trans, es': seq<Entry>)
    requires SplitBy(es, ts) && t.from <= t.to && Ranges(es') && Kept(es, es', t.from, t.to + 1)
    ensures SplitBy(es', ts + [t])
  {
    forall u | u in ts + [t] ensures u.from <= u.to && Exact(es', u.from, u.to) {
      if u in ts { ExactKept(es, es', t.from, t.to + 1, u.from, u.to); }
    }
    forall c: nat ensures Cov(es', c) <==> exists u :: u in ts + [t] && u.from <= c <= u.to {
      if t.from <= c <= t.to { assert t in ts + [t]; }
      if u :| u in ts && u.from <= c <= u.to { assert u in ts + [t]; }
    }
  }

  /** The set of a range holds the targets of the transitions that include the range. */
  ghost predicate TargetsOf(e: Entry, s: set<nat>, ts: seq<Trans>) {
    forall q :: q in s <==> exists t :: t in ts && Inside(e, t.from, t.to) && t.target == q
  }

  ghost predicate AllTargets(es: seq<Entry>, sets: seq<set<nat>>, ts: seq<Trans>) {
    |sets| == |es| && forall i :: 0 <= i < |es| ==> TargetsOf(es[i], sets[i], ts)
  }

  /** A transition that does not end inside a range includes all or nothing of it. */
  lemma AllOrNothing(es: seq<Entry>, t: Trans, i: nat, c: nat)
    requires Ranges(es) && i < |es| && Holds(es[i], c) && t.from <= t.to && Exact(es, t.from, t.to)
    ensures Inside(es[i], t.from, t.to) <==> t.from <= c <= t.to
  {
    assert !Cuts(es[i], t.from) && !Cuts(es[i], t.to + 1);
  }

  /** What the rangemap says about the set of states: for every character the targets
      of its transitions, which are the same all over a range. */
  ghost predicate Mapped(g: Graph, Q: set<nat>, es: seq<Entry>, sets: seq<set<nat>>) {
    && Ranges(es) && |sets| == |es|
    && (forall c: Char32 :: Cov(es, c) || IsStep(g, Q, c, {}))
    && (forall i, c: Char32 :: 0 <= i < |es| && Holds(es[i], c) ==> IsStep(g, Q, c, sets[i]))
    && (forall i :: 0 <= i < |es| ==> sets[i] != {})
  }

  lemma IsMapped(g: Graph, vec: seq<nat>, Q: set<nat>, es: seq<Entry>, sets: seq<set<nat>>)
    requires (forall p :: p in vec ==> p in g) && (forall p :: p in Q <==> p in vec)
    requires SplitBy(es, AllTrans(g, vec)) && AllTargets(es, sets, AllTrans(g, vec))
    ensures Mapped(g, Q, es, sets)
  {
    forall c: Char32 | !Cov(es, c) ensures IsStep(g, Q, c, {}) {
      forall p, q | p in Q && Chr(g, p, c, q) ensures false {
        var t :| t in g[p].ranges && Graphs.Hit(t, c) && t.target == q;
        AllTransOf(g, vec, t);
      }
    }
    forall i, c: Char32 | 0 <= i < |es| && Holds(es[i], c) ensures IsStep(g, Q, c, sets[i]) {
      StepAt(g, vec, Q, es, sets, i, c);
    }
    forall i | 0 <= i < |es| ensures sets[i] != {} {
      assert Holds(es[i], es[i].key) && Cov(es, es[i].key);
      var ts := AllTrans(g, vec);
      var t :| t in ts && t.from <= es[i].key <= t.to;
      AllOrNothing(es, t, i, es[i].key);
      assert TargetsOf(es[i], sets[i], ts);
      assert t.target in sets[i];
    }
  }

  lemma StepAt(g: Graph, vec: seq<nat>, Q: set<nat>, es: seq<Entry>, sets: seq<set<nat>>, i: nat, c: Char32)
    requires (forall p :: p in vec ==> p in g) && (forall p :: p in Q <==> p in vec)
    requires SplitBy(es, AllTrans(g, vec)) && AllTargets(es, sets, AllTrans(g, vec))
    requires i < |es| && Holds(es[i], c)
    ensures IsStep(g, Q, c, sets[i])
  {
    var ts := AllTrans(g, vec);
    assert TargetsOf(es[i], sets[i], ts);
    forall q ensures q in sets[i] <==> exists p :: p in Q && Chr(g, p, c, q) {
      if q in sets[i] {
        var t :| t in ts && Inside(es[i], t.from, t.to) && t.target == q;
        AllTransOf(g, vec, t);
        var p :| p in vec && t in g[p].ranges;
        assert Graphs.Hit(t, c) && Chr(g, p, c, q);
      }
      if p :| p in Q && Chr(g, p, c, q) {
        var t :| t in g[p].ranges && Graphs.Hit(t, c) && t.target == q;
        AllTransOf(g, vec, t);
        AllOrNothing(es, t, i, c);
      }
    }
  }

  /** All sets are still empty. */
  ghost predicate NoStates(rmap: RangeMap)
    reads rmap, rmap.objs
  {
    rmap.Valid() && forall ms :: ms in rmap.objs ==> ms.Members() == []
  }

  lemma SplitEmpty()
    ensures SplitBy([], [])
  {
  }

  lemma NoTargets(rmap: RangeMap)
    requires NoStates(rmap)
    ensures AllTargets(rmap.Entries(), rmap.Sets(), [])
  {
  }

  /** The ranges of one state are added. */
  method AddRanges(rmap: RangeMap, ts: seq<Trans>, ghost done: seq<Trans>) returns (err: Err)
    requires NoStates(rmap) && SplitBy(rmap.Entries(), done)
    modifies rmap
    ensures NoStates(rmap) && fresh(rmap.objs - old(rmap.objs))
    ensures err == OK ==> SplitBy(rmap.Entries(), done + ts)
    ensures err == EINVAL ==> exists t :: t in ts && t.from > t.to
  {
    hide SplitBy, RangeMap.Entries, MapOk;
    assert done + ts[..0] == done;
    for i := 0 to |ts|
      invariant NoStates(rmap) && fresh(rmap.objs - old(rmap.objs))
      invariant SplitBy(rmap.Entries(), done + ts[..i])
    {
      err := AddOneRange(rmap, ts[i], done + ts[..i]);
      if err != OK {
        return err;
      }
      assert done + ts[..i + 1] == done + ts[..i] + [ts[i]];
    }
    assert done + ts[..|ts|] == done + ts;
    return OK;
  }

  method AddOneRange(rmap: RangeMap, t: Trans, ghost done: seq<Trans>) returns (err: Err)
    requires NoStates(rmap) && SplitBy(rmap.Entries(), done)
    modifies rmap
    ensures NoStates(rmap) && fresh(rmap.objs - old(rmap.objs))
    ensures err == OK ==> SplitBy(rmap.Entries(), done + [t])
    ensures err == EINVAL ==> t.from > t.to
  {
    hide SplitBy, RangeMap.Entries, MapOk, Kept, EndsKept, MultiState.Valid, MultiState.Members;
    ghost var es := rmap.Entries();
    err := rmap.AddRange(t.from, t.to);
    RangesOf(rmap);
    if err == OK {
      SplitMore(es, done, t, rmap.Entries());
    }
  }

  lemma RangesOf(rmap: RangeMap)
    requires rmap.Shape()
    ensures Ranges(rmap.Entries())
  {
  }

  /** The targets of the transitions of one state are added. */
  method AddTargets(rmap: RangeMap, ts: seq<Trans>, ghost all: seq<Trans>, ghost done: seq<Trans>) returns (err: Err)
    requires rmap.Valid() && SplitBy(rmap.Entries(), all) && (forall t :: t in ts ==> t in all)
    requires AllTargets(rmap.Entries(), rmap.Sets(), done)
    modifies rmap.objs
    ensures err == OK
    ensures rmap.Valid() && AllTargets(rmap.Entries(), rmap.Sets(), done + ts)
  {
    hide SplitBy, RangeMap.Valid, RangeMap.Entries, RangeMap.Sets, AllTargets;
    assert done + ts[..0] == done;
    for i := 0 to |ts|
      invariant rmap.Valid() && AllTargets(rmap.Entries(), rmap.Sets(), done + ts[..i])
    {
      err := AddOneTarget(rmap, ts[i], all, done + ts[..i]);
      if err != OK {
        return err;
      }
      assert done + ts[..i + 1] == done + ts[..i] + [ts[i]];
    }
    assert done + ts[..|ts|] == done + ts;
    return OK;
  }

  method AddOneTarget(rmap: RangeMap, t: Trans, ghost all: seq<Trans>, ghost done: seq<Trans>) returns (err: Err)
    requires rmap.Valid() && SplitBy(rmap.Entries(), all) && t in all
    requires AllTargets(rmap.Entries(), rmap.Sets(), done)
    modifies rmap.objs
    ensures err == OK
    ensures rmap.Valid() && AllTargets(rmap.Entries(), rmap.Sets(), done + [t])
  {
    hide RangeMap.Entries, MapOk, MultiState.Valid, MultiState.Contents, AllTargets, Exact, Marks;
    ghost var was := rmap.Sets();
    err := rmap.AddState(t.from, t.to, t.target);
    TargetsMore(rmap, was, t, done);
  }

  lemma TargetsMore(rmap: RangeMap, was: seq<set<nat>>, t: Trans, done: seq<Trans>)
    requires rmap.Valid() && AllTargets(rmap.Entries(), was, done)
    requires Marks(rmap.Entries(), rmap.objs, was, t.from, t.to, t.target, rmap.size)
    ensures AllTargets(rmap.Entries(), rmap.Sets(), done + [t])
  {
    hide MultiState.Contents, MultiState.Valid;
    var es, sets := rmap.Entries(), rmap.Sets();
    forall i | 0 <= i < |es| ensures TargetsOf(es[i], sets[i], done + [t]) {
      assert Marked(es[i], was[i], t.from, t.to, t.target, i < rmap.size);
      assert sets[i] == es[i].val.ms.Contents();
      OneTarget(es[i], was[i], sets[i], done, t);
    }
  }

  lemma OneTarget(e: Entry, was: set<nat>, s: set<nat>, done: seq<Trans>, t: Trans)
    requires TargetsOf(e, was, done)
    requires s == if Inside(e, t.from, t.to) then was + {t.target} else was
    ensures TargetsOf(e, s, done + [t])
  {
    forall q ensures q in s <==> exists u :: u in done + [t] && Inside(e, u.from, u.to) && u.target == q {
      if q in was {
        var u :| u in done && Inside(e, u.from, u.to) && u.target == q;
        assert u in done + [t];
      }
      if q in s && q !in was { assert t in done + [t]; }
    }
  }

  /** The union of the end flags of all states of vec. */
  ghost predicate FlagsOf(flags: bv8, nrend: map<nat, bv8>, vec: seq<nat>) {
    FlagOf(flags, nrend, vec, 1) && FlagOf(flags, nrend, vec, 2) && FlagOf(flags, nrend, vec, 255)
  }

  ghost predicate FlagOf(flags: bv8, nrend: map<nat, bv8>, vec: seq<nat>, bit: bv8) {
    (flags & bit) != 0 <==> exists p :: p in vec && p in nrend && (nrend[p] & bit) != 0
  }

  lemma OrFlags(a: bv8, b: bv8)
    ensures ((a | b) & 1) != 0 <==> (a & 1) != 0 || (b & 1) != 0
    ensures ((a | b) & 2) != 0 <==> (a & 2) != 0 || (b & 2) != 0
    ensures ((a | b) & 255) != 0 <==> (a & 255) != 0 || (b & 255) != 0
  {
  }

  lemma FlagMore(flags: bv8, nrend: map<nat, bv8>, vec: seq<nat>, bit: bv8, p: nat, flags': bv8)
    requires FlagOf(flags, nrend, vec, bit) && p in nrend
    requires (flags' & bit) != 0 <==> (flags & bit) != 0 || (nrend[p] & bit) != 0
    ensures FlagOf(flags', nrend, vec + [p], bit)
  {
    forall q ensures q in vec + [p] <==> q in vec || q == p {
    }
  }

  lemma FlagsMore(flags: bv8, nrend: map<nat, bv8>, vec: seq<nat>, p: nat)
    requires FlagsOf(flags, nrend, vec) && p in nrend
    ensures FlagsOf(flags | nrend[p], nrend, vec + [p])
  {
    hide FlagOf;
    OrFlags(flags, nrend[p]);
    FlagMore(flags, nrend, vec, 1, p, flags | nrend[p]);
    FlagMore(flags, nrend, vec, 2, p, flags | nrend[p]);
    FlagMore(flags, nrend, vec, 255, p, flags | nrend[p]);
  }

  /** build_rangemap_from_statevector */
  method BuildRangeMap(g: Graph, nrend: map<nat, bv8>, vec: seq<nat>)
    returns (err: Err, rmap: RangeMap, nrendstate: bv8)
    requires forall p :: p in vec ==> p in g && p in nrend
    ensures fresh(rmap) && rmap.Valid() && fresh(rmap.objs)
    ensures err == OK ==> Mapped(g, States(vec), rmap.Entries(), rmap.Sets())
    ensures err == OK ==> FlagsOf(nrendstate, nrend, vec)
    ensures err == EINVAL <==> exists p :: p in vec && HasInverted(g, p)
  {
    hide HasInverted, SplitBy, RangeMap.Shape, RangeMap.Entries, RangeMap.Sets, AllTargets, FlagsOf, MultiState.Valid,
      MultiState.Members, Mapped;
    rmap := new RangeMap();
    SplitEmpty();
    NewMap(rmap);
    err, nrendstate := SplitRanges(g, nrend, vec, rmap);
    if err != OK {
      return;
    }
    NoTargets(rmap);
    NoneInverted(g, vec, rmap.Entries());
    for i := 0 to |vec|
      invariant err == OK && rmap.Valid() && fresh(rmap.objs)
      invariant AllTargets(rmap.Entries(), rmap.Sets(), AllTrans(g, vec[..i]))
      invariant SplitBy(rmap.Entries(), AllTrans(g, vec))
    {
      TransNext(g, vec, i);
      err := AddTargets(rmap, g[vec[i]].ranges, AllTrans(g, vec), AllTrans(g, vec[..i]));
      if err != OK {
        return;
      }
    }
    assert vec[..|vec|] == vec;
    IsMapped(g, vec, States(vec), rmap.Entries(), rmap.Sets());
  }

  lemma NoneInverted(g: Graph, vec: seq<nat>, es: seq<Entry>)
    requires SplitBy(es, AllTrans(g, vec)) && forall p :: p in vec ==> p in g
    ensures forall p :: p in vec ==> !HasInverted(g, p)
  {
    forall p, t | p in vec && t in g[p].ranges ensures t.from <= t.to {
      AllTransOf(g, vec, t);
    }
  }

  lemma TransNext(g: Graph, vec: seq<nat>, i: nat)
    requires i < |vec| && forall p :: p in vec ==> p in g
    ensures AllTrans(g, vec[..i + 1]) == AllTrans(g, vec[..i]) + g[vec[i]].ranges
    ensures forall t :: t in g[vec[i]].ranges ==> t in AllTrans(g, vec)
  {
    assert vec[..i + 1][..i] == vec[..i];
    forall t | t in g[vec[i]].ranges ensures t in AllTrans(g, vec) {
      AllTransOf(g, vec, t);
    }
  }

  lemma NewMap(rmap: RangeMap)
    requires rmap.Shape() && rmap.objs == {}
    ensures NoStates(rmap)
  {
  }

  /** Step 1: the ranges of all states are added. */
  method SplitRanges(g: Graph, nrend: map<nat, bv8>, vec: seq<nat>, rmap: RangeMap) returns (err: Err, flags: bv8)
    requires forall p :: p in vec ==> p in g && p in nrend
    requires NoStates(rmap) && SplitBy(rmap.Entries(), [])
    modifies rmap
    ensures NoStates(rmap) && fresh(rmap.objs - old(rmap.objs))
    ensures err == OK ==> SplitBy(rmap.Entries(), AllTrans(g, vec))
    ensures err == OK ==> FlagsOf(flags, nrend, vec)
    ensures err == EINVAL ==> exists p :: p in vec && HasInverted(g, p)
  {
    hide SplitBy, RangeMap.Shape, RangeMap.Entries, FlagsOf, MultiState.Valid, MultiState.Members;
    err, flags := OK, 0;
    NoFlags(nrend);
    for i := 0 to |vec|
      invariant err == OK && NoStates(rmap) && fresh(rmap.objs - old(rmap.objs))
      invariant SplitBy(rmap.Entries(), AllTrans(g, vec[..i]))
      invariant FlagsOf(flags, nrend, vec[..i])
    {
      var p := vec[i];
      assert vec[..i + 1] == vec[..i] + [p];
      FlagsMore(flags, nrend, vec[..i], p);
      flags := flags | nrend[p];
      TransNext(g, vec, i);
      err := AddRanges(rmap, g[p].ranges, AllTrans(g, vec[..i]));
      if err != OK {
        assert HasInverted(g, p);
        return;
      }
    }
    assert vec[..|vec|] == vec;
  }

  lemma NoFlags(nrend: map<nat, bv8>)
    ensures FlagsOf(0, nrend, [])
  {
  }
}
