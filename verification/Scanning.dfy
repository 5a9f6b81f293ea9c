/** The inner loop of makedfa_automat and makedfa2_automat: every range of the
    rangemap becomes a transition to the set of states that it leads to. */
module Scanning {
  import opened Graphs
  import opened Thompson
  import opened Subset
  import opened BTree
  import opened MultiStates
  import opened RangeMaps
  import opened Building
  import opened Closures

  const CHARS: nat := 0x1_0000_0000

  /** The sets of states found so far, each as an ascending statevector; the index,
      a patricia trie in the source, finds a set among them. */
  datatype Vecs = Vecs(vecs: seq<seq<nat>>, index: map<seq<nat>, nat>)

  ghost predicate Indexed(v: Vecs) {
    && (forall i :: 0 <= i < |v.vecs| ==> Ascending(v.vecs[i]) && v.vecs[i] in v.index && v.index[v.vecs[i]] == i)
    && (forall x :: x in v.index ==> v.index[x] < |v.vecs| && v.vecs[v.index[x]] == x)
  }

  /** All sets are closed sets of states of the source; those found later are useful. */
  ghost predicate Sets(src: Source, v: Vecs) {
    && (forall i :: 0 <= i < |v.vecs| ==> States(v.vecs[i]) <= src.S1 + src.S2 && EpsClosed(src.g, States(v.vecs[i])))
    && (forall i :: 0 < i < |v.vecs| ==> Useful(src, States(v.vecs[i])))
  }

  /** The sets of v1 keep their numbers in v2. */
  ghost predicate Extends(v1: Vecs, v2: Vecs) {
    |v1.vecs| <= |v2.vecs| && v2.vecs[..|v1.vecs|] == v1.vecs
  }

  /** insert_patriciatrie: the number of the set, which is entered if it is new. */
  method Enter(v0: Vecs, x: seq<nat>) returns (v: Vecs, id: nat)
    requires Indexed(v0) && Ascending(x)
    ensures Indexed(v) && Extends(v0, v) && id < |v.vecs| && v.vecs[id] == x
    ensures v == v0 || (id == |v0.vecs| && v.vecs == v0.vecs + [x])
  {
    if x in v0.index {
      v, id := v0, v0.index[x];
    } else {
      id := |v0.vecs|;
      v := Vecs(v0.vecs + [x], v0.index[x := id]);
    }
  }

  lemma {:induction false} SumAppend(s: seq<nat>, x: nat)
    ensures Sum(s + [x]) == Sum(s) + x
  {
    if s != [] {
      SumAppend(s[1..], x);
      assert (s + [x])[1..] == s[1..] + [x];
    }
  }

  lemma SumGrow(s: seq<nat>)
    requires s != []
    ensures Sum(s[|s| - 1 := s[|s| - 1] + 1]) == Sum(s) + 1
  {
    var init, x := s[..|s| - 1], s[|s| - 1];
    SumAppend(init, x);
    SumAppend(init, x + 1);
    assert init + [x] == s && init + [x + 1] == s[|s| - 1 := x + 1];
  }

  lemma ChunkedMore(n: Node, chunks: seq<nat>)
    requires Chunked(n)
    requires chunks == n.chunks + [1]
      || (n.chunks != [] && chunks == n.chunks[|n.chunks| - 1 := n.chunks[|n.chunks| - 1] + 1])
    ensures (forall i :: 0 <= i < |chunks| ==> chunks[i] > 0) && Sum(chunks) == |n.ranges| + 1
  {
    SumAppend(n.chunks, 1);
    if n.chunks != [] { SumGrow(n.chunks); }
  }

  /** Everything added so far lies below limit. */
  ghost predicate Below(n: Node, limit: nat) {
    && RangesSorted(n.ranges) && Chunked(n) && Apart(n.ranges)
    && (n.ranges != [] ==> n.ranges[|n.ranges| - 1].to < limit)
  }

  /** A transition starts right behind the one before it only if it leads elsewhere. */
  ghost predicate Apart(ts: seq<Trans>) {
    forall i :: 0 <= i < |ts| - 1 ==> ts[i].to + 1 < ts[i + 1].from || ts[i].target != ts[i + 1].target
  }

  lemma BelowAll(n: Node, limit: nat, i: nat)
    requires Below(n, limit) && i < |n.ranges|
    ensures n.ranges[i].to < limit
  {
    if i < |n.ranges| - 1 {
      assert n.ranges[i].to < n.ranges[|n.ranges| - 1].from;
    }
  }

  /** Adds a transition to the state; it is merged with the one before if that leads to the same set.
      Whether the new transition can be placed in the last range_transition_t depends
      on the addresses the memory manager hands out. */
  method AddTransition(n0: Node, from: Char32, to: Char32, id: nat) returns (n: Node)
    requires Below(n0, from) && from <= to
    ensures Below(n, to + 1) && n.empty == n0.empty
    ensures forall c: Char32, q :: Sends(n.ranges, c, q) <==> Sends(n0.ranges, c, q) || (from <= c <= to && q == id)
  {
    var last := |n0.ranges| - 1;
    if last >= 0 && n0.ranges[last].target == id && from == n0.ranges[last].to + 1 {
      n := n0.(ranges := n0.ranges[last := Trans(n0.ranges[last].from, to, id)]);
      MergedSorted(n0, from, to, id, n);
      Merged(n0, from, to, id, n);
    } else {
      var chunks := n0.chunks + [1];
      if n0.chunks != [] {
        if * { chunks := n0.chunks[|n0.chunks| - 1 := n0.chunks[|n0.chunks| - 1] + 1]; }
      }
      ChunkedMore(n0, chunks);
      n := n0.(ranges := n0.ranges + [Trans(from, to, id)], chunks := chunks);
      Appended(n0, from, to, id, n);
    }
  }

  lemma Appended(n0: Node, from: Char32, to: Char32, id: nat, n: Node)
    requires Below(n0, from) && from <= to && n.ranges == n0.ranges + [Trans(from, to, id)]
    requires n0.ranges != [] ==>
      var t := n0.ranges[|n0.ranges| - 1]; t.target != id || t.to + 1 != from
    ensures RangesSorted(n.ranges) && Apart(n.ranges)
    ensures forall c: Char32, q :: Sends(n.ranges, c, q) <==> Sends(n0.ranges, c, q) || (from <= c <= to && q == id)
  {
    var t := Trans(from, to, id);
    forall i | 0 <= i < |n0.ranges| ensures n0.ranges[i].to < from { BelowAll(n0, from, i); }
    forall c: Char32, q ensures Sends(n.ranges, c, q) <==> Sends(n0.ranges, c, q) || (from <= c <= to && q == id) {
      if u :| u in n0.ranges && Graphs.Hit(u, c) && u.target == q { assert u in n.ranges; }
      if from <= c <= to && q == id { assert t in n.ranges && Graphs.Hit(t, c); }
    }
  }

  lemma MergedSorted(n0: Node, from: Char32, to: Char32, id: nat, n: Node)
    requires Below(n0, from) && from <= to && n0.ranges != []
    requires var last := |n0.ranges| - 1;
      && n0.ranges[last].target == id && from == n0.ranges[last].to + 1
      && n.ranges == n0.ranges[last := Trans(n0.ranges[last].from, to, id)]
    ensures RangesSorted(n.ranges) && Apart(n.ranges)
  {
    var last := |n0.ranges| - 1;
    assert n0.ranges[last].from <= n0.ranges[last].to;
  }

  lemma Merged(n0: Node, from: Char32, to: Char32, id: nat, n: Node)
    requires Below(n0, from) && from <= to && n0.ranges != []
    requires var last := |n0.ranges| - 1;
      && n0.ranges[last].target == id && from == n0.ranges[last].to + 1
      && n.ranges == n0.ranges[last := Trans(n0.ranges[last].from, to, id)]
    ensures forall c: Char32, q :: Sends(n.ranges, c, q) <==> Sends(n0.ranges, c, q) || (from <= c <= to && q == id)
  {
    var last := |n0.ranges| - 1;
    var was, t := n0.ranges[last], n.ranges[last];
    assert was.from <= was.to;
    forall c: Char32, q ensures Sends(n.ranges, c, q) <==> Sends(n0.ranges, c, q) || (from <= c <= to && q == id) {
      if u :| u in n0.ranges && Graphs.Hit(u, c) && u.target == q {
        var i :| 0 <= i < |n0.ranges| && n0.ranges[i] == u;
        assert n.ranges[i] in n.ranges && Graphs.Hit(n.ranges[i], c);
      }
      if from <= c <= to && q == id { assert t in n.ranges && Graphs.Hit(t, c); }
      if u :| u in n.ranges && Graphs.Hit(u, c) && u.target == q {
        var i :| 0 <= i < |n.ranges| && n.ranges[i] == u;
        assert n0.ranges[i] in n0.ranges;
      }
    }
  }

  /** nrdfa and nrendstate of all states. */
  ghost predicate Flagged(src: Source, nrdfa: map<nat, nat>, nrend: map<nat, bv8>) {
    && (forall p :: p in src.S1 ==>
          p in nrdfa && nrdfa[p] == 1 && p in nrend && nrend[p] == if p == src.end1 then 1 else 0)
    && (src.op != ONE ==>
          forall p :: p in src.S2 ==>
            p in nrdfa && nrdfa[p] == 2 && p in nrend && nrend[p] == if p == src.end2 then 2 else 0)
    && (src.op == ONE ==> src.S2 == {})
  }

  /** isendstate */
  function IsEndState(op: Op, flags: bv8): bool {
    match op
    case ONE => flags != 0
    case AND => (flags & 1) != 0 && (flags & 2) != 0
    case AND_NOT => (flags & 1) != 0 && (flags & 2) == 0
  }

  const MAXSTATEPERBLOCK: nat := 16382

  /** isnrdfa12_statevector: it starts with the last block of the statevector. */
  method IsNrDfa12(vec: seq<nat>, nrdfa: map<nat, nat>, isNeedDFA2: bool) returns (r: bool)
    requires forall p :: p in vec ==> p in nrdfa && (nrdfa[p] == 1 || nrdfa[p] == 2)
    ensures r <==> (exists p :: p in vec && nrdfa[p] == 1) && (isNeedDFA2 ==> exists p :: p in vec && nrdfa[p] == 2)
  {
    if vec == [] {
      return false;
    }
    var block := (|vec| - 1) / MAXSTATEPERBLOCK * MAXSTATEPERBLOCK;
    var first := vec[block];
    assert first in vec;
    var nr := 1;
    if nrdfa[first] == 1 {
      if !isNeedDFA2 {
        return true;
      }
      nr := 2;
    }
    for i := 0 to |vec|
      invariant forall j :: 0 <= j < i ==> nrdfa[vec[Turned(block, j, |vec|)]] != nr
    {
      var p := vec[Turned(block, i, |vec|)];
      assert p in vec;
      if nrdfa[p] == nr {
        return true;
      }
    }
    forall p | p in vec ensures nrdfa[p] != nr {
      var k :| 0 <= k < |vec| && vec[k] == p;
      assert Turned(block, if k >= block then k - block else k + |vec| - block, |vec|) == k;
    }
    return false;
  }

  /** Element number i when counting starts at `block` and goes on at the start. */
  function Turned(block: nat, i: nat, n: nat): (k: nat)
    requires block < n && i < n
    ensures k < n
  {
    if block + i < n then block + i else block + i - n
  }

  /** What the new state does on the characters below limit. The sets from number `found` on
      were entered here. */
  ghost predicate Scanned(src: Source, Q: set<nat>, v: Vecs, found: nat, n: Node, limit: nat) {
    var vecs := v.vecs;
    && Below(n, limit) && Indexed(v) && Sets(src, v)
    && (forall c: Char32, q: nat :: Sends(n.ranges, c, q) ==> q < |vecs| && LeadsTo(src, Q, c, States(vecs[q])))
    && (forall c: Char32 :: c < limit && (forall q :: !Sends(n.ranges, c, q)) ==> Dead(src, Q, c))
    && (forall m :: found <= m < |vecs| ==> Targeted(n, m))
  }

  ghost predicate Targeted(n: Node, m: nat) {
    exists c: Char32 :: Sends(n.ranges, c, m)
  }

  lemma ScanNothing(src: Source, Q: set<nat>, v: Vecs, n: Node)
    requires Indexed(v) && Sets(src, v) && n.ranges == [] && n.chunks == []
    ensures Scanned(src, Q, v, |v.vecs|, n, 0)
  {
  }

  /** On the next characters there is nothing to do. */
  lemma ScanSkip(src: Source, Q: set<nat>, v: Vecs, found: nat, n: Node, limit: nat, limit': nat)
    requires Scanned(src, Q, v, found, n, limit) && limit <= limit'
    requires forall c: Char32 :: limit <= c < limit' ==> Dead(src, Q, c)
    ensures Scanned(src, Q, v, found, n, limit')
  {
    hide Dead, LeadsTo, Sends, Targeted, Indexed, Sets, RangesSorted, Chunked;
  }

  lemma ScanAdd(src: Source, Q: set<nat>, v: Vecs, found: nat, n: Node, from: Char32, to: Char32, v': Vecs, id: nat,
                n': Node)
    requires Scanned(src, Q, v, found, n, from) && from <= to
    requires Indexed(v') && Sets(src, v') && Extends(v, v') && id < |v'.vecs| && Below(n', to + 1)
    requires v' == v || (id == |v.vecs| && |v'.vecs| == id + 1)
    requires forall c: Char32, q :: Sends(n'.ranges, c, q) <==> Sends(n.ranges, c, q) || (from <= c <= to && q == id)
    requires forall c: Char32 :: from <= c <= to ==> LeadsTo(src, Q, c, States(v'.vecs[id]))
    ensures Scanned(src, Q, v', found, n', to + 1)
  {
    hide Dead, LeadsTo, Sends, Indexed, Sets, RangesSorted, Chunked;
    forall c: Char32, q: nat | Sends(n'.ranges, c, q) ensures q < |v'.vecs| && LeadsTo(src, Q, c, States(v'.vecs[q])) {
      if Sends(n.ranges, c, q) {
        assert v'.vecs[q] == v'.vecs[..|v.vecs|][q] == v.vecs[q];
      }
    }
    forall m | found <= m < |v'.vecs| ensures Targeted(n', m) {
      if m < |v.vecs| {
        assert Targeted(n, m);
        var c: Char32 :| Sends(n.ranges, c, m);
        assert Sends(n'.ranges, c, m);
      } else {
        assert Sends(n'.ranges, from, m);
      }
    }
    forall c: Char32 | c < to + 1 && (forall q :: !Sends(n'.ranges, c, q)) ensures Dead(src, Q, c) {
      assert !Sends(n'.ranges, c, id);
      forall q ensures !Sends(n.ranges, c, q) {
        assert !Sends(n'.ranges, c, q);
      }
    }
  }

  /** The sets of the ranges from k on are as they were. */
  ghost predicate Unread(es: seq<Entry>, objs: set<MultiState>, sets: seq<set<nat>>, k: nat)
    reads objs
  {
    && |sets| == |es|
    && forall j :: k <= j < |es| ==> es[j].val.ms in objs && es[j].val.ms.Valid() && es[j].val.ms.Contents() == sets[j]
  }

  /** Completes the set of a range and converts it to a statevector. */
  method CloseEntry(g: Graph, es: seq<Entry>, k: nat, ghost S: set<nat>, ghost objs: set<MultiState>,
                    ghost sets: seq<set<nat>>)
    returns (vec: seq<nat>)
    requires Unread(es, objs, sets, k) && DistinctSets(es) && k < |es| && Closed(g, S) && sets[k] <= S
    modifies objs
    ensures Unread(es, objs, sets, k + 1)
    ensures Ascending(vec) && IsClosure(g, sets[k], States(vec))
  {
    hide MultiState.Valid, MultiState.Contents, Closed, IsClosure;
    var ms := es[k].val.ms;
    assert forall j :: k < j < |es| ==> es[j].val.ms != ms;
    FollowEmpty(g, ms, S);
    vec := ms.ToSeq();
    assert States(vec) == ms.Contents();
  }

  /** What follows from the rangemap about the characters of range k, and those before it. */
  lemma RangeLeads(src: Source, Q: set<nat>, es: seq<Entry>, sets: seq<set<nat>>, k: nat, C: set<nat>)
    requires Mapped(src.g, Q, es, sets) && k < |es| && IsClosure(src.g, sets[k], C)
    ensures forall c: Char32 :: es[k].key <= c <= es[k].val.to ==> LeadsTo(src, Q, c, C)
  {
    hide IsClosure, IsStep;
    forall c: Char32 | es[k].key <= c <= es[k].val.to ensures LeadsTo(src, Q, c, C) {
      assert Holds(es[k], c);
      assert IsStep(src.g, Q, c, sets[k]);
    }
  }

  /** Where the scan of range k starts. */
  function LimitAt(es: seq<Entry>, k: nat): nat
    requires k <= |es|
  {
    if k == 0 then 0 else es[k - 1].val.to + 1
  }

  lemma GapDead(src: Source, Q: set<nat>, es: seq<Entry>, sets: seq<set<nat>>, k: nat)
    requires Mapped(src.g, Q, es, sets) && k <= |es|
    ensures forall c: Char32 :: LimitAt(es, k) <= c < (if k < |es| then es[k].key else CHARS) ==> Dead(src, Q, c)
    ensures LimitAt(es, k) <= if k < |es| then es[k].key else CHARS
  {
    hide IsStep, LeadsTo, Useful;
    forall c: Char32 | LimitAt(es, k) <= c < (if k < |es| then es[k].key else CHARS) ensures Dead(src, Q, c) {
      forall i | 0 <= i < |es| ensures !Holds(es[i], c) {
        if i < k - 1 { assert es[i].val.to < es[k - 1].key; }
        if i > k { assert es[k].val.to < es[i].key; }
      }
      assert !Cov(es, c);
    }
  }

  lemma SetWithin(src: Source, Q: set<nat>, es: seq<Entry>, sets: seq<set<nat>>, k: nat)
    requires Proper(src) && Q <= src.S1 + src.S2 && Mapped(src.g, Q, es, sets) && k < |es|
    ensures sets[k] <= src.S1 + src.S2 && Closed(src.g, src.S1 + src.S2)
  {
    assert Holds(es[k], es[k].key);
    assert IsStep(src.g, Q, es[k].key, sets[k]);
    StaysInside(src, Q, es[k].key, sets[k]);
  }

  lemma SetsMore(src: Source, Q: set<nat>, c: Char32, v: Vecs, x: seq<nat>, v': Vecs)
    requires Proper(src) && Q <= src.S1 + src.S2 && Sets(src, v)
    requires LeadsTo(src, Q, c, States(x)) && Useful(src, States(x))
    requires v' == v || v'.vecs == v.vecs + [x]
    ensures Sets(src, v')
  {
    hide LeadsTo, Proper, Useful;
    StepWithin(src, Q, c, States(x));
  }

  /** isnrdfa12_statevector tells whether the set is useful. */
  lemma NrDfaUseful(src: Source, nrdfa: map<nat, nat>, nrend: map<nat, bv8>, vec: seq<nat>)
    requires Flagged(src, nrdfa, nrend) && States(vec) <= src.S1 + src.S2 && src.op != ONE && src.S1 !! src.S2
    ensures forall p :: p in vec ==> p in nrdfa && (nrdfa[p] == 1 || nrdfa[p] == 2)
    ensures Useful(src, States(vec)) <==>
      (exists p :: p in vec && nrdfa[p] == 1) && (src.op == AND ==> exists p :: p in vec && nrdfa[p] == 2)
  {
    forall p | p in vec
      ensures p in nrdfa && nrdfa[p] == if p in src.S1 then 1 else 2
      ensures p in src.S1 || p in src.S2
    {
      assert p in States(vec);
    }
    if p :| p in vec && nrdfa[p] == 1 { assert p in States(vec) && p in src.S1; }
    if p :| p in vec && nrdfa[p] == 2 { assert p in States(vec) && p in src.S2; }
    if p :| p in States(vec) && p in src.S1 { assert p in vec; }
    if p :| p in States(vec) && p in src.S2 { assert p in vec && p !in src.S1; }
  }

  /** Everything the scan of the rangemap relies on. */
  ghost predicate Scannable(src: Source, nrdfa: map<nat, nat>, nrend: map<nat, bv8>, Q: set<nat>, es: seq<Entry>,
                            sets: seq<set<nat>>) {
    var S := src.S1 + src.S2;
    && Proper(src) && Flagged(src, nrdfa, nrend)
    && Q <= S && EpsClosed(src.g, Q)
    && Mapped(src.g, Q, es, sets) && DistinctSets(es)
  }

  /** A range whose set is pruned gets no transition. */
  lemma ScanPruned(src: Source, Q: set<nat>, es: seq<Entry>, sets: seq<set<nat>>, k: nat, v: Vecs, found: nat, n: Node,
                   C: set<nat>)
    requires Mapped(src.g, Q, es, sets) && k < |es| && IsClosure(src.g, sets[k], C) && !Useful(src, C)
    requires Scanned(src, Q, v, found, n, es[k].key)
    ensures Scanned(src, Q, v, found, n, es[k].val.to + 1)
  {
    hide Mapped, IsClosure, Scanned, Useful, LeadsTo;
    assert Ranges(es) by { MappedRanges(src.g, Q, es, sets); }
    RangeLeads(src, Q, es, sets, k, C);
    ScanSkip(src, Q, v, found, n, es[k].key, es[k].val.to + 1);
  }

  lemma MappedRanges(g: Graph, Q: set<nat>, es: seq<Entry>, sets: seq<set<nat>>)
    requires Mapped(g, Q, es, sets)
    ensures Ranges(es) && |sets| == |es|
  {
  }

  lemma ScanGap(src: Source, Q: set<nat>, es: seq<Entry>, sets: seq<set<nat>>, k: nat, v: Vecs, found: nat, n: Node)
    requires Mapped(src.g, Q, es, sets) && k <= |es| && Scanned(src, Q, v, found, n, LimitAt(es, k))
    ensures Scanned(src, Q, v, found, n, if k < |es| then es[k].key else CHARS)
  {
    hide Mapped, Scanned, Dead;
    GapDead(src, Q, es, sets, k);
    ScanSkip(src, Q, v, found, n, LimitAt(es, k), if k < |es| then es[k].key else CHARS);
  }

  lemma ClosureInside(src: Source, nrdfa: map<nat, nat>, nrend: map<nat, bv8>, Q: set<nat>, es: seq<Entry>,
                      sets: seq<set<nat>>, k: nat, C: set<nat>)
    requires Scannable(src, nrdfa, nrend, Q, es, sets) && k < |es| && IsClosure(src.g, sets[k], C)
    ensures C <= src.S1 + src.S2 && LeadsTo(src, Q, es[k].key, C)
  {
    hide IsClosure, LeadsTo, Mapped, Proper;
    RangeLeads(src, Q, es, sets, k, C);
    MappedRanges(src.g, Q, es, sets);
    StepWithin(src, Q, es[k].key, C);
  }

  lemma ScanStart(src: Source, nrdfa: map<nat, nat>, nrend: map<nat, bv8>, Q: set<nat>, es: seq<Entry>,
                  sets: seq<set<nat>>, k: nat)
    requires Scannable(src, nrdfa, nrend, Q, es, sets) && k < |es|
    ensures Proper(src) && Q <= src.S1 + src.S2 && Mapped(src.g, Q, es, sets) && Ranges(es) && DistinctSets(es)
    ensures |sets| == |es| && sets[k] <= src.S1 + src.S2 && Closed(src.g, src.S1 + src.S2)
    ensures es[k].key <= es[k].val.to
  {
    hide Proper;
    SetWithin(src, Q, es, sets, k);
  }

  lemma PruneOk(src: Source, nrdfa: map<nat, nat>, nrend: map<nat, bv8>, Q: set<nat>, es: seq<Entry>,
                sets: seq<set<nat>>, k: nat, vec: seq<nat>)
    requires Scannable(src, nrdfa, nrend, Q, es, sets) && k < |es|
    requires IsClosure(src.g, sets[k], States(vec)) && src.op != ONE
    ensures forall p :: p in vec ==> p in nrdfa && (nrdfa[p] == 1 || nrdfa[p] == 2)
    ensures Useful(src, States(vec)) <==>
      (exists p :: p in vec && nrdfa[p] == 1) && (src.op == AND ==> exists p :: p in vec && nrdfa[p] == 2)
  {
    hide IsClosure, Mapped, LeadsTo, Flagged, Useful, States;
    ClosureInside(src, nrdfa, nrend, Q, es, sets, k, States(vec));
    NrDfaUseful(src, nrdfa, nrend, vec);
  }

  /** One range of the rangemap. */
  method ScanOne(ghost src: Source, g: Graph, op: Op, nrdfa: map<nat, nat>, ghost nrend: map<nat, bv8>,
                 ghost Q: set<nat>, es: seq<Entry>, k: nat, ghost objs: set<MultiState>, ghost sets: seq<set<nat>>,
                 v0: Vecs, n0: Node, ghost found: nat)
    returns (v: Vecs, n: Node)
    requires src.g == g && src.op == op && Scannable(src, nrdfa, nrend, Q, es, sets) && k < |es|
    requires Unread(es, objs, sets, k) && Scanned(src, Q, v0, found, n0, LimitAt(es, k))
    modifies objs
    ensures Unread(es, objs, sets, k + 1) && Scanned(src, Q, v, found, n, LimitAt(es, k + 1))
    ensures Extends(v0, v) && n.empty == n0.empty
  {
    hide Scannable, Mapped, Unread, Scanned, Proper, IsClosure, Useful, LeadsTo, Closed, Ranges, DistinctSets,
      MultiState.Valid, MultiState.Contents;
    ScanStart(src, nrdfa, nrend, Q, es, sets, k);
    var vec := CloseEntry(g, es, k, src.S1 + src.S2, objs, sets);
    ScanGap(src, Q, es, sets, k, v0, found, n0);
    if op != ONE {
      PruneOk(src, nrdfa, nrend, Q, es, sets, k, vec);
      var useful := IsNrDfa12(vec, nrdfa, op == AND);
      if !useful {
        ScanPruned(src, Q, es, sets, k, v0, found, n0, States(vec));
        v, n := v0, n0;
        return;
      }
    } else {
      AllUseful(src, States(vec));
    }
    v, n := ScanTransition(src, nrdfa, nrend, Q, es, k, sets, v0, n0, found, vec);
  }

  lemma AllUseful(src: Source, Q: set<nat>)
    requires src.op == ONE
    ensures Useful(src, Q)
  {
  }

  method ScanTransition(ghost src: Source, ghost nrdfa: map<nat, nat>, ghost nrend: map<nat, bv8>, ghost Q: set<nat>,
                        es: seq<Entry>, k: nat, ghost sets: seq<set<nat>>,
                        v0: Vecs, n0: Node, ghost found: nat, vec: seq<nat>)
    returns (v: Vecs, n: Node)
    requires Scannable(src, nrdfa, nrend, Q, es, sets) && k < |es|
    requires Ascending(vec) && IsClosure(src.g, sets[k], States(vec))
    requires Scanned(src, Q, v0, found, n0, es[k].key) && Useful(src, States(vec))
    ensures Scanned(src, Q, v, found, n, LimitAt(es, k + 1)) && Extends(v0, v) && n.empty == n0.empty
  {
    hide Useful, Scannable, Mapped, Scanned, Proper, IsClosure, LeadsTo, Ranges, DistinctSets, Below, Indexed, Sets,
      Sends;
    ScanStart(src, nrdfa, nrend, Q, es, sets, k);
    ScannedAt(src, Q, v0, found, n0, es[k].key);
    var id;
    v, id := Enter(v0, vec);
    ClosureInside(src, nrdfa, nrend, Q, es, sets, k, States(vec));
    RangeLeads(src, Q, es, sets, k, States(vec));
    SetsMore(src, Q, es[k].key, v0, vec, v);
    n := AddTransition(n0, es[k].key, es[k].val.to, id);
    ScanAdd(src, Q, v0, found, n0, es[k].key, es[k].val.to, v, id, n);
  }

  lemma ScannedAt(src: Source, Q: set<nat>, v: Vecs, found: nat, n: Node, limit: nat)
    requires Scanned(src, Q, v, found, n, limit)
    ensures Below(n, limit) && Indexed(v) && Sets(src, v)
  {
  }

  /** All ranges of the rangemap. */
  method Scan(ghost src: Source, g: Graph, op: Op, nrdfa: map<nat, nat>, ghost nrend: map<nat, bv8>, ghost Q: set<nat>,
              es: seq<Entry>, ghost objs: set<MultiState>, ghost sets: seq<set<nat>>, v0: Vecs, n0: Node)
    returns (v: Vecs, n: Node)
    requires src.g == g && src.op == op && Scannable(src, nrdfa, nrend, Q, es, sets) && Unread(es, objs, sets, 0)
    requires Indexed(v0) && Sets(src, v0) && n0.ranges == [] && n0.chunks == []
    modifies objs
    ensures Scanned(src, Q, v, |v0.vecs|, n, CHARS) && Extends(v0, v) && n.empty == n0.empty
  {
    hide Scannable, Mapped, Unread, Scanned, Indexed, Sets;
    v, n := v0, n0;
    ScanNothing(src, Q, v, n);
    for k := 0 to |es|
      invariant Unread(es, objs, sets, k) && Scanned(src, Q, v, |v0.vecs|, n, LimitAt(es, k))
      invariant Extends(v0, v) && n.empty == n0.empty
    {
      v, n := ScanOne(src, g, op, nrdfa, nrend, Q, es, k, objs, sets, v, n, |v0.vecs|);
    }
    ScanEnd(src, nrdfa, nrend, Q, es, sets, v, |v0.vecs|, n);
  }

  lemma ScanEnd(src: Source, nrdfa: map<nat, nat>, nrend: map<nat, bv8>, Q: set<nat>, es: seq<Entry>,
                sets: seq<set<nat>>, v: Vecs, found: nat, n: Node)
    requires Scannable(src, nrdfa, nrend, Q, es, sets) && Scanned(src, Q, v, found, n, LimitAt(es, |es|))
    ensures Scanned(src, Q, v, found, n, CHARS)
  {
    hide Scanned, Mapped, Proper;
    ScanGap(src, Q, es, sets, |es|, v, found, n);
  }
}
