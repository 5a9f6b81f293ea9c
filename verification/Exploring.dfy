/** The worklist of the subset construction. */
module Exploring {
  import opened Graphs
  import opened Thompson
  import opened Subset
  import opened MultiStates
  import opened RangeMaps
  import opened Building
  import opened Scanning
  import opened Visiting

  /** The node does what the set Q does; its transitions lead to statevectors yet. */
  ghost predicate RawFor(src: Source, n: Node, vecs: seq<seq<nat>>, Q: set<nat>, base: nat) {
    var ts := n.ranges;
    && n.empty == (if IsEnd(src, Q) then [base] else [])
    && RangesSorted(ts) && Chunked(n) && Apart(ts)
    && (forall c: Char32, q: nat :: Sends(ts, c, q) ==> q < |vecs| && LeadsTo(src, Q, c, States(vecs[q])))
    && (forall c: Char32 :: (forall q :: !Sends(ts, c, q)) ==> Dead(src, Q, c))
  }

  /** Statevector number i has got its state: base + 1 + i, or the end state base. */
  ghost predicate ExploredAt(src: Source, base: nat, vecs: seq<seq<nat>>, dfa: seq<nat>, raw: Graph, i: nat)
    requires i < |dfa| && i < |vecs|
  {
    && !InvertedIn(src.g, States(vecs[i]))
    && if dfa[i] == base then i > 0 && Final(src, States(vecs[i]))
    else
      && dfa[i] == base + 1 + i && dfa[i] in raw && RawFor(src, raw[dfa[i]], vecs, States(vecs[i]), base)
      && (i > 0 ==> NotOnlyEnd(raw[dfa[i]]))
  }

  /** Statevector m has been found as a target of the state of statevector j. */
  ghost predicate FoundFrom(dfa: seq<nat>, raw: Graph, base: nat, j: nat, m: nat) {
    j < |dfa| && j < m && dfa[j] != base && dfa[j] in raw && Targeted(raw[dfa[j]], m)
  }

  ghost predicate Found(dfa: seq<nat>, raw: Graph, base: nat, m: nat) {
    exists j: nat :: FoundFrom(dfa, raw, base, j, m)
  }

  ghost predicate RawKeys(dfa: seq<nat>, raw: Graph, base: nat) {
    forall s :: s in raw <==> base < s <= base + |dfa| && dfa[s - base - 1] == s
  }

  /** The first |dfa| statevectors have been processed. */
  ghost predicate Explored(src: Source, base: nat, v: Vecs, dfa: seq<nat>, raw: Graph) {
    var vecs := v.vecs;
    && Indexed(v) && Sets(src, v) && |dfa| <= |vecs|
    && (forall i :: 0 <= i < |dfa| ==> ExploredAt(src, base, vecs, dfa, raw, i))
    && RawKeys(dfa, raw, base)
    && (forall m :: 0 < m < |vecs| ==> Found(dfa, raw, base, m))
  }

  lemma RawExtended(src: Source, n: Node, v: Vecs, v': Vecs, Q: set<nat>, base: nat)
    requires RawFor(src, n, v.vecs, Q, base) && Extends(v, v')
    ensures RawFor(src, n, v'.vecs, Q, base)
  {
    hide Dead, LeadsTo, Sends, RangesSorted, Chunked;
    forall c: Char32, q: nat | Sends(n.ranges, c, q) ensures q < |v'.vecs| && LeadsTo(src, Q, c, States(v'.vecs[q])) {
      assert v'.vecs[q] == v'.vecs[..|v.vecs|][q];
    }
  }

  lemma ScannedRaw(src: Source, Q: set<nat>, v: Vecs, found: nat, n: Node, base: nat)
    requires Scanned(src, Q, v, found, n, CHARS) && n.empty == (if IsEnd(src, Q) then [base] else [])
    ensures RawFor(src, n, v.vecs, Q, base)
  {
    hide Dead, LeadsTo, Sends, RangesSorted, Chunked, Targeted, Sets, Indexed;
  }

  lemma ExtendedAt(src: Source, base: nat, v: Vecs, dfa: seq<nat>, raw: Graph, i: nat, v': Vecs, dfa': seq<nat>,
                   raw': Graph)
    requires i < |dfa| <= |v.vecs| && i < |dfa'| && i < |v'.vecs|
    requires ExploredAt(src, base, v.vecs, dfa, raw, i) && Extends(v, v')
    requires dfa'[i] == dfa[i] && (dfa[i] in raw ==> dfa[i] in raw' && raw'[dfa[i]] == raw[dfa[i]])
    ensures ExploredAt(src, base, v'.vecs, dfa', raw', i)
  {
    hide RawFor, Final, InvertedIn;
    assert v'.vecs[i] == v'.vecs[..|v.vecs|][i];
    if dfa[i] != base {
      RawExtended(src, raw[dfa[i]], v, v', States(v.vecs[i]), base);
    }
  }

  lemma FoundMore(dfa: seq<nat>, raw: Graph, base: nat, m: nat, dfa': seq<nat>, raw': Graph)
    requires Found(dfa, raw, base, m) && |dfa| <= |dfa'| && dfa'[..|dfa|] == dfa
    requires forall s :: s in raw ==> s in raw' && raw'[s] == raw[s]
    ensures Found(dfa', raw', base, m)
  {
    hide Targeted;
    var j: nat :| FoundFrom(dfa, raw, base, j, m);
    assert dfa'[j] == dfa'[..|dfa|][j];
    assert FoundFrom(dfa', raw', base, j, m);
  }

  /** What has been explored before remains so. */
  lemma Before(src: Source, base: nat, v: Vecs, dfa: seq<nat>, raw: Graph, v': Vecs, dfa': seq<nat>, raw': Graph)
    requires Explored(src, base, v, dfa, raw) && Extends(v, v')
    requires |dfa'| == |dfa| + 1 <= |v.vecs| && dfa'[..|dfa|] == dfa
    requires forall s :: s in raw ==> s in raw' && raw'[s] == raw[s]
    ensures forall i :: 0 <= i < |dfa| ==> ExploredAt(src, base, v'.vecs, dfa', raw', i)
    ensures forall m :: 0 < m < |v.vecs| ==> Found(dfa', raw', base, m)
  {
    hide ExploredAt, Found, Indexed, Sets, RawKeys;
    forall i | 0 <= i < |dfa| ensures ExploredAt(src, base, v'.vecs, dfa', raw', i) {
      assert dfa'[i] == dfa'[..|dfa|][i];
      ExtendedAt(src, base, v, dfa, raw, i, v', dfa', raw');
    }
    forall m | 0 < m < |v.vecs| ensures Found(dfa', raw', base, m) {
      FoundMore(dfa, raw, base, m, dfa', raw');
    }
  }

  /** The next statevector gets a state of its own. */
  lemma ExploredNew(src: Source, base: nat, v: Vecs, dfa: seq<nat>, raw: Graph, v': Vecs, n: Node)
    requires Explored(src, base, v, dfa, raw) && |dfa| < |v.vecs| && Extends(v, v')
    requires Scanned(src, States(v.vecs[|dfa|]), v', |v.vecs|, n, CHARS)
    requires n.empty == (if IsEnd(src, States(v.vecs[|dfa|])) then [base] else [])
    requires |dfa| > 0 ==> NotOnlyEnd(n)
    requires !InvertedIn(src.g, States(v.vecs[|dfa|]))
    ensures Explored(src, base, v', dfa + [base + 1 + |dfa|], raw[base + 1 + |dfa| := n])
  {
    hide ExploredAt, RawFor, Indexed, Sets, InvertedIn, Scanned, Found, RawKeys, Targeted;
    var i, s := |dfa|, base + 1 + |dfa|;
    var dfa', raw' := dfa + [s], raw[s := n];
    KeysNew(dfa, raw, base, n);
    Before(src, base, v, dfa, raw, v', dfa', raw');
    assert v'.vecs[i] == v'.vecs[..|v.vecs|][i];
    ScannedRaw(src, States(v.vecs[i]), v', |v.vecs|, n, base);
    ScannedParts(src, States(v.vecs[i]), v', |v.vecs|, n);
    ExploredHere(src, base, v'.vecs, dfa', raw', i);
    forall m | 0 < m < |v'.vecs| ensures Found(dfa', raw', base, m) {
      if m >= |v.vecs| { FoundNew(dfa', raw', base, i, m); }
    }
  }

  lemma KeysNew(dfa: seq<nat>, raw: Graph, base: nat, n: Node)
    requires RawKeys(dfa, raw, base)
    ensures var s := base + 1 + |dfa|; s !in raw && RawKeys(dfa + [s], raw[s := n], base)
  {
  }

  lemma KeysEnd(dfa: seq<nat>, raw: Graph, base: nat)
    requires RawKeys(dfa, raw, base)
    ensures RawKeys(dfa + [base], raw, base)
  {
  }

  lemma FoundNew(dfa: seq<nat>, raw: Graph, base: nat, i: nat, m: nat)
    requires i < |dfa| && i < m && dfa[i] == base + 1 + i && dfa[i] in raw && Targeted(raw[dfa[i]], m)
    ensures Found(dfa, raw, base, m)
  {
    assert FoundFrom(dfa, raw, base, i, m);
  }

  lemma ScannedParts(src: Source, Q: set<nat>, v: Vecs, found: nat, n: Node)
    requires Scanned(src, Q, v, found, n, CHARS)
    ensures Indexed(v) && Sets(src, v) && forall m :: found <= m < |v.vecs| ==> Targeted(n, m)
  {
    hide Dead, LeadsTo, Sends, Indexed, Sets, Targeted;
  }

  lemma ExploredHere(src: Source, base: nat, vecs: seq<seq<nat>>, dfa: seq<nat>, raw: Graph, i: nat)
    requires i < |dfa| && i < |vecs| && dfa[i] == base + 1 + i && dfa[i] in raw
    requires RawFor(src, raw[dfa[i]], vecs, States(vecs[i]), base)
    requires i > 0 ==> NotOnlyEnd(raw[dfa[i]])
    requires !InvertedIn(src.g, States(vecs[i]))
    ensures ExploredAt(src, base, vecs, dfa, raw, i)
  {
  }

  /** The next statevector accepts only the empty word: it is represented by the end state. */
  lemma ExploredEnd(src: Source, base: nat, v: Vecs, dfa: seq<nat>, raw: Graph, v': Vecs, n: Node)
    requires Explored(src, base, v, dfa, raw) && 0 < |dfa| < |v.vecs| && Extends(v, v')
    requires Scanned(src, States(v.vecs[|dfa|]), v', |v.vecs|, n, CHARS)
    requires IsEnd(src, States(v.vecs[|dfa|])) && n.ranges == []
    requires !InvertedIn(src.g, States(v.vecs[|dfa|]))
    ensures Explored(src, base, v', dfa + [base], raw)
  {
    hide ExploredAt, Final, RawFor, InvertedIn, Indexed, Sets, Scanned, Found, RawKeys, IsEnd;
    var i := |dfa|;
    var dfa' := dfa + [base];
    KeysEnd(dfa, raw, base);
    Before(src, base, v, dfa, raw, v', dfa', raw);
    assert v'.vecs[i] == v'.vecs[..|v.vecs|][i];
    NothingNew(src, States(v.vecs[i]), v', |v.vecs|, n);
    EndHere(src, base, v'.vecs, dfa', raw, i);
  }

  lemma EndHere(src: Source, base: nat, vecs: seq<seq<nat>>, dfa: seq<nat>, raw: Graph, i: nat)
    requires 0 < i < |dfa| && i < |vecs| && dfa[i] == base && Final(src, States(vecs[i]))
    requires !InvertedIn(src.g, States(vecs[i]))
    ensures ExploredAt(src, base, vecs, dfa, raw, i)
  {
  }

  lemma NothingNew(src: Source, Q: set<nat>, v: Vecs, found: nat, n: Node)
    requires Scanned(src, Q, v, found, n, CHARS) && n.ranges == [] && IsEnd(src, Q)
    ensures Final(src, Q) && Indexed(v) && Sets(src, v) && |v.vecs| <= found
  {
    hide Dead, LeadsTo, Indexed, Sets;
    assert !Targeted(n, found);
    forall c: Char32 ensures Dead(src, Q, c) {
      assert forall q :: !Sends(n.ranges, c, q);
    }
  }

  /** All sets of states. */
  ghost function Power(S: set<nat>): set<set<nat>> {
    set Q: set<nat> | Q <= S
  }

  /** There are no more statevectors than sets of states. */
  lemma VecsBound(src: Source, v: Vecs, S: set<nat>)
    requires Indexed(v) && Sets(src, v) && S == src.S1 + src.S2
    ensures |v.vecs| <= |Power(S)|
  {
    hide EpsClosed;
    var sets := CountSets(src, v, S, |v.vecs|);
    SubsetCount(sets, Power(S));
  }

  lemma SubsetCount<T>(A: set<T>, B: set<T>)
    requires A <= B
    ensures |A| <= |B|
  {
    assert B == A + (B - A);
  }

  lemma {:induction false} CountSets(src: Source, v: Vecs, S: set<nat>, k: nat) returns (sets: set<set<nat>>)
    requires Indexed(v) && Sets(src, v) && S == src.S1 + src.S2 && k <= |v.vecs|
    ensures |sets| == k && sets <= Power(S)
    ensures forall Q :: Q in sets ==> exists i :: 0 <= i < k && States(v.vecs[i]) == Q
  {
    hide EpsClosed, Indexed;
    if k == 0 {
      sets := {};
    } else {
      var sets0 := CountSets(src, v, S, k - 1);
      var Q := States(v.vecs[k - 1]);
      if Q in sets0 {
        var i :| 0 <= i < k - 1 && States(v.vecs[i]) == Q;
        SameVec(v, i, k - 1);
      }
      sets := sets0 + {Q};
    }
  }

  /** Different statevectors are different sets. */
  lemma SameVec(v: Vecs, i: nat, j: nat)
    requires Indexed(v) && i < |v.vecs| && j < |v.vecs| && States(v.vecs[i]) == States(v.vecs[j])
    ensures i == j
  {
    forall x ensures x in v.vecs[i] <==> x in v.vecs[j] {
      assert x in v.vecs[i] <==> x in States(v.vecs[i]);
      assert x in v.vecs[j] <==> x in States(v.vecs[j]);
    }
    AscendingUnique(v.vecs[i], v.vecs[j]);
  }

  /** The end flags tell whether the set contains the end states it needs. */
  lemma EndFlags(src: Source, nrdfa: map<nat, nat>, nrend: map<nat, bv8>, vec: seq<nat>, flags: bv8)
    requires Flagged(src, nrdfa, nrend) && Proper(src) && States(vec) <= src.S1 + src.S2
    requires FlagsOf(flags, nrend, vec)
    ensures IsEndState(src.op, flags) <==> IsEnd(src, States(vec))
  {
    forall p | p in vec ensures p in src.S1 || p in src.S2 { assert p in States(vec); }
    forall p ensures p in vec <==> p in States(vec) {}
    assert flags & 255 == flags;
  }

  lemma ProcessStart(src: Source, nrdfa: map<nat, nat>, nrend: map<nat, bv8>, v: Vecs, i: nat)
    requires Proper(src) && Flagged(src, nrdfa, nrend) && Sets(src, v) && i < |v.vecs|
    ensures States(v.vecs[i]) <= src.S1 + src.S2 && EpsClosed(src.g, States(v.vecs[i]))
    ensures forall p :: p in v.vecs[i] ==> p in src.S1 + src.S2 && p in src.g && p in nrend
  {
    forall p | p in v.vecs[i] ensures p in src.S1 + src.S2 && p in src.g && p in nrend {
      assert p in States(v.vecs[i]);
    }
  }

  lemma ReadyToScan(src: Source, nrdfa: map<nat, nat>, nrend: map<nat, bv8>, Q: set<nat>, rmap: RangeMap)
    requires Proper(src) && Flagged(src, nrdfa, nrend) && Q <= src.S1 + src.S2 && EpsClosed(src.g, Q)
    requires rmap.Valid() && Mapped(src.g, Q, rmap.Entries(), rmap.Sets())
    ensures Scannable(src, nrdfa, nrend, Q, rmap.Entries(), rmap.Sets())
    ensures Unread(rmap.Entries(), rmap.objs, rmap.Sets(), 0) && rmap.Shape()
  {
    hide Mapped, Proper, Flagged, EpsClosed, MultiState.Valid, MultiState.Contents;
  }

  /** Processes one statevector. */
  method Process(ghost src: Source, g: Graph, op: Op, nrdfa: map<nat, nat>, nrend: map<nat, bv8>, v0: Vecs, i: nat,
                 base: nat)
    returns (err: Err, v: Vecs, n: Node)
    requires src.g == g && src.op == op && Proper(src) && Flagged(src, nrdfa, nrend)
    requires Indexed(v0) && Sets(src, v0) && i < |v0.vecs|
    ensures err == OK ==> Scanned(src, States(v0.vecs[i]), v, |v0.vecs|, n, CHARS) && Extends(v0, v)
    ensures err == OK ==> n.empty == (if IsEnd(src, States(v0.vecs[i])) then [base] else [])
    ensures err == EINVAL <==> InvertedIn(src.g, States(v0.vecs[i]))
  {
    hide Proper, Flagged, Indexed, Sets, Mapped, Scanned, FlagsOf, HasInverted, EpsClosed, Scannable, Unread,
      RangeMap.Valid, RangeMap.Shape, RangeMap.Entries, RangeMap.Sets;
    ghost var Q := States(v0.vecs[i]);
    ProcessStart(src, nrdfa, nrend, v0, i);
    assert forall p :: p in Q <==> p in v0.vecs[i];
    var rmap, flags;
    err, rmap, flags := BuildRangeMap(g, nrend, v0.vecs[i]);
    v, n := v0, Node([], [], []);
    if err != OK {
      return;
    }
    EndFlags(src, nrdfa, nrend, v0.vecs[i], flags);
    if IsEndState(op, flags) {
      n := Node([base], [], []);
    }
    ReadyToScan(src, nrdfa, nrend, Q, rmap);
    var es := rmap.ToSeq();
    v, n := Scan(src, g, op, nrdfa, nrend, Q, es, rmap.objs, rmap.Sets(), v0, n);
  }
}
