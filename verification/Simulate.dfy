/** matchchar32_automat: how much of a string an automaton matches. */
module Simulate {
  import opened Graphs
  import opened Languages
  import opened Thompson
  import opened Subset
  import opened Residuals
  import opened Closures
  import opened StateArrays
  import opened Automata

  /** len is the length of the longest, or of the shortest, prefix of str in L, and 0 if there is none. */
  ghost predicate Matched(L: Lang, str: Word, matchLongest: bool, len: nat) {
    && len <= |str|
    && (len > 0 ==> str[..len] in L)
    && (matchLongest ==> forall k :: len < k <= |str| ==> str[..k] !in L)
    && (!matchLongest ==> forall k :: 0 <= k < len ==> str[..k] !in L)
    && (!matchLongest && len == 0 ==> [] in L || forall k :: 0 < k <= |str| ==> str[..k] !in L)
  }

  lemma MatchedOnce(L: Lang, str: Word, matchLongest: bool, len1: nat, len2: nat)
    requires Matched(L, str, matchLongest, len1) && Matched(L, str, matchLongest, len2)
    ensures len1 == len2
  {
    assert str[..0] == [];
  }

  /** The states in B know what the automaton may still accept after the first k characters. */
  ghost predicate Tracks(g: Graph, start: nat, end: nat, str: Word, k: nat, B: set<nat>) {
    k <= |str| && forall v: Word :: SetReads(g, B, v, end) <==> Reads(g, start, str[..k] + v, end)
  }

  lemma TracksStart(g: Graph, start: nat, end: nat, str: Word)
    ensures Tracks(g, start, end, str, 0, {start})
  {
    hide Reads;
    forall v: Word ensures SetReads(g, {start}, v, end) <==> Reads(g, start, str[..0] + v, end) {
      assert str[..0] + v == v;
      assert Reads(g, start, v, end) ==> start in {start};
    }
  }

  lemma TracksClosure(g: Graph, start: nat, end: nat, str: Word, k: nat, B: set<nat>, C: set<nat>)
    requires Tracks(g, start, end, str, k, B) && IsClosure(g, B, C)
    ensures Tracks(g, start, end, str, k, C)
    ensures end in C <==> Reads(g, start, str[..k], end)
  {
    hide Reads, IsClosure, SetReads;
    forall v: Word ensures SetReads(g, C, v, end) <==> SetReads(g, B, v, end) {
      ClosureReads(g, B, C, v, end);
    }
    ClosureClosed(g, B, C);
    ClosedNothing(g, C, end);
    assert str[..k] + [] == str[..k];
  }

  lemma ClosureClosed(g: Graph, B: set<nat>, C: set<nat>)
    requires IsClosure(g, B, C)
    ensures EpsClosed(g, C)
  {
  }

  lemma TracksStep(g: Graph, start: nat, end: nat, str: Word, k: nat, C: set<nat>, T: set<nat>)
    requires Tracks(g, start, end, str, k, C) && EpsClosed(g, C) && k < |str| && IsStep(g, C, str[k], T)
    ensures Tracks(g, start, end, str, k + 1, T)
  {
    hide Reads, EpsClosed, IsStep, SetReads;
    forall v: Word ensures SetReads(g, T, v, end) <==> Reads(g, start, str[..k + 1] + v, end) {
      var w := [str[k]] + v;
      assert w[1..] == v && w[0] == str[k];
      StepReads(g, C, T, w, end);
      assert str[..k] + w == str[..k + 1] + v;
    }
  }

  /** Once no state is left, no longer prefix matches. */
  lemma TracksNothing(g: Graph, start: nat, end: nat, str: Word, k: nat, j: nat)
    requires Tracks(g, start, end, str, k, {}) && k <= j <= |str|
    ensures !Reads(g, start, str[..j], end)
  {
    hide Reads;
    var v := str[k..j];
    assert str[..k] + v == str[..j];
    assert !SetReads(g, {}, v, end);
  }

  /** What is known when the prefixes shorter than k have been looked at. */
  ghost predicate Looked(L: Lang, str: Word, matchLongest: bool, k: nat, len: nat) {
    && len <= |str| && k <= |str| + 1 && (len < k || len == 0)
    && (len > 0 ==> str[..len] in L)
    && (forall j :: 0 <= j < k && (j > len || !matchLongest) ==> str[..j] !in L)
  }

  lemma LookedDone(L: Lang, str: Word, matchLongest: bool, k: nat, len: nat)
    requires Looked(L, str, matchLongest, k, len)
    requires forall j :: k <= j <= |str| ==> str[..j] !in L
    requires !matchLongest ==> len == 0
    ensures Matched(L, str, matchLongest, len)
  {
  }

  /** The prefix of length k matches. */
  lemma LookedMatch(L: Lang, str: Word, matchLongest: bool, k: nat, len: nat)
    requires Looked(L, str, matchLongest, k, len) && k <= |str| && str[..k] in L
    ensures matchLongest ==> Looked(L, str, matchLongest, k + 1, k)
    ensures !matchLongest ==> Matched(L, str, matchLongest, k)
  {
    assert str[..0] == [];
  }

  lemma InLang(g: Graph, st: seq<nat>, str: Word, k: nat)
    requires st != [] && k <= |str|
    ensures str[..k] in LangOf(g, st) <==> Reads(g, Start(st), str[..k], End(st))
  {
  }

  // ---- the simulation of any automaton

  /** Extends the list of states with the targets of empty transitions while iterating over it. */
  method CloseList(g: Graph, list: StateArray, used0: set<nat>, ghost S: set<nat>) returns (used: set<nat>)
    requires Closed(g, S) && used0 == States(list.adds) && used0 <= S
    modifies list`adds
    ensures used == States(list.adds) && IsClosure(g, used0, used) && used <= S
  {
    hide Closed, IsClosure, Following;
    used := used0;
    var i := 0;
    assert list.adds[0..] == list.adds;
    NothingFollowed(g, S, used);
    while i < |list.adds|
      invariant i <= |list.adds| && used == States(list.adds) && used0 <= used <= S
      invariant Following(g, S, used0, used, States(list.adds[i..]))
      decreases |S - used|, |list.adds| - i
    {
      var next := list.adds[i];
      ghost var C := used;
      assert list.adds[i..] == [next] + list.adds[i + 1..];
      StatesAdd(list.adds[i + 1..], next);
      assert next in States(list.adds);
      used := CloseState(g, next, i + 1, list, used, S, used0);
      Grows(g, S, used0, C, used, States(list.adds[i + 1..]));
      FollowingWithin(g, S, used0, used, States(list.adds[i + 1..]));
      i := i + 1;
    }
    assert list.adds[i..] == [];
    assert States([]) == {};
    FollowedAll(g, S, used0, used);
  }

  lemma NothingFollowed(g: Graph, S: set<nat>, Q: set<nat>)
    requires Closed(g, S) && Q <= S
    ensures Following(g, S, Q, Q, Q)
  {
    assert forall p :: p in Q ==> p in g;
    FollowNothing(g, S, Q, Q);
  }

  lemma FollowingWithin(g: Graph, S: set<nat>, Q: set<nat>, C: set<nat>, todo: set<nat>)
    requires Following(g, S, Q, C, todo)
    ensures Q <= C <= S
  {
    hide SetReads;
  }

  /** Follows the empty transitions of one state. */
  method CloseState(g: Graph, x: nat, from: nat, list: StateArray, used0: set<nat>, ghost S: set<nat>,
                    ghost Q: set<nat>)
    returns (used: set<nat>)
    requires x in used0 && used0 == States(list.adds) && from <= |list.adds|
    requires Following(g, S, Q, used0, States(list.adds[from..]) + {x})
    modifies list`adds
    ensures used == States(list.adds) && used0 <= used && from <= |list.adds|
    ensures Following(g, S, Q, used, States(list.adds[from..]))
    ensures used == used0 ==> list.adds == old(list.adds)
  {
    hide Following, Followed, FollowedSome;
    used := used0;
    StateIn(g, S, Q, used, States(list.adds[from..]) + {x}, x);
    FollowedNone(g, used, x);
    for i := 0 to |g[x].empty|
      invariant used == States(list.adds) && used0 <= used && from <= |list.adds|
      invariant FollowedSome(g, used, x, i)
      invariant Following(g, S, Q, used, States(list.adds[from..]) + {x})
      invariant used == used0 ==> list.adds == old(list.adds)
    {
      var y := g[x].empty[i];
      ghost var C, todo := used, States(list.adds[from..]) + {x};
      if y !in used {
        StatesAdd(list.adds, y);
        StatesAdd(list.adds[from..], y);
        assert (list.adds + [y])[from..] == list.adds[from..] + [y];
        used := used + {y};
        list.Insert1(y);
      }
      assert used == C + {y};
      FollowedMore(g, C, x, i, used);
      FollowOne(g, S, Q, C, todo, x, y, if y !in C && g[y].empty != [] then todo + {y} else todo);
      FollowingMore(g, S, Q, used, if y !in C && g[y].empty != [] then todo + {y} else todo,
                    States(list.adds[from..]) + {x});
    }
    FollowedWhole(g, used, x);
    FollowRest(g, S, Q, used, States(list.adds[from..]), x);
  }

  lemma FollowingMore(g: Graph, S: set<nat>, Q: set<nat>, C: set<nat>, todo: set<nat>, todo': set<nat>)
    requires Following(g, S, Q, C, todo) && todo <= todo' <= C
    ensures Following(g, S, Q, C, todo')
  {
    hide SetReads;
  }

  /** Clears the insert flags of all states of the list. */
  method ClearFlags(list: StateArray, used0: set<nat>) returns (used: set<nat>)
    requires used0 == States(list.adds)
    ensures used == {}
  {
    used := used0;
    for i := 0 to |list.adds|
      invariant forall p :: p in used ==> p in list.adds[i..]
    {
      used := used - {list.adds[i]};
    }
    assert list.adds[|list.adds|..] == [];
  }

  /** The targets on c of the states that have been removed from the list. */
  ghost predicate Stepping(g: Graph, C: set<nat>, c: Char32, rest: seq<nat>, T: set<nat>) {
    && (forall q :: q in T ==> exists p :: p in C && Chr(g, p, c, q))
    && (forall p, q :: p in C && Chr(g, p, c, q) ==> p in rest || q in T)
  }

  /** The transitions of one state, as far as they match the character. */
  method StepState(g: Graph, x: nat, c: Char32, list: StateArray, used0: set<nat>) returns (used: set<nat>)
    requires x in g && used0 == States(list.adds)
    modifies list`adds
    ensures used == States(list.adds)
    ensures forall q :: q in used <==> q in used0 || Chr(g, x, c, q)
  {
    used := used0;
    var ts := g[x].ranges;
    for i := 0 to |ts|
      invariant used == States(list.adds)
      invariant forall q :: q in used <==> q in used0 || Sends(ts[..i], c, q)
    {
      ghost var before := used;
      var t := ts[i];
      StatesAdd(list.adds, t.target);
      if t.target !in used && t.from <= c <= t.to {
        used := used + {t.target};
        list.Insert1(t.target);
      }
      SendsMore(ts, i, c);
    }
    assert ts[..|ts|] == ts;
  }

  lemma SendsMore(ts: seq<Trans>, i: nat, c: Char32)
    requires i < |ts|
    ensures forall q :: Sends(ts[..i + 1], c, q) <==> Sends(ts[..i], c, q) || (Hit(ts[i], c) && ts[i].target == q)
  {
    assert ts[..i + 1] == ts[..i] + [ts[i]];
    forall q ensures Sends(ts[..i + 1], c, q) <==> Sends(ts[..i], c, q) || (Hit(ts[i], c) && ts[i].target == q) {
      if t :| t in ts[..i] && Hit(t, c) && t.target == q { assert t in ts[..i + 1]; }
      assert ts[i] in ts[..i + 1];
    }
  }

  /** Everything that one character leads to from the states of the second list, and from x. */
  method StepList(g: Graph, x0: nat, c: Char32, list: StateArray, ghost C: set<nat>) returns (used: set<nat>)
    requires list.adds == [] && C == States([x0] + list.dels) && C <= g.Keys
    modifies list
    ensures used == States(list.adds) && IsStep(g, C, c, used)
  {
    hide States;
    StatesNone();
    SteppingStart(g, C, c, [x0] + list.dels);
    var ok, x := true, x0;
    used := {};
    while ok
      invariant used == States(list.adds)
      invariant Stepping(g, C, c, if ok then [x] + list.dels else [], used)
      invariant ok ==> States([x] + list.dels) <= C
      invariant !ok ==> list.dels == []
      decreases ok, |list.dels|
    {
      StatesHead(x, list.dels);
      ghost var T, rest := used, list.dels;
      used := StepState(g, x, c, list, used);
      SteppedOne(g, C, c, x, rest, T, used);
      ok, x := list.Remove2();
      assert (if ok then [x] + list.dels else []) == rest;
    }
  }

  lemma StatesNone()
    ensures States([]) == {}
  {
  }

  lemma StatesHead(x: nat, rest: seq<nat>)
    ensures x in States([x] + rest) && States(rest) <= States([x] + rest)
  {
    StatesAdd(rest, x);
  }

  lemma SteppingStart(g: Graph, C: set<nat>, c: Char32, rest: seq<nat>)
    requires C == States(rest)
    ensures Stepping(g, C, c, rest, {})
  {
  }

  lemma SteppedOne(g: Graph, C: set<nat>, c: Char32, x: nat, rest: seq<nat>, T: set<nat>, T': set<nat>)
    requires Stepping(g, C, c, [x] + rest, T) && x in C && forall q :: q in T' <==> q in T || Chr(g, x, c, q)
    ensures Stepping(g, C, c, rest, T')
  {
    forall p, q | p in C && Chr(g, p, c, q) ensures p in rest || q in T' {
      assert p in [x] + rest || q in T;
    }
  }

  /** The simulation of an automaton of any kind. */
  method MatchNfa(g: Graph, st: seq<nat>, str: Word, matchLongest: bool) returns (matchedlen: nat)
    requires WellFormed(g, st)
    ensures Matched(LangOf(g, st), str, matchLongest, matchedlen)
  {
    hide WellFormed, Tracks, LangOf, Matched, Looked, IsClosure, IsStep, EpsClosed, Reads, States, Closed;
    StartIn(g, st);
    ghost var S, L := States(st), LangOf(g, st);
    var start, end := st[0], st[|st| - 1];
    var stroffset := 0;
    matchedlen := 0;
    var list := new StateArray();
    list.Insert1(start);
    var used := {start};
    OneState(start);
    TracksStart(g, start, end, str);
    LookedStart(L, str, matchLongest);
    while true
      invariant used == States(list.adds) && used <= S && fresh(list)
      invariant stroffset <= |str| && Tracks(g, start, end, str, stroffset, used)
      invariant Looked(L, str, matchLongest, stroffset, matchedlen) && (!matchLongest ==> matchedlen == 0)
      decreases |str| - stroffset
    {
      ghost var B := used;
      used := CloseList(g, list, used, S);
      ghost var C := used;
      TracksClosure(g, start, end, str, stroffset, B, C);
      InLang(g, st, str, stroffset);
      var isEnd := end in used;
      used := ClearFlags(list, used);
      if isEnd {
        LookedMatch(L, str, matchLongest, stroffset, matchedlen);
        matchedlen := stroffset;
        if !matchLongest {
          return;
        }
      } else {
        LookedOn(L, str, matchLongest, stroffset, matchedlen);
      }
      if stroffset >= |str| {
        LookedDone(L, str, matchLongest, stroffset + 1, matchedlen);
        return;
      }
      list.Swap1and2();
      ghost var dels := list.dels;
      var ok, next := list.Remove2();
      if !ok {
        StatesNone();
        NothingLeft(g, st, str, stroffset, L);
        LookedDone(L, str, matchLongest, stroffset + 1, matchedlen);
        return;
      }
      StatesWithin(g, S, C);
      used := StepList(g, next, str[stroffset], list, C);
      ClosureClosed(g, B, C);
      TracksStep(g, start, end, str, stroffset, C, used);
      StepInside(g, S, C, str[stroffset], used);
      stroffset := stroffset + 1;
    }
  }

  lemma StartIn(g: Graph, st: seq<nat>)
    requires WellFormed(g, st)
    ensures |st| >= 2 && st[0] in States(st) && Closed(g, States(st))
  {
  }

  lemma OneState(p: nat)
    ensures States([p]) == {p} && States([] + [p]) == {p}
  {
    assert [] + [p] == [p];
  }

  lemma LookedStart(L: Lang, str: Word, matchLongest: bool)
    ensures Looked(L, str, matchLongest, 0, 0)
  {
  }

  lemma LookedOn(L: Lang, str: Word, matchLongest: bool, k: nat, len: nat)
    requires Looked(L, str, matchLongest, k, len) && k <= |str| && str[..k] !in L
    ensures Looked(L, str, matchLongest, k + 1, len)
  {
  }

  lemma NothingLeft(g: Graph, st: seq<nat>, str: Word, k: nat, L: Lang)
    requires st != [] && Tracks(g, Start(st), End(st), str, k, {}) && L == LangOf(g, st)
    ensures forall j :: k <= j <= |str| ==> str[..j] !in L
  {
    hide Tracks, Reads;
    forall j | k <= j <= |str| ensures str[..j] !in L {
      TracksNothing(g, Start(st), End(st), str, k, j);
    }
  }

  lemma StatesWithin(g: Graph, S: set<nat>, C: set<nat>)
    requires Closed(g, S) && C <= S
    ensures C <= g.Keys
  {
  }

  lemma StepInside(g: Graph, S: set<nat>, C: set<nat>, c: Char32, T: set<nat>)
    requires Closed(g, S) && C <= S && IsStep(g, C, c, T)
    ensures T <= S
  {
    forall q | q in T ensures q in S {
      var p :| p in C && Chr(g, p, c, q);
      var t :| t in g[p].ranges && Hit(t, c) && t.target == q;
    }
  }

  // ---- the simulation of a deterministic automaton

  /** Binary search in one range_transition_t, which holds the transitions from off to off + size. */
  method SearchChunk(ts: seq<Trans>, off: nat, size: nat, c: Char32) returns (found: bool, i: nat)
    requires RangesSorted(ts) && size > 0 && off + size <= |ts|
    ensures found ==> i < |ts| && Hit(ts[i], c)
    ensures !found ==> forall j :: off <= j < off + size ==> !Hit(ts[j], c)
  {
    var high, low := size, 0;
    found, i := false, 0;
    while true
      invariant 0 <= low < high <= size
      invariant forall j :: off <= j < off + low ==> ts[j].to < c
      invariant forall j :: off + high <= j < off + size ==> c < ts[j].from
      decreases high - low
    {
      var mid := (high + low) / 2;
      if c < ts[off + mid].from {
        assert forall j :: off + mid <= j < off + size ==> c < ts[j].from;
        high := mid;
      } else if c > ts[off + mid].to {
        assert forall j :: off <= j <= off + mid ==> ts[j].to < c;
        low := mid + 1;
      } else {
        return true, off + mid;
      }
      if low >= high {
        return;
      }
    }
  }

  /** The transition of the state on c. Whole range_transition_t are skipped if they end below c. */
  method FindRange(n: Node, c: Char32) returns (found: bool, i: nat)
    requires RangesSorted(n.ranges) && Chunked(n)
    ensures found ==> i < |n.ranges| && Hit(n.ranges[i], c)
    ensures !found ==> forall j :: 0 <= j < |n.ranges| ==> !Hit(n.ranges[j], c)
  {
    var ts, off: nat := n.ranges, 0;
    found, i := false, 0;
    assert n.chunks[0..] == n.chunks;
    for k := 0 to |n.chunks|
      invariant off + Sum(n.chunks[k..]) == |ts|
      invariant forall j :: 0 <= j < off ==> ts[j].to < c
    {
      var size := n.chunks[k];
      assert n.chunks[k..][0] == size && n.chunks[k..][1..] == n.chunks[k + 1..];
      assert size > 0 && Sum(n.chunks[k..]) == size + Sum(n.chunks[k + 1..]);
      if c <= ts[off + size - 1].to {
        found, i := SearchChunk(ts, off, size, c);
        assert forall j :: off + size <= j < |ts| ==> ts[off + size - 1].to < ts[j].from;
        return;
      }
      assert forall j :: off <= j < off + size - 1 ==> ts[j].to < ts[off + size - 1].from;
      off := off + size;
    }
    assert n.chunks[|n.chunks|..] == [];
  }

  /** The step of a deterministic automaton from its only state. */
  lemma DfaStep(g: Graph, st: seq<nat>, p: nat, c: Char32, found: bool, i: nat)
    requires Deterministic(g, st) && p in st && p in g
    requires found ==> i < |g[p].ranges| && Hit(g[p].ranges[i], c)
    requires !found ==> forall j :: 0 <= j < |g[p].ranges| ==> !Hit(g[p].ranges[j], c)
    ensures IsStep(g, {p}, c, if found then {g[p].ranges[i].target} else {})
    ensures found ==> g[p].ranges[i].target in st
  {
    hide WellFormed, Chunked;
    var ts := g[p].ranges;
    var T := if found then {ts[i].target} else {};
    assert RangesSorted(ts) by { assert p == End(st) || DfaNode(g, p, End(st)); }
    forall q ensures q in T <==> Chr(g, p, c, q) {
      if found && q == ts[i].target { assert ts[i] in ts; }
      if Chr(g, p, c, q) {
        var t :| t in ts && Hit(t, c) && t.target == q;
        var j :| 0 <= j < |ts| && ts[j] == t;
      }
    }
    if found {
      assert ts[i] in ts;
      TargetIn(g, st, p, ts[i]);
    }
  }

  lemma TargetIn(g: Graph, st: seq<nat>, p: nat, t: Trans)
    requires Deterministic(g, st) && p in st && p in g && t in g[p].ranges
    ensures t.target in st
  {
    EdgesStay(g, st, p);
  }

  /** A state of a deterministic automaton stands for its closure: only the end state is missing. */
  lemma DfaTracksStep(g: Graph, st: seq<nat>, str: Word, k: nat, p: nat, T: set<nat>)
    requires Deterministic(g, st) && p in st && k < |str| && IsStep(g, {p}, str[k], T)
    requires Tracks(g, Start(st), End(st), str, k, {p})
    ensures Tracks(g, Start(st), End(st), str, k + 1, T)
  {
    hide WellFormed, Chunked, Reads, IsStep, RangesSorted, SetReads;
    var e := End(st);
    forall v: Word ensures SetReads(g, T, v, e) <==> Reads(g, Start(st), str[..k + 1] + v, e) {
      var w := [str[k]] + v;
      assert w[1..] == v && w[0] == str[k];
      DfaReads(g, st, p, w, T);
      assert str[..k] + w == str[..k + 1] + v;
    }
  }

  lemma DfaReads(g: Graph, st: seq<nat>, p: nat, w: Word, T: set<nat>)
    requires Deterministic(g, st) && p in st && w != [] && IsStep(g, {p}, w[0], T)
    ensures SetReads(g, {p}, w, End(st)) <==> SetReads(g, T, w[1..], End(st))
  {
    var e := End(st);
    if SetReads(g, {p}, w, e) {
      var n: nat :| Go(g, p, w, e, n);
      var q := FirstChar(g, st, p, w, n);
      assert Chr(g, p, w[0], q) && q in T && Reads(g, q, w[1..], e);
    }
    if SetReads(g, T, w[1..], e) {
      var q :| q in T && Reads(g, q, w[1..], e);
      ChrThenReads(g, p, q, w, e);
    }
  }

  /** A state of a deterministic automaton accepts if it has an empty transition. */
  lemma DfaAccepts(g: Graph, st: seq<nat>, str: Word, k: nat, p: nat)
    requires Deterministic(g, st) && p in st && Tracks(g, Start(st), End(st), str, k, {p})
    ensures p in g && (g[p].empty != [] <==> str[..k] in LangOf(g, st))
  {
    hide WellFormed, Chunked, RangesSorted, Reads;
    var e := End(st);
    assert p == e || DfaNode(g, p, e);
    assert str[..k] + [] == str[..k];
    assert SetReads(g, {p}, [], e) <==> Reads(g, p, [], e);
    if g[p].empty != [] {
      ReadsEps(g, p, e);
    } else {
      NoEnd(g, p, e);
    }
  }

  lemma NoEnd(g: Graph, p: nat, e: nat)
    requires p in g && p != e && g[p].empty == []
    ensures !Reads(g, p, [], e)
  {
    forall n: nat ensures !Go(g, p, [], e, n) {
    }
  }

  /** matchchar32_dfa_automat */
  method MatchDfa(g: Graph, st: seq<nat>, str: Word, matchLongest: bool) returns (matchedlen: nat)
    requires Deterministic(g, st)
    ensures st != [] && Matched(LangOf(g, st), str, matchLongest, matchedlen)
  {
    hide Deterministic, Tracks, LangOf, Matched, Looked, IsStep, Reads;
    DfaStart(g, st);
    ghost var L := LangOf(g, st);
    var start, end := st[0], st[|st| - 1];
    var stroffset := 0;
    matchedlen := 0;
    var list := new StateArray();
    list.Insert1(start);
    var isEnd := |g[start].empty| != 0;
    TracksStart(g, start, end, str);
    LookedStart(L, str, matchLongest);
    DfaAccepts(g, st, str, 0, start);
    while true
      invariant fresh(list) && |list.adds| <= 1 && (list.adds != [] ==> list.adds[0] in st)
      invariant stroffset <= |str|
      invariant Tracks(g, start, end, str, stroffset, if list.adds == [] then {} else {list.adds[0]})
      invariant isEnd <==> str[..stroffset] in L
      invariant Looked(L, str, matchLongest, stroffset, matchedlen) && (!matchLongest ==> matchedlen == 0)
      decreases |str| - stroffset
    {
      if isEnd {
        LookedMatch(L, str, matchLongest, stroffset, matchedlen);
        matchedlen := stroffset;
        if !matchLongest {
          return;
        }
      } else {
        LookedOn(L, str, matchLongest, stroffset, matchedlen);
      }
      if stroffset >= |str| {
        LookedDone(L, str, matchLongest, stroffset + 1, matchedlen);
        return;
      }
      list.Swap1and2();
      ghost var dels := list.dels;
      var ok, next := list.Remove2();
      if !ok {
        NothingLeft(g, st, str, stroffset, L);
        LookedDone(L, str, matchLongest, stroffset + 1, matchedlen);
        return;
      }
      assert dels == [next] && list.dels == [];
      isEnd := StepDfa(g, st, next, str, stroffset, list, L);
      stroffset := stroffset + 1;
    }
  }

  lemma DfaStart(g: Graph, st: seq<nat>)
    requires Deterministic(g, st)
    ensures |st| >= 2 && st[0] in st && st[0] in g
  {
    assert st[0] == End(st) || DfaNode(g, st[0], End(st));
  }

  /** The loop over the removed states, of which there is one. */
  method StepDfa(g: Graph, st: seq<nat>, next0: nat, str: Word, stroffset: nat, list: StateArray, ghost L: Lang)
    returns (isEnd: bool)
    requires Deterministic(g, st) && st != [] && next0 in st && list.adds == []
    requires list.dels == [] && stroffset < |str| && L == LangOf(g, st)
    requires Tracks(g, Start(st), End(st), str, stroffset, {next0})
    modifies list
    ensures |list.adds| <= 1 && (list.adds != [] ==> list.adds[0] in st)
    ensures Tracks(g, Start(st), End(st), str, stroffset + 1, if list.adds == [] then {} else {list.adds[0]})
    ensures isEnd <==> str[..stroffset + 1] in L
  {
    hide Deterministic, Tracks, LangOf, IsStep, RangesSorted, Chunked;
    DfaNodeAt(g, st, next0);
    isEnd := false;
    var found, i := FindRange(g[next0], str[stroffset]);
    DfaStep(g, st, next0, str[stroffset], found, i);
    DfaTracksStep(g, st, str, stroffset, next0, if found then {g[next0].ranges[i].target} else {});
    if found {
      var target := g[next0].ranges[i].target;
      DfaAccepts(g, st, str, stroffset + 1, target);
      isEnd := |g[target].empty| != 0;
      list.Insert1(target);
    } else {
      NothingLeft(g, st, str, stroffset + 1, L);
    }
    var ok, next := list.Remove2();
  }

  lemma DfaNodeAt(g: Graph, st: seq<nat>, p: nat)
    requires Deterministic(g, st) && p in st
    ensures p in g && RangesSorted(g[p].ranges) && Chunked(g[p])
  {
    assert p == End(st) || DfaNode(g, p, End(st));
  }

  /** matchchar32_automat */
  method MatchChar32(h: Heap, ndfa: Automaton, str: Word, matchLongest: bool) returns (matchedlen: nat)
    requires ndfa.IsFree() || ndfa.Valid(h)
    requires !ndfa.IsFree() && ndfa.isDFA ==> Deterministic(h.node, ndfa.states)
    ensures ndfa.IsFree() ==> matchedlen == 0
    ensures !ndfa.IsFree() ==> Matched(ndfa.Lang(h), str, matchLongest, matchedlen)
  {
    if ndfa.mman == 0 {
      return 0;
    }
    if ndfa.isDFA {
      matchedlen := MatchDfa(h.node, ndfa.states, str, matchLongest);
    } else {
      matchedlen := MatchNfa(h.node, ndfa.states, str, matchLongest);
    }
  }
}
