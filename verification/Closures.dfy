/** follow_empty_transition: completes a set of states with what empty transitions lead to. */
module Closures {
  import opened Graphs
  import opened Thompson
  import opened Subset
  import opened MultiStates
  import opened StateArrays

  /** The empty transitions of p lead to members of C. */
  ghost predicate Followed(g: Graph, C: set<nat>, p: nat) {
    p in g && forall q :: q in g[p].empty ==> q in C
  }

  /** C lies between Q and its closure; what is not followed yet is in `todo`. */
  ghost predicate Following(g: Graph, S: set<nat>, Q: set<nat>, C: set<nat>, todo: set<nat>) {
    var T := todo;
    && Closed(g, S) && Q <= C <= S && T <= C
    && (forall q :: q in C ==> SetReads(g, Q, [], q))
    && (forall p :: p in C && p !in T ==> Followed(g, C, p))
  }

  lemma StatesAdd(s: seq<nat>, x: nat)
    ensures States(s + [x]) == States(s) + {x} && States([x] + s) == States(s) + {x}
  {
    assert forall p :: p in s + [x] <==> p in s || p == x;
    assert forall p :: p in [x] + s <==> p in s || p == x;
  }

  lemma FollowNothing(g: Graph, S: set<nat>, Q: set<nat>, todo: set<nat>)
    requires Closed(g, S) && Q <= S && todo <= Q && forall p :: p in Q && g[p].empty != [] ==> p in todo
    ensures Following(g, S, Q, Q, todo)
  {
    forall q | q in Q ensures SetReads(g, Q, [], q) {
      ReadsNothing(g, q);
    }
  }

  lemma FollowedAll(g: Graph, S: set<nat>, Q: set<nat>, C: set<nat>)
    requires Following(g, S, Q, C, {})
    ensures IsClosure(g, Q, C)
  {
    hide SetReads;
    forall p, q | p in C && Eps(g, p, q) ensures q in C {
      assert Followed(g, C, p);
    }
  }

  lemma ReachOne(g: Graph, Q: set<nat>, x: nat, y: nat)
    requires SetReads(g, Q, [], x) && Eps(g, x, y)
    ensures SetReads(g, Q, [], y)
  {
    var p :| p in Q && Reads(g, p, [], x);
    hide Reads;
    ReadsEps(g, x, y);
    ReadsConcat(g, p, [], x, [], y);
    var nothing: Word := [];
    assert nothing + nothing == nothing;
  }

  /** One empty transition x -> y is followed. */
  lemma FollowOne(g: Graph, S: set<nat>, Q: set<nat>, C: set<nat>, todo: set<nat>, x: nat, y: nat, todo': set<nat>)
    requires Following(g, S, Q, C, todo) && x in C && x in g && y in g && y in g[x].empty
    requires todo' == if y !in C && g[y].empty != [] then todo + {y} else todo
    ensures Following(g, S, Q, C + {y}, todo')
  {
    hide SetReads;
    ReachOne(g, Q, x, y);
    forall q | q in C + {y} && q !in todo' ensures Followed(g, C + {y}, q) {
      if q in C { assert q in todo || Followed(g, C, q); }
    }
  }

  lemma FollowRest(g: Graph, S: set<nat>, Q: set<nat>, C: set<nat>, todo: set<nat>, x: nat)
    requires Following(g, S, Q, C, todo + {x}) && Followed(g, C, x)
    ensures Following(g, S, Q, C, todo)
  {
    hide SetReads, Followed;
  }

  lemma StateIn(g: Graph, S: set<nat>, Q: set<nat>, C: set<nat>, todo: set<nat>, x: nat)
    requires Following(g, S, Q, C, todo) && x in C
    ensures x in g && forall y :: y in g[x].empty ==> y in g
  {
    hide SetReads;
    assert x in S;
    forall y | y in g[x].empty ensures y in g { assert y in S; }
  }

  /** The first i empty transitions of p lead to members of C. */
  ghost predicate FollowedSome(g: Graph, C: set<nat>, p: nat, i: nat) {
    p in g && i <= |g[p].empty| && forall j :: 0 <= j < i ==> g[p].empty[j] in C
  }

  lemma FollowedNone(g: Graph, C: set<nat>, p: nat)
    requires p in g
    ensures FollowedSome(g, C, p, 0)
  {
  }

  lemma FollowedMore(g: Graph, C: set<nat>, p: nat, i: nat, C': set<nat>)
    requires FollowedSome(g, C, p, i) && i < |g[p].empty| && C' == C + {g[p].empty[i]}
    ensures FollowedSome(g, C', p, i + 1)
  {
  }

  lemma FollowedWhole(g: Graph, C: set<nat>, p: nat)
    requires p in g && FollowedSome(g, C, p, |g[p].empty|)
    ensures Followed(g, C, p)
  {
  }

  /** Follows the empty transitions of the state x. */
  method FollowState(g: Graph, ms: MultiState, x: nat, list: StateArray, ghost S: set<nat>, ghost Q: set<nat>)
    requires ms.Valid() && x in ms.Contents()
    requires Following(g, S, Q, ms.Contents(), States(list.dels) + States(list.adds) + {x})
    modifies ms, list`adds
    ensures ms.Valid() && old(ms.Contents()) <= ms.Contents()
    ensures Following(g, S, Q, ms.Contents(), States(list.dels) + States(list.adds))
    ensures ms.Contents() == old(ms.Contents()) ==> list.adds == old(list.adds)
  {
    hide Following, States, FollowedSome, Followed, MultiState.Valid, MultiState.Contents;
    ghost var D := States(list.dels);
    StateIn(g, S, Q, ms.Contents(), D + States(list.adds) + {x}, x);
    FollowedNone(g, ms.Contents(), x);
    for i := 0 to |g[x].empty|
      invariant ms.Valid() && old(ms.Contents()) <= ms.Contents()
      invariant FollowedSome(g, ms.Contents(), x, i)
      invariant Following(g, S, Q, ms.Contents(), D + States(list.adds) + {x})
      invariant ms.Contents() == old(ms.Contents()) ==> list.adds == old(list.adds)
    {
      ghost var C := ms.Contents();
      FollowTarget(g, ms, x, i, list, S, Q, D);
      FollowedMore(g, C, x, i, ms.Contents());
    }
    FollowedWhole(g, ms.Contents(), x);
    FollowRest(g, S, Q, ms.Contents(), D + States(list.adds), x);
  }

  /** Follows a single empty transition. */
  method FollowTarget(g: Graph, ms: MultiState, x: nat, i: nat, list: StateArray, ghost S: set<nat>, ghost Q: set<nat>,
                      ghost D: set<nat>)
    requires x in g && i < |g[x].empty| && (forall y :: y in g[x].empty ==> y in g)
    requires ms.Valid() && x in ms.Contents() && Following(g, S, Q, ms.Contents(), D + States(list.adds) + {x})
    modifies ms, list`adds
    ensures ms.Valid() && ms.Contents() == old(ms.Contents()) + {g[x].empty[i]}
    ensures Following(g, S, Q, ms.Contents(), D + States(list.adds) + {x})
    ensures ms.Contents() == old(ms.Contents()) ==> list.adds == old(list.adds)
  {
    hide Following, States;
    var y := g[x].empty[i];
    ghost var C, todo := ms.Contents(), D + States(list.adds) + {x};
    StatesAdd(list.adds, y);
    var err := ms.Add(y);
    if err == Added && |g[y].empty| != 0 {
      list.Insert1(y);
    }
    assert D + States(list.adds) + {x} == if y !in C && g[y].empty != [] then todo + {y} else todo;
    FollowOne(g, S, Q, C, todo, x, y, D + States(list.adds) + {x});
  }

  lemma SubsetSize(A: set<nat>, B: set<nat>)
    requires A <= B
    ensures |A| <= |B|
    ensures A != B ==> |A| < |B|
  {
    assert B == A + (B - A);
    if A != B {
      var x :| x in B && x !in A;
      assert x in B - A;
    }
  }

  /** `next`, if there is one, and what is listed remains to be followed. */
  ghost predicate Pending(g: Graph, S: set<nat>, Q: set<nat>, C: set<nat>, ok: bool, next: nat, dels: seq<nat>,
                          adds: seq<nat>) {
    var todo := States(dels) + States(adds);
    && (ok ==> next in C) && (!ok ==> dels == [])
    && Following(g, S, Q, C, if ok then todo + {next} else todo)
  }

  ghost function Todo(ok: bool, dels: seq<nat>, adds: seq<nat>): nat {
    (if ok then 1 else 0) + |dels| + |adds|
  }

  /** remove2_statearray takes the next state from the second list. */
  lemma Removed(g: Graph, S: set<nat>, Q: set<nat>, C: set<nat>, ok: bool, next: nat, dels0: seq<nat>, dels: seq<nat>,
                adds: seq<nat>)
    requires Following(g, S, Q, C, States(dels0) + States(adds))
    requires if ok then dels0 == [next] + dels else dels0 == dels == []
    ensures Pending(g, S, Q, C, ok, next, dels, adds)
  {
    if ok {
      StatesAdd(dels, next);
      assert next in States(dels0);
      assert States(dels0) + States(adds) == States(dels) + States(adds) + {next};
    }
  }

  lemma Swapped(g: Graph, S: set<nat>, Q: set<nat>, C: set<nat>, next: nat, adds: seq<nat>)
    requires Pending(g, S, Q, C, false, next, [], adds)
    ensures Following(g, S, Q, C, States(adds) + States([]))
  {
    assert States([]) + States(adds) == States(adds) + States([]);
  }

  /** Follows all states of the second list. */
  method FollowListed(g: Graph, ms: MultiState, next0: nat, list: StateArray, ghost S: set<nat>, ghost Q: set<nat>)
    requires ms.Valid() && Pending(g, S, Q, ms.Contents(), true, next0, list.dels, list.adds)
    modifies ms, list
    ensures ms.Valid() && old(ms.Contents()) <= ms.Contents() && list.dels == []
    ensures Pending(g, S, Q, ms.Contents(), false, 0, [], list.adds)
    ensures ms.Contents() == old(ms.Contents()) ==> list.adds == old(list.adds)
  {
    hide Following, States;
    var ok, next := true, next0;
    while ok
      invariant ms.Valid() && old(ms.Contents()) <= ms.Contents()
      invariant Pending(g, S, Q, ms.Contents(), ok, next, list.dels, list.adds)
      invariant ms.Contents() == old(ms.Contents()) ==> list.adds == old(list.adds)
      decreases |S - ms.Contents()|, Todo(ok, list.dels, list.adds)
    {
      ghost var C := ms.Contents();
      FollowState(g, ms, next, list, S, Q);
      Grows(g, S, Q, C, ms.Contents(), States(list.dels) + States(list.adds));
      ghost var dels := list.dels;
      ok, next := list.Remove2();
      Removed(g, S, Q, ms.Contents(), ok, next, dels, list.dels, list.adds);
    }
  }

  lemma Grows(g: Graph, S: set<nat>, Q: set<nat>, C: set<nat>, C': set<nat>, todo: set<nat>)
    requires C <= C' && Following(g, S, Q, C', todo)
    ensures if C == C' then true else |S - C'| < |S - C|
  {
    hide SetReads, Followed, Closed;
    if C != C' {
      assert C' <= S;
      var x :| x in C' && x !in C;
      assert x in S - C && x !in S - C';
      SubsetSize(S - C', S - C);
    }
  }

  /** follow_empty_transition */
  method FollowEmpty(g: Graph, ms: MultiState, ghost S: set<nat>)
    requires ms.Valid() && Closed(g, S) && ms.Contents() <= S
    modifies ms
    ensures ms.Valid() && IsClosure(g, old(ms.Contents()), ms.Contents())
  {
    hide Following, Closed, States, IsClosure;
    ghost var Q := ms.Contents();
    var list := new StateArray();
    InsertMembers(g, ms, list, S);
    list.Swap1and2();
    ghost var dels := list.dels;
    var ok, next := list.Remove2();
    Removed(g, S, Q, Q, ok, next, dels, list.dels, list.adds);
    while ok
      invariant ms.Valid() && Pending(g, S, Q, ms.Contents(), ok, next, list.dels, list.adds) && list.adds == []
      invariant fresh(list)
      decreases |S - ms.Contents()|, Todo(ok, list.dels, list.adds)
    {
      ghost var C := ms.Contents();
      FollowListed(g, ms, next, list, S, Q);
      Grown(g, S, Q, C, ms.Contents(), list.adds);
      Swapped(g, S, Q, ms.Contents(), 0, list.adds);
      list.Swap1and2();
      dels := list.dels;
      ok, next := list.Remove2();
      Removed(g, S, Q, ms.Contents(), ok, next, dels, list.dels, list.adds);
    }
    Finished(g, S, Q, ms.Contents(), next);
  }

  lemma Grown(g: Graph, S: set<nat>, Q: set<nat>, C: set<nat>, C': set<nat>, adds: seq<nat>)
    requires C <= C' && Pending(g, S, Q, C', false, 0, [], adds)
    ensures if C == C' then true else |S - C'| < |S - C|
  {
    Grows(g, S, Q, C, C', States([]) + States(adds));
  }

  lemma Finished(g: Graph, S: set<nat>, Q: set<nat>, C: set<nat>, next: nat)
    requires Pending(g, S, Q, C, false, next, [], [])
    ensures IsClosure(g, Q, C)
  {
    assert States([]) + States([]) == {};
    FollowedAll(g, S, Q, C);
  }

  /** Lists the members that have empty transitions. */
  method InsertMembers(g: Graph, ms: MultiState, list: StateArray, ghost S: set<nat>)
    requires ms.Valid() && Closed(g, S) && ms.Contents() <= S && list.adds == [] && list.dels == []
    modifies list`adds
    ensures Following(g, S, ms.Contents(), ms.Contents(), States(list.adds) + States([]))
  {
    var members := ms.ToSeq();
    for i := 0 to |members|
      invariant forall p :: p in list.adds <==> p in members[..i] && g[p].empty != []
    {
      assert members[i] in ms.Contents();
      if |g[members[i]].empty| != 0 {
        list.Insert1(members[i]);
      }
    }
    assert members[..|members|] == members;
    FollowNothing(g, S, ms.Contents(), States(list.adds) + States([]));
  }
}
