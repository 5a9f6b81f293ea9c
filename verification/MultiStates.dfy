/** multistate_t: a sorted set of states, kept in a B-tree as soon as it has two members. */
module MultiStates {
  import opened Sequences
  import opened BTree

  const NROFSTATE: nat := 14
  const NROFCHILD: nat := 8
  const CAPS := Caps(2, NROFSTATE, NROFCHILD)

  datatype AddResult = Added | EEXIST

  /** The keys of a sequence of items. */
  function Keys<V>(items: seq<Item<V>>): (r: seq<nat>)
    ensures |r| == |items| && forall i :: 0 <= i < |items| ==> r[i] == items[i].key
  {
    seq(|items|, i requires 0 <= i < |items| => items[i].key)
  }

  predicate Ascending(s: seq<nat>) {
    forall i, j :: 0 <= i < j < |s| ==> s[i] < s[j]
  }

  /** Two ascending sequences with the same members are equal: sorted vectors can be
      compared, and used as keys, in place of sets. */
  lemma {:induction false} AscendingUnique(s: seq<nat>, t: seq<nat>)
    requires Ascending(s) && Ascending(t) && forall x :: x in s <==> x in t
    ensures s == t
    decreases |s|
  {
    if s == [] {
      if t != [] { FirstIn(t); }
    } else {
      assert s[0] in t;
      assert t[0] in s;
      var s', t' := s[1..], t[1..];
      forall x ensures x in s' <==> x in t' {
        if x in s' {
          var i :| 0 <= i < |s'| && s'[i] == x;
          assert s[i + 1] == x && s[0] < x;
          assert x in s;
          var j :| 0 <= j < |t| && t[j] == x;
          assert j > 0 && t'[j - 1] == x;
        }
        if x in t' {
          var i :| 0 <= i < |t'| && t'[i] == x;
          assert t[i + 1] == x && t[0] < x;
          assert x in t;
          var j :| 0 <= j < |s| && s[j] == x;
          assert j > 0 && s'[j - 1] == x;
        }
      }
      AscendingUnique(s', t');
    }
  }

  /** Binary search in a leaf for the place of x. */
  method SearchItem(items: seq<Item<()>>, x: nat) returns (found: bool, low: nat)
    requires items != [] && Sorted(items)
    ensures found ==> low < |items| && items[low].key == x
    ensures !found ==> Place(items, x, low)
  {
    var high := |items|;
    low := 0;
    var mid := high / 2;
    while true
      invariant 0 <= low <= mid < high <= |items|
      invariant forall j :: 0 <= j < low ==> items[j].key < x
      invariant forall j :: high <= j < |items| ==> x < items[j].key
      decreases high - low
    {
      if items[mid].key < x {
        low := mid + 1;
      } else if items[mid].key == x {
        return true, mid;
      } else {
        high := mid;
      }
      if low == high { break; }
      mid := (high + low) / 2;
    }
    return false, low;
  }

  ghost predicate Place(items: seq<Item<()>>, x: nat, i: nat) {
    && i <= |items|
    && (forall j :: 0 <= j < i ==> items[j].key < x)
    && (forall j :: i <= j < |items| ==> x < items[j].key)
  }

  ghost predicate Inserted(all: seq<Item<()>>, x: nat, all': seq<Item<()>>) {
    |all'| == |all| + 1 && forall y :: y in Keys(all') <==> y in Keys(all) || y == x
  }

  /** The key x is a member if and only if it is found in its leaf. */
  lemma MemberFound(all: seq<Item<()>>, a: nat, items: seq<Item<()>>, x: nat, found: bool, i: nat)
    requires Located(all, a, items, x)
    requires if found then i < |items| && items[i].key == x else Place(items, x, i)
    ensures found <==> x in Keys(all)
  {
    if found {
      assert Keys(all)[a + i] == all[a..a + |items|][i].key == x;
    } else {
      forall j | 0 <= j < |all| ensures all[j].key != x {
        if a <= j < a + |items| {
          assert all[j] == items[j - a];
        } else if j < a {
          assert all[j].key < all[a].key && all[a] == items[0];
        } else {
          assert all[a + |items|].key <= all[j].key;
        }
      }
    }
  }

  /** Putting a new key at its place keeps the leaf within its bounds and adds just this key. */
  lemma InsertedAmong(all: seq<Item<()>>, a: nat, items: seq<Item<()>>, x: nat, i: nat)
    requires Located(all, a, items, x) && Place(items, x, i)
    ensures Edit(all, a, items, Ins(items, i, Item(x, ())))
    ensures Inserted(all, x, all[..a] + Ins(items, i, Item(x, ())) + all[a + |items|..])
  {
    InsWithin(all, a, items, i, Item(x, ()));
    EditSorted(all, a, items, x, i);
    InsertedKeys(all, a + i, x);
  }

  lemma InsertedKeys(all: seq<Item<()>>, k: nat, x: nat)
    requires k <= |all|
    ensures Inserted(all, x, Ins(all, k, Item(x, ())))
  {
    var all' := Ins(all, k, Item(x, ()));
    forall y ensures y in Keys(all') <==> y in Keys(all) || y == x {
      if y in Keys(all') {
        var j :| 0 <= j < |all'| && all'[j].key == y;
        if j != k {
          assert Keys(all)[if j < k then j else j - 1] == y;
        }
      }
      if y in Keys(all) {
        var j :| 0 <= j < |all| && all[j].key == y;
        assert Keys(all')[if j < k then j else j + 1] == y;
      }
      assert Keys(all')[k] == x;
    }
  }

  lemma EditSorted(all: seq<Item<()>>, a: nat, items: seq<Item<()>>, x: nat, i: nat)
    requires Located(all, a, items, x) && Place(items, x, i)
    ensures Edit(all, a, items, Ins(items, i, Item(x, ())))
  {
    if a + |items| < |all| {
      assert items[|items| - 1] == all[a + |items| - 1];
    }
  }

  class MultiState {
    var size: nat
    var root: nat                    // size 1: the only member; size > 1: the root node
    var nodes: Nodes<()>
    var top: nat
    ghost var levels: Levels
    ghost var low: Low

    ghost predicate Valid()
      reads this
    {
      size > 1 ==>
        BTree.Valid(nodes, root, top, levels, low, CAPS) && size == |AllItems(nodes, levels)|
    }

    /** The members in ascending order. */
    ghost function Members(): seq<nat>
      reads this
    {
      if size == 0 then [] else if size == 1 then [root]
      else Keys(AllItems(nodes, levels))
    }

    ghost function Contents(): set<nat>
      reads this
    {
      set x | x in Members()
    }

    constructor ()
      ensures Valid() && Contents() == {} && Members() == []
    {
      size, root, nodes, top, levels, low := 0, 0, map[], 1, [], map[];
    }

    lemma MembersNone()
      requires Members() == []
      ensures Contents() == {}
    {
    }

    lemma MembersAscending()
      requires Valid()
      ensures Ascending(Members()) && |Members()| == size
    {
      if size > 1 {
        ItemsSorted(nodes, levels, low, CAPS, levels[0]);
      }
    }

    /** add_multistate */
    method Add(state: nat) returns (err: AddResult)
      requires Valid()
      modifies this
      ensures Valid()
      ensures err == EEXIST <==> state in old(Contents())
      ensures err == EEXIST ==> Members() == old(Members())
      ensures Contents() == old(Contents()) + {state}
      ensures size == old(size) + (if err == EEXIST then 0 else 1)
    {
      if size > 1 {
        err := AddToTree(state);
      } else if size == 0 {
        root, size, err := state, 1, Added;
      } else if root == state {
        err := EEXIST;
      } else {
        var items := if root < state then [Item(root, ()), Item(state, ())] else [Item(state, ()), Item(root, ())];
        nodes := map[1 := Leaf(items, 0)];
        levels, low := [[1]], map[1 := items[0].key];
        root, top, size, err := 1, 2, 2, Added;
        FirstTree(items, nodes, levels, low);
        assert Keys(items)[0] == items[0].key && Keys(items)[1] == items[1].key;
        assert Members() == Keys(items) == [items[0].key, items[1].key];
      }
    }

    /** The general case: the state is inserted into a leaf. */
    method AddToTree(state: nat) returns (err: AddResult)
      requires Valid() && size > 1
      modifies this
      ensures Valid()
      ensures err == EEXIST <==> state in old(Contents())
      ensures err == EEXIST ==> Members() == old(Members())
      ensures Contents() == old(Contents()) + {state}
      ensures size == old(size) + (if err == EEXIST then 0 else 1)
    {
      var n, r, t;
      ghost var l, w;
      err, n, r, t, l, w := InsertKey(nodes, root, top, levels, low, state);
      nodes, root, top, levels, low := n, r, t, l, w;
      size := if err == Added then size + 1 else size;
    }

    static method InsertKey(nodes0: Nodes<()>, root0: nat, top0: nat, ghost levels0: Levels, ghost low0: Low,
                            state: nat)
      returns (err: AddResult, nodes: Nodes<()>, root: nat, top: nat, ghost levels: Levels, ghost low: Low)
      requires BTree.Valid(nodes0, root0, top0, levels0, low0, CAPS)
      ensures BTree.Valid(nodes, root, top, levels, low, CAPS)
      ensures err == EEXIST <==> state in Keys(AllItems(nodes0, levels0))
      ensures if err == Added then Inserted(AllItems(nodes0, levels0), state, AllItems(nodes, levels))
        else AllItems(nodes, levels) == AllItems(nodes0, levels0)
    {
      nodes, root, top, levels, low := nodes0, root0, top0, levels0, low0;
      ghost var all := AllItems(nodes, levels);
      var leaf, items, path, _, _, pos, a := Locate(nodes, root, top, levels, low, CAPS, state);
      var found, i := SearchItem(items, state);
      MemberFound(all, a, items, state, found, i);
      if found {
        return EEXIST, nodes, root, top, levels, low;
      }
      InsertedAmong(all, a, items, state, i);
      hide Edit, BTree.Valid, Located, At, Place;
      nodes, root, top, levels, low := Put(nodes, root, top, CAPS, leaf, path, Ins(items, i, Item(state, ())), levels,
                                           low, pos, items, a);
      err := Added;
    }

    /** Reads the members through the chain of leaves: init_multistateiter, next_multistateiter. */
    method ToSeq() returns (s: seq<nat>)
      requires Valid()
      ensures s == Members() && Ascending(s) && |s| == size
      ensures forall x :: x in s <==> x in Contents()
    {
      MembersAscending();
      if size == 0 {
        return [];
      } else if size == 1 {
        return [root];
      }
      var items := ReadLeaves(nodes, root, top, levels, low, CAPS);
      s := Keys(items);
    }
  }

  /** A single leaf makes a tree. */
  lemma FirstTree(items: seq<Item<()>>, nodes: Nodes<()>, levels: Levels, low: Low)
    requires |items| == 2 && Sorted(items)
    requires nodes == map[1 := Leaf(items, 0)] && levels == [[1]] && low == map[1 := items[0].key]
    ensures Tree(nodes, 1, levels, low, CAPS) && Items(nodes, levels[0]) == items
  {
    assert LeafOk(nodes, low, CAPS, levels[0], 0);
    ItemsOne(nodes, 1);
  }

  /** A leaf holds up to 14 states, an inner node up to 8 children; all nodes but the root are half full at least. */
  lemma StateNodes(nodes: Nodes<()>, root: nat, top: nat, levels: Levels, low: Low, k: nat, i: nat)
    requires BTree.Valid(nodes, root, top, levels, low, CAPS) && k < |levels| && i < |levels[k]|
    ensures levels[k][i] in nodes && (nodes[levels[k][i]].Leaf? <==> k == 0)
    ensures var id, n := levels[k][i], nodes[levels[k][i]];
      if k == 0 then (if id == root then 2 else 7) <= |n.items| <= 14
      else (if id == root then 2 else 4) <= |n.child| <= 8
  {
    hide BTree.Valid;
    NodeFill(nodes, root, top, levels, low, CAPS, k, i);
  }
}
