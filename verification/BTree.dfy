/** The B-tree shared by multistate_t and rangemap_t: leaves hold the items in
    ascending order of their keys and are chained by `next`; an inner node holds
    children and, between two children, the smallest key below the right one.

    The tree is described level by level: levels[0] lists the leaves from left to
    right, levels[k] the inner nodes of level k, and low maps every node to the
    smallest key below it. */
module BTree {
  import opened Sequences

  datatype Item<V> = Item(key: nat, val: V)

  datatype BNode<V> =
    | Leaf(items: seq<Item<V>>, next: nat)
    | Inner(level: nat, keys: seq<nat>, child: seq<nat>)

  /** How many items a leaf holds at least and at most, and how many children an inner node can hold. */
  datatype Caps = Caps(min: nat, leaf: nat, child: nat)

  ghost predicate Sensible(caps: Caps) {
    1 <= caps.min <= (caps.leaf + 1) / 2 && 3 <= caps.child
  }

  /** A step of the path from the root to a leaf: node and index of the child taken. */
  datatype PathStep = PathStep(parent: nat, ichild: nat)

  type Nodes<V> = map<nat, BNode<V>>
  type Levels = seq<seq<nat>>
  type Low = map<nat, nat>

  function Min(low: Low, id: nat): nat {
    if id in low then low[id] else 0
  }

  predicate Sorted<V>(items: seq<Item<V>>) {
    forall i, j :: 0 <= i < j < |items| ==> items[i].key < items[j].key
  }

  ghost predicate LeafOk<V>(nodes: Nodes<V>, low: Low, caps: Caps, ids: seq<nat>, i: nat)
    requires i < |ids|
  {
    && ids[i] != 0 && ids[i] in nodes && nodes[ids[i]].Leaf?
    && var n := nodes[ids[i]];
       && 1 <= caps.min <= |n.items| <= caps.leaf
       && Sorted(n.items)
       && Min(low, ids[i]) == n.items[0].key
       && n.next == (if i + 1 < |ids| then ids[i + 1] else 0)
       && (i + 1 < |ids| ==> n.items[|n.items| - 1].key < Min(low, ids[i + 1]))
  }

  ghost predicate InnerOk<V>(nodes: Nodes<V>, low: Low, caps: Caps, id: nat, k: nat) {
    && id != 0 && id in nodes && nodes[id].Inner?
    && var n := nodes[id];
       && n.level == k
       && 2 <= |n.child| <= caps.child
       && |n.keys| == |n.child| - 1
       && Min(low, id) == Min(low, n.child[0])
       && forall j :: 0 <= j < |n.keys| ==> n.keys[j] == Min(low, n.child[j + 1])
  }

  ghost predicate LevelOk<V>(nodes: Nodes<V>, low: Low, caps: Caps, ids: seq<nat>, k: nat) {
    if k == 0 then forall i :: 0 <= i < |ids| ==> LeafOk(nodes, low, caps, ids, i)
    else forall i :: 0 <= i < |ids| ==> InnerOk(nodes, low, caps, ids[i], k)
  }

  ghost predicate Ordered(low: Low, ids: seq<nat>) {
    forall i, j :: 0 <= i < j < |ids| ==> Min(low, ids[i]) < Min(low, ids[j])
  }

  ghost predicate AllLevels<V>(nodes: Nodes<V>, levels: Levels, low: Low, caps: Caps) {
    forall k :: 0 <= k < |levels| ==> LevelOk(nodes, low, caps, levels[k], k) && Ordered(low, levels[k])
  }

  function Child<V>(nodes: Nodes<V>, id: nat): seq<nat> {
    if id in nodes && nodes[id].Inner? then nodes[id].child else []
  }

  /** The children of the given inner nodes, from left to right. */
  function Kids<V>(nodes: Nodes<V>, ids: seq<nat>): seq<nat> {
    if ids == [] then [] else Child(nodes, ids[0]) + Kids(nodes, ids[1..])
  }

  ghost predicate Linked<V>(nodes: Nodes<V>, levels: Levels, k: nat) {
    0 < k < |levels| && Kids(nodes, levels[k]) == levels[k - 1]
  }

  ghost predicate Tree<V>(nodes: Nodes<V>, root: nat, levels: Levels, low: Low, caps: Caps) {
    var height := |levels|;
    && height > 0 && levels[height - 1] == [root]
    && AllLevels(nodes, levels, low, caps)
    && AllLinked(nodes, levels)
  }

  /** Every level lists the children of the level above. */
  ghost predicate AllLinked<V>(nodes: Nodes<V>, levels: Levels) {
    forall k :: 0 < k < |levels| ==> Linked(nodes, levels, k)
  }

  function ItemsOf<V>(nodes: Nodes<V>, id: nat): seq<Item<V>> {
    if id in nodes && nodes[id].Leaf? then nodes[id].items else []
  }

  /** The items of the given leaves, from left to right. */
  function Items<V>(nodes: Nodes<V>, ids: seq<nat>): seq<Item<V>> {
    if ids == [] then [] else ItemsOf(nodes, ids[0]) + Items(nodes, ids[1..])
  }

  lemma {:induction false} KidsConcat<V>(nodes: Nodes<V>, a: seq<nat>, b: seq<nat>)
    ensures Kids(nodes, a + b) == Kids(nodes, a) + Kids(nodes, b)
  {
    if a == [] {
      assert a + b == b;
    } else {
      KidsConcat(nodes, a[1..], b);
      assert (a + b)[1..] == a[1..] + b;
    }
  }

  lemma {:induction false} ItemsConcat<V>(nodes: Nodes<V>, a: seq<nat>, b: seq<nat>)
    ensures Items(nodes, a + b) == Items(nodes, a) + Items(nodes, b)
  {
    if a == [] {
      assert a + b == b;
    } else {
      ItemsConcat(nodes, a[1..], b);
      assert (a + b)[1..] == a[1..] + b;
    }
  }

  lemma KidsOne<V>(nodes: Nodes<V>, id: nat)
    ensures Kids(nodes, [id]) == Child(nodes, id)
  {
    assert [id][1..] == [];
    assert Child(nodes, id) + [] == Child(nodes, id);
  }

  lemma ItemsOne<V>(nodes: Nodes<V>, id: nat)
    ensures Items(nodes, [id]) == ItemsOf(nodes, id)
  {
    assert [id][1..] == [];
    assert ItemsOf(nodes, id) + [] == ItemsOf(nodes, id);
  }

  lemma {:induction false} KidsFrame<V>(nodes: Nodes<V>, nodes': Nodes<V>, ids: seq<nat>)
    requires forall id :: id in ids ==> Child(nodes, id) == Child(nodes', id)
    ensures Kids(nodes, ids) == Kids(nodes', ids)
  {
    if ids != [] {
      KidsFrame(nodes, nodes', ids[1..]);
    }
  }

  lemma {:induction false} ItemsFrame<V>(nodes: Nodes<V>, nodes': Nodes<V>, ids: seq<nat>)
    requires forall id :: id in ids ==> ItemsOf(nodes, id) == ItemsOf(nodes', id)
    ensures Items(nodes, ids) == Items(nodes', ids)
  {
    if ids != [] {
      ItemsFrame(nodes, nodes', ids[1..]);
    }
  }

  lemma KidsAt<V>(nodes: Nodes<V>, ids: seq<nat>, p: nat)
    requires p < |ids|
    ensures Kids(nodes, ids) == Kids(nodes, ids[..p]) + Child(nodes, ids[p]) + Kids(nodes, ids[p + 1..])
  {
    assert ids == ids[..p] + ([ids[p]] + ids[p + 1..]);
    KidsConcat(nodes, ids[..p], [ids[p]] + ids[p + 1..]);
    KidsConcat(nodes, [ids[p]], ids[p + 1..]);
    KidsOne(nodes, ids[p]);
  }

  lemma ItemsAt<V>(nodes: Nodes<V>, ids: seq<nat>, p: nat)
    requires p < |ids|
    ensures Items(nodes, ids) == Items(nodes, ids[..p]) + ItemsOf(nodes, ids[p]) + Items(nodes, ids[p + 1..])
  {
    assert ids == ids[..p] + ([ids[p]] + ids[p + 1..]);
    ItemsConcat(nodes, ids[..p], [ids[p]] + ids[p + 1..]);
    ItemsConcat(nodes, [ids[p]], ids[p + 1..]);
    ItemsOne(nodes, ids[p]);
  }

  /** The index in the level below of the first child of ids[p]. */
  function Offset<V>(nodes: Nodes<V>, ids: seq<nat>, p: nat): nat
    requires p <= |ids|
  {
    |Kids(nodes, ids[..p])|
  }

  lemma OffsetNext<V>(nodes: Nodes<V>, ids: seq<nat>, p: nat)
    requires p < |ids|
    ensures Offset(nodes, ids, p + 1) == Offset(nodes, ids, p) + |Child(nodes, ids[p])|
  {
    assert ids[..p + 1] == ids[..p] + [ids[p]];
    KidsConcat(nodes, ids[..p], [ids[p]]);
    KidsOne(nodes, ids[p]);
  }

  /** Child c of node ids[p] is node Offset(p) + c of the level below. */
  lemma ChildPosition<V>(nodes: Nodes<V>, ids: seq<nat>, p: nat, c: nat)
    requires p < |ids| && c < |Child(nodes, ids[p])|
    ensures Offset(nodes, ids, p) + c < |Kids(nodes, ids)|
    ensures Kids(nodes, ids)[Offset(nodes, ids, p) + c] == Child(nodes, ids[p])[c]
  {
    KidsAt(nodes, ids, p);
  }

  /** If the level below is ordered, so is this one. */
  lemma OrderedUp<V>(nodes: Nodes<V>, low: Low, caps: Caps, ids: seq<nat>, k: nat)
    requires k > 0 && LevelOk(nodes, low, caps, ids, k) && Ordered(low, Kids(nodes, ids))
    ensures Ordered(low, ids)
  {
    forall i, j | 0 <= i < j < |ids| ensures Min(low, ids[i]) < Min(low, ids[j]) {
      assert InnerOk(nodes, low, caps, ids[i], k) && InnerOk(nodes, low, caps, ids[j], k);
      ChildPosition(nodes, ids, i, 0);
      ChildPosition(nodes, ids, j, 0);
      OffsetGrows(nodes, low, caps, ids, k, i, j);
    }
  }

  lemma {:induction false} OffsetGrows<V>(nodes: Nodes<V>, low: Low, caps: Caps, ids: seq<nat>, k: nat, i: nat, j: nat)
    requires k > 0 && LevelOk(nodes, low, caps, ids, k) && i < j <= |ids|
    ensures Offset(nodes, ids, i) < Offset(nodes, ids, j)
    decreases j
  {
    assert InnerOk(nodes, low, caps, ids[j - 1], k);
    OffsetNext(nodes, ids, j - 1);
    if i < j - 1 {
      OffsetGrows(nodes, low, caps, ids, k, i, j - 1);
    }
  }

  lemma OrderedDistinct(low: Low, ids: seq<nat>, i: nat, j: nat)
    requires Ordered(low, ids) && i < |ids| && j < |ids| && ids[i] == ids[j]
    ensures i == j
  {
  }

  /** The key x belongs below the node ids[p], if it belongs anywhere below ids. */
  ghost predicate Below(low: Low, ids: seq<nat>, p: nat, x: nat) {
    && p < |ids|
    && (p > 0 ==> Min(low, ids[p]) <= x)
    && (p + 1 < |ids| ==> x < Min(low, ids[p + 1]))
  }

  /** Every key below c is at most x, and x is less than every key from c on. */
  ghost predicate Splits(keys: seq<nat>, c: nat, x: nat) {
    && c <= |keys|
    && (forall j :: 0 <= j < c ==> keys[j] <= x)
    && (forall j :: c <= j < |keys| ==> x < keys[j])
  }

  /** The path leads from the root to the leaf levels[0][pos]; pos[j] is the
      position of its j-th node, counted from the leaf, in its level. */
  ghost predicate PathTo<V>(nodes: Nodes<V>, levels: Levels, path: seq<PathStep>, pos: seq<nat>) {
    && |levels| > 0 && |pos| == |levels| && |path| == |levels| - 1
    && forall k :: 0 < k < |levels| ==> StepOk(nodes, levels, path, pos, k)
  }

  /** The path step at level k, which is the k-th from the end. */
  ghost predicate StepOk<V>(nodes: Nodes<V>, levels: Levels, path: seq<PathStep>, pos: seq<nat>, k: nat)
    requires |pos| == |levels| && |path| == |levels| - 1 && 0 < k < |levels|
  {
    var s := path[|path| - k];
    && pos[k] < |levels[k]|
    && s.parent == levels[k][pos[k]]
    && s.ichild < |Child(nodes, s.parent)|
    && Offset(nodes, levels[k], pos[k]) + s.ichild == pos[k - 1]
  }

  lemma KeysSorted<V>(nodes: Nodes<V>, levels: Levels, low: Low, caps: Caps, k: nat, p: nat)
    requires AllLevels(nodes, levels, low, caps) && Linked(nodes, levels, k) && p < |levels[k]|
    ensures InnerOk(nodes, low, caps, levels[k][p], k)
    ensures var keys := nodes[levels[k][p]].keys;
      forall i, j :: 0 <= i < j < |keys| ==> keys[i] < keys[j]
  {
    var id := levels[k][p];
    assert LevelOk(nodes, low, caps, levels[k], k);
    assert InnerOk(nodes, low, caps, id, k);
    var keys := nodes[id].keys;
    forall i, j | 0 <= i < j < |keys| ensures keys[i] < keys[j] {
      ChildPosition(nodes, levels[k], p, i + 1);
      ChildPosition(nodes, levels[k], p, j + 1);
      assert Ordered(low, levels[k - 1]);
    }
  }

  /** Binary search for the child of an inner node that x belongs below. */
  method SearchChild(keys: seq<nat>, x: nat) returns (c: nat)
    requires |keys| > 0
    requires forall i, j :: 0 <= i < j < |keys| ==> keys[i] < keys[j]
    ensures Splits(keys, c, x)
  {
    var high := |keys|;
    c := 0;
    var mid := high / 2;
    while true
      invariant 0 <= c <= mid < high <= |keys|
      invariant forall j :: 0 <= j < c ==> keys[j] <= x
      invariant forall j :: high <= j < |keys| ==> x < keys[j]
      decreases high - c
    {
      if keys[mid] <= x {
        c := mid + 1;
      } else {
        high := mid;
      }
      if c == high { break; }
      mid := (high + c) / 2;
    }
  }

  lemma BelowChild<V>(nodes: Nodes<V>, levels: Levels, low: Low, caps: Caps, k: nat, p: nat, c: nat, x: nat)
    requires AllLevels(nodes, levels, low, caps) && Linked(nodes, levels, k)
    requires Below(low, levels[k], p, x)
    requires levels[k][p] in nodes && nodes[levels[k][p]].Inner? && Splits(nodes[levels[k][p]].keys, c, x)
    ensures c < |nodes[levels[k][p]].child|
    ensures Offset(nodes, levels[k], p) + c < |levels[k - 1]|
    ensures levels[k - 1][Offset(nodes, levels[k], p) + c] == nodes[levels[k][p]].child[c]
    ensures Below(low, levels[k - 1], Offset(nodes, levels[k], p) + c, x)
  {
    var ids, id := levels[k], levels[k][p];
    KeysSorted(nodes, levels, low, caps, k, p);
    ChildPosition(nodes, ids, p, c);
    OffsetNext(nodes, ids, p);
    if c + 1 < |nodes[id].child| {
      ChildPosition(nodes, ids, p, c + 1);
    } else if p + 1 < |ids| {
      KeysSorted(nodes, levels, low, caps, k, p + 1);
      ChildPosition(nodes, ids, p + 1, 0);
    } else {
      assert ids[..p + 1] == ids;
    }
    if c == 0 && p == 0 {
      assert ids[..0] == [];
    }
    var keys := nodes[id].keys;
    assert c > 0 ==> keys[c - 1] <= x && keys[c - 1] == Min(low, nodes[id].child[c]);
    assert c == 0 ==> Min(low, id) == Min(low, nodes[id].child[0]);
    assert c < |keys| ==> x < keys[c] && keys[c] == Min(low, nodes[id].child[c + 1]);
  }

  /** upper is the smallest key below the node right of ids[p], if there is one. */
  ghost predicate Next(low: Low, ids: seq<nat>, p: nat, more: bool, upper: nat) {
    && (more <==> p + 1 < |ids|)
    && (more ==> upper == Min(low, ids[p + 1]))
  }

  lemma NextBelow<V>(nodes: Nodes<V>, levels: Levels, low: Low, caps: Caps, k: nat, p: nat, c: nat, more: bool,
                     upper: nat)
    requires AllLevels(nodes, levels, low, caps) && Linked(nodes, levels, k)
    requires p < |levels[k]| && Next(low, levels[k], p, more, upper)
    requires levels[k][p] in nodes && nodes[levels[k][p]].Inner? && c < |nodes[levels[k][p]].child|
    ensures var keys := nodes[levels[k][p]].keys;
      Next(low, levels[k - 1], Offset(nodes, levels[k], p) + c, more || c < |keys|,
           if c < |keys| then keys[c] else upper)
  {
    var ids, id := levels[k], levels[k][p];
    KeysSorted(nodes, levels, low, caps, k, p);
    ChildPosition(nodes, ids, p, c);
    OffsetNext(nodes, ids, p);
    if c + 1 < |nodes[id].child| {
      ChildPosition(nodes, ids, p, c + 1);
    } else if p + 1 < |ids| {
      KeysSorted(nodes, levels, low, caps, k, p + 1);
      ChildPosition(nodes, ids, p + 1, 0);
    } else {
      assert ids[..p + 1] == ids;
    }
  }

  /** Descends from the root to the leaf that x belongs in, and records the path. If there
      is a leaf right of it, upper is the smallest key there. */
  method Descend<V>(nodes: Nodes<V>, root: nat, ghost levels: Levels, ghost low: Low, ghost caps: Caps, x: nat)
    returns (leaf: nat, path: seq<PathStep>, more: bool, upper: nat, ghost pos: seq<nat>)
    requires Tree(nodes, root, levels, low, caps)
    ensures PathTo(nodes, levels, path, pos)
    ensures Next(low, levels[0], pos[0], more, upper)
    ensures Below(low, levels[0], pos[0], x) && leaf == levels[0][pos[0]]
  {
    leaf, path, more, upper := root, [], false, 0;
    ghost var k: nat := |levels| - 1;
    pos := seq(|levels|, i => 0);
    LevelIn(nodes, levels, low, caps, k, 0);
    var level := if nodes[leaf].Inner? then nodes[leaf].level else 0;
    hide LevelOk, Linked, LeafOk, InnerOk, Min;
    while level > 0
      invariant level == k && Descending(nodes, levels, low, path, pos, k, leaf, x, more, upper)
      decreases level
    {
      LevelIn(nodes, levels, low, caps, k, pos[k]);
      KeysSorted(nodes, levels, low, caps, k, pos[k]);
      var n := nodes[leaf];
      var c := SearchChild(n.keys, x);
      DescendStep(nodes, levels, low, caps, path, pos, k, leaf, x, more, upper, c);
      if c < |n.keys| {
        more, upper := true, n.keys[c];
      }
      pos := pos[k - 1 := Offset(nodes, levels[k], pos[k]) + c];
      path := path + [PathStep(leaf, c)];
      leaf := n.child[c];
      level := level - 1;
      k := k - 1;
    }
    forall j | 0 < j < |levels| ensures StepOk(nodes, levels, path, pos, j) {
      assert StepFrom(nodes, levels, path, pos, j);
    }
  }

  /** The descent has come to the node leaf at level k. */
  ghost predicate Descending<V>(nodes: Nodes<V>, levels: Levels, low: Low, path: seq<PathStep>, pos: seq<nat>, k: nat,
                                leaf: nat, x: nat, more: bool, upper: nat) {
    && k < |levels| && |pos| == |levels| && |path| == |levels| - 1 - k
    && Below(low, levels[k], pos[k], x) && leaf == levels[k][pos[k]]
    && Next(low, levels[k], pos[k], more, upper)
    && forall j :: k < j < |levels| ==> StepFrom(nodes, levels, path, pos, j)
  }

  lemma DescendStep<V>(nodes: Nodes<V>, levels: Levels, low: Low, caps: Caps, path: seq<PathStep>, pos: seq<nat>,
                       k: nat, leaf: nat, x: nat, more: bool, upper: nat, c: nat)
    requires AllLevels(nodes, levels, low, caps) && AllLinked(nodes, levels) && k > 0
    requires Descending(nodes, levels, low, path, pos, k, leaf, x, more, upper)
    requires leaf in nodes && nodes[leaf].Inner? && Splits(nodes[leaf].keys, c, x)
    ensures c < |nodes[leaf].child|
    ensures var keys := nodes[leaf].keys;
      Descending(nodes, levels, low, path + [PathStep(leaf, c)],
      pos[k - 1 := Offset(nodes, levels[k], pos[k]) + c], k - 1,
                 nodes[leaf].child[c], x, more || c < |keys|, if c < |keys| then keys[c] else upper)
  {
    assert Linked(nodes, levels, k);
    BelowChild(nodes, levels, low, caps, k, pos[k], c, x);
    NextBelow(nodes, levels, low, caps, k, pos[k], c, more, upper);
    hide AllLevels, AllLinked, Linked, Splits, Below, Next;
    var pos' := pos[k - 1 := Offset(nodes, levels[k], pos[k]) + c];
    var path' := path + [PathStep(leaf, c)];
    forall j | k - 1 < j < |levels| ensures StepFrom(nodes, levels, path', pos', j) {
      if j > k {
        assert StepFrom(nodes, levels, path, pos, j);
      }
    }
  }

  /** StepOk for a path that so far reaches down to level j at least. */
  ghost predicate StepFrom<V>(nodes: Nodes<V>, levels: Levels, path: seq<PathStep>, pos: seq<nat>, j: nat)
    requires |pos| == |levels| && |levels| - 1 - j < |path| <= |levels| - 1 && 0 < j < |levels|
  {
    var s := path[|levels| - 1 - j];
    && pos[j] < |levels[j]|
    && s.parent == levels[j][pos[j]]
    && s.ichild < |Child(nodes, s.parent)|
    && Offset(nodes, levels[j], pos[j]) + s.ichild == pos[j - 1]
  }

  function Ins<T>(s: seq<T>, i: nat, x: T): seq<T>
    requires i <= |s|
  {
    s[..i] + [x] + s[i..]
  }

  /** Node b has been inserted into level k - 1, right of position p, but into no inner node yet. */
  ghost predicate Pending<V>(nodes: Nodes<V>, levels: Levels, low: Low, caps: Caps, k: nat, p: nat, b: nat) {
    && 0 < k <= |levels|
    && AllLevels(nodes, levels, low, caps)
    && (forall l :: 0 < l < |levels| && l != k ==> Linked(nodes, levels, l))
    && p + 1 < |levels[k - 1]| && levels[k - 1][p + 1] == b
    && (if k < |levels| then
          Kids(nodes, levels[k]) == levels[k - 1][..p + 1] + levels[k - 1][p + 2..] && |levels[|levels| - 1]| == 1
        else
          |levels[k - 1]| == 2)
  }

  lemma LevelIn<V>(nodes: Nodes<V>, levels: Levels, low: Low, caps: Caps, k: nat, i: nat)
    requires AllLevels(nodes, levels, low, caps) && k < |levels| && i < |levels[k]|
    ensures levels[k][i] in nodes && levels[k][i] != 0
    ensures k == 0 ==> LeafOk(nodes, low, caps, levels[0], i)
    ensures k > 0 ==> InnerOk(nodes, low, caps, levels[k][i], k)
  {
    assert LevelOk(nodes, low, caps, levels[k], k);
    assert k == 0 ==> LeafOk(nodes, low, caps, levels[k], i);
    assert k > 0 ==> InnerOk(nodes, low, caps, levels[k][i], k);
  }

  /** A node stands in one level only, and there in one position only. */
  lemma OnePlace<V>(nodes: Nodes<V>, levels: Levels, low: Low, caps: Caps, k: nat, i: nat, l: nat, j: nat)
    requires AllLevels(nodes, levels, low, caps)
    requires k < |levels| && i < |levels[k]| && l < |levels| && j < |levels[l]| && levels[k][i] == levels[l][j]
    ensures k == l && i == j
  {
    LevelIn(nodes, levels, low, caps, k, i);
    LevelIn(nodes, levels, low, caps, l, j);
    OrderedDistinct(low, levels[k], i, j);
  }

  /** A level does not notice changes to other nodes and to keys below other nodes. */
  lemma InnerFrame<V>(nodes: Nodes<V>, nodes': Nodes<V>, low: Low, low': Low, caps: Caps, id: nat, k: nat)
    requires InnerOk(nodes, low, caps, id, k)
    requires id in nodes' && nodes'[id] == nodes[id] && Min(low', id) == Min(low, id)
    requires forall c :: c in nodes[id].child ==> Min(low', c) == Min(low, c)
    ensures InnerOk(nodes', low', caps, id, k)
  {
    var n := nodes[id];
    forall j | 0 <= j < |n.keys| ensures n.keys[j] == Min(low', n.child[j + 1]) {
      assert n.child[j + 1] in n.child;
    }
    assert n.child[0] in n.child;
  }

  lemma ChildInLevel<V>(nodes: Nodes<V>, ids: seq<nat>, p: nat, c: nat)
    requires p < |ids| && c in Child(nodes, ids[p])
    ensures c in Kids(nodes, ids)
  {
    KidsAt(nodes, ids, p);
  }

  /** Replacing one node replaces its children among those of its level. */
  lemma KidsReplace<V>(nodes: Nodes<V>, nodes': Nodes<V>, ids: seq<nat>, p: nat)
    requires p < |ids|
    requires forall i :: 0 <= i < |ids| && i != p ==> Child(nodes, ids[i]) == Child(nodes', ids[i])
    ensures Kids(nodes', ids) == Kids(nodes, ids[..p]) + Child(nodes', ids[p]) + Kids(nodes, ids[p + 1..])
  {
    KidsAt(nodes', ids, p);
    forall id | id in ids[..p] ensures Child(nodes, id) == Child(nodes', id) {
      var i :| 0 <= i < p && ids[i] == id;
    }
    forall id | id in ids[p + 1..] ensures Child(nodes, id) == Child(nodes', id) {
      var i :| p < i < |ids| && ids[i] == id;
    }
    KidsFrame(nodes, nodes', ids[..p]);
    KidsFrame(nodes, nodes', ids[p + 1..]);
  }

  lemma ItemsReplace<V>(nodes: Nodes<V>, nodes': Nodes<V>, ids: seq<nat>, p: nat)
    requires p < |ids|
    requires forall i :: 0 <= i < |ids| && i != p ==> ItemsOf(nodes, ids[i]) == ItemsOf(nodes', ids[i])
    ensures Items(nodes', ids) == Items(nodes, ids[..p]) + ItemsOf(nodes', ids[p]) + Items(nodes, ids[p + 1..])
  {
    ItemsAt(nodes', ids, p);
    forall id | id in ids[..p] ensures ItemsOf(nodes, id) == ItemsOf(nodes', id) {
      var i :| 0 <= i < p && ids[i] == id;
    }
    forall id | id in ids[p + 1..] ensures ItemsOf(nodes, id) == ItemsOf(nodes', id) {
      var i :| p < i < |ids| && ids[i] == id;
    }
    ItemsFrame(nodes, nodes', ids[..p]);
    ItemsFrame(nodes, nodes', ids[p + 1..]);
  }

  /** The place where the pending node b enters its parent, child c of which lies left of it. */
  ghost predicate Gap<V>(nodes: Nodes<V>, levels: Levels, low: Low, caps: Caps, k: nat, p: nat, b: nat, pp: nat,
                         c: nat) {
    && Pending(nodes, levels, low, caps, k, p, b) && k < |levels|
    && pp < |levels[k]|
    && c < |Child(nodes, levels[k][pp])|
    && Offset(nodes, levels[k], pp) + c == p
  }

  lemma InsWithin<T>(all: seq<T>, a: nat, own: seq<T>, i: nat, x: T)
    requires a + |own| <= |all| && all[a..a + |own|] == own && i <= |own|
    ensures all[..a] + Ins(own, i, x) + all[a + |own|..] == Ins(all, a + i, x)
  {
    assert all[..a] + own[..i] == all[..a + i];
    assert own[i..] + all[a + |own|..] == all[a + i..];
  }

  lemma InsMiddle<T>(a: seq<T>, ch: seq<T>, z: seq<T>, i: nat, x: T)
    requires i <= |ch|
    ensures a + Ins(ch, i, x) + z == Ins(a + ch + z, |a| + i, x)
  {
  }

  lemma InsRemoved<T>(s: seq<T>, i: nat)
    requires i < |s|
    ensures Ins(s[..i] + s[i + 1..], i, s[i]) == s
  {
  }

  lemma InsAt<T>(s: seq<T>, i: nat, x: T, j: nat)
    requires i <= |s| && j < |s|
    ensures Ins(s, i, x)[i] == x
    ensures Ins(s, i, x)[if j < i then j else j + 1] == s[j]
  {
  }

  /** With b inserted right of child c, the children below are complete. */
  lemma GapFilled<V>(nodes: Nodes<V>, levels: Levels, low: Low, caps: Caps, k: nat, p: nat, b: nat, pp: nat, c: nat)
    requires Gap(nodes, levels, low, caps, k, p, b, pp, c)
    ensures var ids := levels[k];
      Kids(nodes, ids[..pp]) + Ins(Child(nodes, ids[pp]), c + 1, b) + Kids(nodes, ids[pp + 1..]) == levels[k - 1]
    ensures InnerOk(nodes, low, caps, levels[k][pp], k)
  {
    var ids, below := levels[k], levels[k - 1];
    LevelIn(nodes, levels, low, caps, k, pp);
    KidsAt(nodes, ids, pp);
    InsMiddle(Kids(nodes, ids[..pp]), Child(nodes, ids[pp]), Kids(nodes, ids[pp + 1..]), c + 1, b);
    InsRemoved(below, p + 1);
  }

  /** The inner node n with b, whose smallest key is x, inserted right of child c. */
  function WithChild(keys: seq<nat>, child: seq<nat>, c: nat, x: nat, b: nat): (seq<nat>, seq<nat>)
    requires c <= |keys| && c < |child|
  {
    (Ins(keys, c, x), Ins(child, c + 1, b))
  }

  lemma FilledKeys<V>(nodes: Nodes<V>, low: Low, caps: Caps, id: nat, k: nat, c: nat, b: nat)
    requires InnerOk(nodes, low, caps, id, k) && c < |nodes[id].child|
    ensures var (keys, child) := WithChild(nodes[id].keys, nodes[id].child, c, Min(low, b), b);
      && |keys| == |child| - 1 && child[0] == nodes[id].child[0]
      && forall j :: 0 <= j < |keys| ==> keys[j] == Min(low, child[j + 1])
  {
    var n := nodes[id];
    var (keys, child) := WithChild(n.keys, n.child, c, Min(low, b), b);
    forall j | 0 <= j < |keys| ensures keys[j] == Min(low, child[j + 1]) {
      if j > c { assert keys[j] == n.keys[j - 1] && child[j + 1] == n.child[j]; }
      else if j < c { assert keys[j] == n.keys[j] && child[j + 1] == n.child[j + 1]; }
    }
  }

  /** Only the node id, of level k, differs; it keeps its smallest key. */
  lemma OtherLevels<V>(nodes: Nodes<V>, levels: Levels, low: Low, caps: Caps, k: nat, pp: nat, n: BNode<V>, l: nat)
    requires AllLevels(nodes, levels, low, caps) && 0 < k < |levels| && pp < |levels[k]| && l < |levels|
    requires n.Inner?
    ensures var nodes' := nodes[levels[k][pp] := n];
      forall i :: 0 <= i < |levels[l]| && (l != k || i != pp) ==>
        levels[l][i] != levels[k][pp] && levels[l][i] in nodes && nodes'[levels[l][i]] == nodes[levels[l][i]]
    ensures l != k ==> LevelOk(nodes[levels[k][pp] := n], low, caps, levels[l], l)
    ensures l != k ==> Kids(nodes[levels[k][pp] := n], levels[l]) == Kids(nodes, levels[l])
    ensures l == k && InnerOk(nodes[levels[k][pp] := n], low, caps, levels[k][pp], k) ==>
      LevelOk(nodes[levels[k][pp] := n], low, caps, levels[k], k)
  {
    var id, nodes' := levels[k][pp], nodes[levels[k][pp] := n];
    forall i | 0 <= i < |levels[l]| && (l != k || i != pp)
      ensures levels[l][i] != id && levels[l][i] in nodes && nodes'[levels[l][i]] == nodes[levels[l][i]]
      ensures if l == 0 then LeafOk(nodes', low, caps, levels[l], i) else InnerOk(nodes', low, caps, levels[l][i], l)
    {
      LevelIn(nodes, levels, low, caps, l, i);
      if levels[l][i] == id { OnePlace(nodes, levels, low, caps, l, i, k, pp); }
    }
    if l != k {
      KidsFrame(nodes, nodes', levels[l]);
    }
  }

  lemma SameItems<V>(nodes: Nodes<V>, levels: Levels, low: Low, caps: Caps, k: nat, pp: nat, n: BNode<V>)
    requires AllLevels(nodes, levels, low, caps) && 0 < k < |levels| && pp < |levels[k]| && n.Inner?
    ensures Items(nodes[levels[k][pp] := n], levels[0]) == Items(nodes, levels[0])
  {
    OtherLevels(nodes, levels, low, caps, k, pp, n, 0);
    ItemsFrame(nodes, nodes[levels[k][pp] := n], levels[0]);
  }

  /** Entering b into a parent with room completes the tree. */
  lemma FillParent<V>(nodes: Nodes<V>, levels: Levels, low: Low, caps: Caps, k: nat, p: nat, b: nat, pp: nat, c: nat,
                      n': BNode<V>)
    requires Gap(nodes, levels, low, caps, k, p, b, pp, c)
    requires levels[k][pp] in nodes && nodes[levels[k][pp]].Inner?
    requires var n := nodes[levels[k][pp]];
      |n.child| < caps.child && c <= |n.keys| &&
      var (keys, child) := WithChild(n.keys, n.child, c, Min(low, b), b);
      n' == Inner(n.level, keys, child)
    ensures AllLevels(nodes[levels[k][pp] := n'], levels, low, caps)
    ensures AllLinked(nodes[levels[k][pp] := n'], levels)
    ensures Items(nodes[levels[k][pp] := n'], levels[0]) == Items(nodes, levels[0])
  {
    var ids, id, nodes' := levels[k], levels[k][pp], nodes[levels[k][pp] := n'];
    GapFilled(nodes, levels, low, caps, k, p, b, pp, c);
    FilledKeys(nodes, low, caps, id, k, c, b);
    assert InnerOk(nodes', low, caps, id, k);
    forall l | 0 <= l < |levels|
      ensures LevelOk(nodes', low, caps, levels[l], l)
      ensures l > 0 ==> Linked(nodes', levels, l)
    {
      OtherLevels(nodes, levels, low, caps, k, pp, n', l);
      if l == k {
        KidsReplace(nodes, nodes', ids, pp);
      } else if l > 0 {
        assert Linked(nodes, levels, l);
      }
    }
    SameItems(nodes, levels, low, caps, k, pp, n');
  }

  /** A new node b2 enters the level k, right of position pp. */
  function Widen(levels: Levels, k: nat, pp: nat, b2: nat): Levels
    requires k < |levels| && pp < |levels[k]|
  {
    levels[k := Ins(levels[k], pp + 1, b2)]
  }

  lemma KidsWiden<V>(nodes: Nodes<V>, nodes': Nodes<V>, ids: seq<nat>, pp: nat, b2: nat)
    requires pp < |ids|
    requires forall i :: 0 <= i < |ids| && i != pp ==> Child(nodes, ids[i]) == Child(nodes', ids[i])
    ensures Kids(nodes', Ins(ids, pp + 1, b2)) ==
      Kids(nodes, ids[..pp]) + (Child(nodes', ids[pp]) + Child(nodes', b2)) + Kids(nodes, ids[pp + 1..])
  {
    hide Kids, Child;
    var all := Ins(ids, pp + 1, b2);
    assert all == (ids[..pp] + [ids[pp]] + [b2]) + ids[pp + 1..];
    assert ids[..pp + 1] == ids[..pp] + [ids[pp]];
    KidsConcat(nodes', ids[..pp] + [ids[pp]] + [b2], ids[pp + 1..]);
    KidsConcat(nodes', ids[..pp] + [ids[pp]], [b2]);
    KidsConcat(nodes', ids[..pp], [ids[pp]]);
    KidsOne(nodes', ids[pp]);
    KidsOne(nodes', b2);
    KidsReplace(nodes, nodes', ids, pp);
    forall id | id in ids[..pp] ensures Child(nodes, id) == Child(nodes', id) {
      var i :| 0 <= i < pp && ids[i] == id;
    }
    forall id | id in ids[pp + 1..] ensures Child(nodes, id) == Child(nodes', id) {
      var i :| pp < i < |ids| && ids[i] == id;
    }
    KidsFrame(nodes, nodes', ids[..pp]);
    KidsFrame(nodes, nodes', ids[pp + 1..]);
  }

  lemma WidenRemoved(ids: seq<nat>, pp: nat, b2: nat)
    requires pp < |ids|
    ensures var all := Ins(ids, pp + 1, b2);
      |all| == |ids| + 1 && all[pp + 1] == b2 && all[..pp + 1] + all[pp + 2..] == ids
  {
  }

  /** What a split of the full parent levels[k][pp] into itself and a new node b2 produces. */
  ghost predicate ParentSplit<V>(nodes: Nodes<V>, levels: Levels, low: Low, caps: Caps, k: nat, pp: nat, c: nat,
                                 b: nat, b2: nat, nodes': Nodes<V>, low': Low)
  {
    && k < |levels| && pp < |levels[k]| && levels[k][pp] in nodes && nodes[levels[k][pp]].Inner?
    && b2 != 0 && b2 !in nodes
    && var n := nodes[levels[k][pp]];
       |n.child| == caps.child && c < |n.child| && c <= |n.keys|
       && var (keys, child) := WithChild(n.keys, n.child, c, Min(low, b), b);
          var m := (caps.child + 1) - (caps.child + 1) / 2;
          && 0 < m <= |keys|
          && nodes' == nodes[levels[k][pp] := Inner(n.level, keys[..m - 1], child[..m])]
               [b2 := Inner(n.level, keys[m..], child[m..])]
          && low' == low[b2 := keys[m - 1]]
  }

  /** The keys of the overfull parent fit its children. */
  lemma SplitKeys<V>(nodes: Nodes<V>, levels: Levels, low: Low, caps: Caps, k: nat, p: nat, b: nat, pp: nat, c: nat,
                     b2: nat, nodes': Nodes<V>, low': Low)
    requires Gap(nodes, levels, low, caps, k, p, b, pp, c)
    requires ParentSplit(nodes, levels, low, caps, k, pp, c, b, b2, nodes', low')
    ensures var id := levels[k][pp];
      var (keys, child) := WithChild(nodes[id].keys, nodes[id].child, c, Min(low, b), b);
      && id != 0 && nodes[id].level == k && |child| == caps.child + 1 && |keys| == caps.child
      && Min(low', id) == Min(low', child[0])
      && forall j :: 0 <= j < |keys| ==> keys[j] == Min(low', child[j + 1])
  {
    var id := levels[k][pp];
    LevelIn(nodes, levels, low, caps, k, pp);
    FilledKeys(nodes, low, caps, id, k, c, b);
    var (keys, child) := WithChild(nodes[id].keys, nodes[id].child, c, Min(low, b), b);
    forall j | 0 <= j < |child| ensures Min(low', child[j]) == Min(low, child[j]) {
      GapChildren(nodes, levels, low, caps, k, p, b, pp, c, child[j]);
    }
  }

  lemma SplitHalves<V>(nodes: Nodes<V>, levels: Levels, low: Low, caps: Caps, k: nat, p: nat, b: nat, pp: nat, c: nat,
                       b2: nat, nodes': Nodes<V>, low': Low)
    requires Sensible(caps) && Gap(nodes, levels, low, caps, k, p, b, pp, c)
    requires ParentSplit(nodes, levels, low, caps, k, pp, c, b, b2, nodes', low')
    ensures InnerOk(nodes', low', caps, levels[k][pp], k) && InnerOk(nodes', low', caps, b2, k)
    ensures Child(nodes', levels[k][pp]) + Child(nodes', b2) == Ins(Child(nodes, levels[k][pp]), c + 1, b)
  {
    hide InnerOk, AllLevels, Pending, Linked, Gap;
    var id := levels[k][pp];
    SplitKeys(nodes, levels, low, caps, k, p, b, pp, c, b2, nodes', low');
    var (keys, child) := WithChild(nodes[id].keys, nodes[id].child, c, Min(low, b), b);
    var m := (caps.child + 1) - (caps.child + 1) / 2;
    assert child[..m] + child[m..] == child;
    Halves(nodes', low', caps, id, b2, k, keys, child, m);
  }

  /** Both halves of an overfull inner node are in order. */
  lemma Halves<V>(nodes: Nodes<V>, low: Low, caps: Caps, id: nat, b2: nat, k: nat, keys: seq<nat>, child: seq<nat>,
                  m: nat)
    requires |child| == caps.child + 1 && |keys| == caps.child && 2 <= m && m + 2 <= |child|
    requires forall j :: 0 <= j < |keys| ==> keys[j] == Min(low, child[j + 1])
    requires id != 0 && id in nodes && nodes[id] == Inner(k, keys[..m - 1], child[..m])
    requires Min(low, id) == Min(low, child[0])
    requires b2 != 0 && b2 in nodes && nodes[b2] == Inner(k, keys[m..], child[m..]) && Min(low, b2) == keys[m - 1]
    ensures InnerOk(nodes, low, caps, id, k) && InnerOk(nodes, low, caps, b2, k)
  {
  }

  /** All children around the gap are nodes. */
  lemma GapChildren<V>(nodes: Nodes<V>, levels: Levels, low: Low, caps: Caps, k: nat, p: nat, b: nat, pp: nat, c: nat,
                       x: nat)
    requires Gap(nodes, levels, low, caps, k, p, b, pp, c)
    requires x in Ins(Child(nodes, levels[k][pp]), c + 1, b)
    ensures x in nodes
  {
    GapFilled(nodes, levels, low, caps, k, p, b, pp, c);
    assert x in levels[k - 1];
    var i :| 0 <= i < |levels[k - 1]| && levels[k - 1][i] == x;
    LevelIn(nodes, levels, low, caps, k - 1, i);
  }

  /** Children of any node of an inner level are nodes. */
  lemma ChildrenIn<V>(nodes: Nodes<V>, levels: Levels, low: Low, caps: Caps, k: nat, p: nat, b: nat, l: nat, i: nat,
                      x: nat)
    requires Pending(nodes, levels, low, caps, k, p, b) && 0 < l < |levels| && i < |levels[l]|
    requires x in Child(nodes, levels[l][i])
    ensures x in nodes
  {
    ChildInLevel(nodes, levels[l], i, x);
    if l != k { assert Linked(nodes, levels, l); }
    assert x in levels[l - 1];
    var j :| 0 <= j < |levels[l - 1]| && levels[l - 1][j] == x;
    LevelIn(nodes, levels, low, caps, l - 1, j);
  }

  lemma SplitOtherNode<V>(nodes: Nodes<V>, levels: Levels, low: Low, caps: Caps, k: nat, p: nat, b: nat, pp: nat,
                          c: nat, b2: nat, nodes': Nodes<V>, low': Low, l: nat, i: nat)
    requires Gap(nodes, levels, low, caps, k, p, b, pp, c)
    requires ParentSplit(nodes, levels, low, caps, k, pp, c, b, b2, nodes', low')
    requires l < |levels| && i < |levels[l]| && (l != k || i != pp)
    ensures levels[l][i] in nodes && levels[l][i] in nodes' && nodes'[levels[l][i]] == nodes[levels[l][i]]
    ensures Min(low', levels[l][i]) == Min(low, levels[l][i])
    ensures l == 0 ==> LeafOk(nodes', low', caps, levels[l], i)
    ensures l > 0 ==> InnerOk(nodes', low', caps, levels[l][i], l)
  {
    LevelIn(nodes, levels, low, caps, l, i);
    if levels[l][i] == levels[k][pp] { OnePlace(nodes, levels, low, caps, l, i, k, pp); }
    if l > 0 {
      forall x | x in nodes[levels[l][i]].child ensures Min(low', x) == Min(low, x) {
        ChildrenIn(nodes, levels, low, caps, k, p, b, l, i, x);
      }
      InnerFrame(nodes, nodes', low, low', caps, levels[l][i], l);
    } else if i + 1 < |levels[0]| {
      LevelIn(nodes, levels, low, caps, 0, i + 1);
    }
  }

  /** All levels but that of the split node stay as they are. */
  lemma SplitLevels<V>(nodes: Nodes<V>, levels: Levels, low: Low, caps: Caps, k: nat, p: nat, b: nat, pp: nat, c: nat,
                       b2: nat, nodes': Nodes<V>, low': Low)
    requires Gap(nodes, levels, low, caps, k, p, b, pp, c)
    requires ParentSplit(nodes, levels, low, caps, k, pp, c, b, b2, nodes', low')
    ensures forall l :: 0 <= l < |levels| && l != k ==> LevelOk(nodes', low', caps, levels[l], l)
    ensures forall l :: 0 <= l < |levels| && l != k ==> Ordered(low', levels[l])
    ensures forall l :: 0 <= l < |levels| && l != k ==> Kids(nodes', levels[l]) == Kids(nodes, levels[l])
    ensures forall i :: 0 <= i < |levels[k]| && i != pp ==>
      InnerOk(nodes', low', caps, levels[k][i], k) && Child(nodes', levels[k][i]) == Child(nodes, levels[k][i])
    ensures Items(nodes', levels[0]) == Items(nodes, levels[0])
  {
    forall l, i | 0 <= l < |levels| && 0 <= i < |levels[l]| && (l != k || i != pp)
      ensures if l == 0 then LeafOk(nodes', low', caps, levels[l], i) else InnerOk(nodes', low', caps, levels[l][i], l)
      ensures levels[l][i] in nodes && levels[l][i] in nodes' && nodes'[levels[l][i]] == nodes[levels[l][i]]
      ensures Min(low', levels[l][i]) == Min(low, levels[l][i])
    {
      SplitOtherNode(nodes, levels, low, caps, k, p, b, pp, c, b2, nodes', low', l, i);
    }
    assert forall l :: 0 <= l < |levels| ==> Ordered(low, levels[l]);
    hide Gap, ParentSplit, LeafOk, InnerOk;
    forall l | 0 <= l < |levels| && l != k
      ensures LevelOk(nodes', low', caps, levels[l], l) && Ordered(low', levels[l])
      ensures Kids(nodes', levels[l]) == Kids(nodes, levels[l])
    {
      KidsFrame(nodes, nodes', levels[l]);
    }
    ItemsFrame(nodes, nodes', levels[0]);
  }

  lemma InsLevel<V>(nodes: Nodes<V>, low: Low, caps: Caps, ids: seq<nat>, k: nat, pp: nat, b2: nat)
    requires k > 0 && pp < |ids| && InnerOk(nodes, low, caps, b2, k)
    requires forall i :: 0 <= i < |ids| ==> InnerOk(nodes, low, caps, ids[i], k)
    ensures LevelOk(nodes, low, caps, Ins(ids, pp + 1, b2), k)
  {
    var all := Ins(ids, pp + 1, b2);
    hide InnerOk;
    forall i | 0 <= i < |all| ensures InnerOk(nodes, low, caps, all[i], k) {
      assert all[i] == if i <= pp then ids[i] else if i == pp + 1 then b2 else ids[i - 1];
    }
  }

  lemma SplitOwnLevel<V>(nodes: Nodes<V>, levels: Levels, low: Low, caps: Caps, k: nat, p: nat, b: nat, pp: nat,
                         c: nat, b2: nat, nodes': Nodes<V>, low': Low)
    requires Sensible(caps) && Gap(nodes, levels, low, caps, k, p, b, pp, c)
    requires ParentSplit(nodes, levels, low, caps, k, pp, c, b, b2, nodes', low')
    requires Ordered(low', levels[k - 1])
    requires forall i :: 0 <= i < |levels[k]| && i != pp ==>
      InnerOk(nodes', low', caps, levels[k][i], k) && Child(nodes', levels[k][i]) == Child(nodes, levels[k][i])
    ensures var ids := Ins(levels[k], pp + 1, b2);
      LevelOk(nodes', low', caps, ids, k) && Ordered(low', ids) && Kids(nodes', ids) == levels[k - 1]
  {
    var ids := Ins(levels[k], pp + 1, b2);
    SplitHalves(nodes, levels, low, caps, k, p, b, pp, c, b2, nodes', low');
    GapFilled(nodes, levels, low, caps, k, p, b, pp, c);
    hide Gap, ParentSplit, InnerOk;
    InsLevel(nodes', low', caps, levels[k], k, pp, b2);
    KidsWiden(nodes, nodes', levels[k], pp, b2);
    OrderedUp(nodes', low', caps, ids, k);
  }

  /** Splitting a full parent moves the gap one level up. */
  lemma SplitParent<V>(nodes: Nodes<V>, levels: Levels, low: Low, caps: Caps, k: nat, p: nat, b: nat, pp: nat, c: nat,
                       b2: nat, nodes': Nodes<V>, low': Low)
    requires Sensible(caps) && Gap(nodes, levels, low, caps, k, p, b, pp, c)
    requires ParentSplit(nodes, levels, low, caps, k, pp, c, b, b2, nodes', low')
    ensures Pending(nodes', Widen(levels, k, pp, b2), low', caps, k + 1, pp, b2)
    ensures Items(nodes', levels[0]) == Items(nodes, levels[0])
  {
    SplitLevels(nodes, levels, low, caps, k, p, b, pp, c, b2, nodes', low');
    SplitOwnLevel(nodes, levels, low, caps, k, p, b, pp, c, b2, nodes', low');
    WidenRemoved(levels[k], pp, b2);
    assert forall l :: 0 < l < |levels| && l != k ==> Linked(nodes, levels, l);
    WidenPending(nodes, nodes', levels, low', caps, k, pp, b2);
  }

  lemma WidenPending<V>(nodes: Nodes<V>, nodes': Nodes<V>, levels: Levels, low': Low, caps: Caps, k: nat, pp: nat,
                        b2: nat)
    requires 0 < k < |levels| && pp < |levels[k]| && |levels[|levels| - 1]| == 1
    requires forall l :: 0 < l < |levels| && l != k ==> Linked(nodes, levels, l)
    requires forall l :: 0 <= l < |levels| && l != k ==> LevelOk(nodes', low', caps, levels[l], l)
    requires forall l :: 0 <= l < |levels| && l != k ==> Ordered(low', levels[l])
    requires forall l :: 0 <= l < |levels| && l != k ==> Kids(nodes', levels[l]) == Kids(nodes, levels[l])
    requires var ids := Ins(levels[k], pp + 1, b2);
      LevelOk(nodes', low', caps, ids, k) && Ordered(low', ids) && Kids(nodes', ids) == levels[k - 1]
    ensures Pending(nodes', Widen(levels, k, pp, b2), low', caps, k + 1, pp, b2)
  {
    var levels' := Widen(levels, k, pp, b2);
    WidenRemoved(levels[k], pp, b2);
    hide LevelOk, Ordered, Ins;
    forall l | 0 < l < |levels'| && l != k + 1 ensures Linked(nodes', levels', l) {
      assert l != k ==> Linked(nodes, levels, l);
    }
    assert k + 1 < |levels| ==> Linked(nodes, levels, k + 1);
    assert AllLevels(nodes', levels', low', caps);
  }

  /** The leftmost node of every level gets the new smallest key x. */
  ghost function Lowered(low: Low, levels: Levels, x: nat): Low {
    var first := set k | 0 <= k < |levels| && levels[k] != [] :: levels[k][0];
    map id | id in low.Keys + first :: if id in first then x else low[id]
  }

  lemma LoweredAt<V>(nodes: Nodes<V>, levels: Levels, low: Low, caps: Caps, x: nat, k: nat, i: nat)
    requires AllLevels(nodes, levels, low, caps) && k < |levels| && i < |levels[k]|
    ensures Min(Lowered(low, levels, x), levels[k][i]) == if i == 0 then x else Min(low, levels[k][i])
  {
    var first := set k | 0 <= k < |levels| && levels[k] != [] :: levels[k][0];
    if i == 0 {
      assert levels[k][0] in first;
    } else if levels[k][i] in first {
      var l :| 0 <= l < |levels| && levels[l] != [] && levels[l][0] == levels[k][i];
      OnePlace(nodes, levels, low, caps, k, i, l, 0);
    }
  }

  lemma LoweredOrdered<V>(nodes: Nodes<V>, levels: Levels, low: Low, caps: Caps, x: nat, k: nat)
    requires AllLevels(nodes, levels, low, caps) && k < |levels|
    requires levels[k] != [] ==> x <= Min(low, levels[k][0])
    ensures Ordered(Lowered(low, levels, x), levels[k])
  {
    assert Ordered(low, levels[k]);
    forall i, j | 0 <= i < j < |levels[k]|
      ensures Min(Lowered(low, levels, x), levels[k][i]) < Min(Lowered(low, levels, x), levels[k][j])
    {
      LoweredAt(nodes, levels, low, caps, x, k, i);
      LoweredAt(nodes, levels, low, caps, x, k, j);
    }
  }

  lemma {:induction false} Leftmost<V>(nodes: Nodes<V>, levels: Levels, low: Low, caps: Caps, k: nat)
    requires AllLevels(nodes, levels, low, caps) && AllLinked(nodes, levels) && k < |levels|
    requires levels[k] != []
    ensures levels[0] != [] && Min(low, levels[k][0]) == Min(low, levels[0][0])
    decreases k
  {
    if k > 0 {
      LevelIn(nodes, levels, low, caps, k, 0);
      ChildPosition(nodes, levels[k], 0, 0);
      assert Linked(nodes, levels, k);
      assert levels[k][..0] == [];
      Leftmost(nodes, levels, low, caps, k - 1);
    }
  }

  lemma LoweredInner<V>(nodes: Nodes<V>, nodes': Nodes<V>, levels: Levels, low: Low, caps: Caps, x: nat, k: nat, i: nat)
    requires AllLevels(nodes, levels, low, caps) && 0 < k < |levels| && i < |levels[k]| && Linked(nodes, levels, k)
    requires levels[k][i] in nodes && levels[k][i] in nodes' && nodes'[levels[k][i]] == nodes[levels[k][i]]
    ensures InnerOk(nodes', Lowered(low, levels, x), caps, levels[k][i], k)
  {
    LevelIn(nodes, levels, low, caps, k, i);
    var low', n := Lowered(low, levels, x), nodes[levels[k][i]];
    LoweredAt(nodes, levels, low, caps, x, k, i);
    var o := Offset(nodes, levels[k], i);
    assert levels[k][..0] == [];
    if i > 0 {
      assert LevelOk(nodes, low, caps, levels[k], k);
      OffsetGrows(nodes, low, caps, levels[k], k, 0, i);
    }
    forall j | 0 <= j < |n.child| ensures Min(low', n.child[j]) == if o + j == 0 then x else Min(low, n.child[j]) {
      ChildPosition(nodes, levels[k], i, j);
      LoweredAt(nodes, levels, low, caps, x, k - 1, o + j);
    }
  }

  /** The leaf levels[0][p] may get the items: one more than before, within the bounds of the leaf. */
  ghost predicate LeafEdit<V>(nodes: Nodes<V>, levels: Levels, low: Low, p: nat, items: seq<Item<V>>) {
    && |levels| > 0 && p < |levels[0]| && levels[0][p] in nodes && nodes[levels[0][p]].Leaf?
    && |items| == |nodes[levels[0][p]].items| + 1
    && Sorted(items)
    && items[0].key <= Min(low, levels[0][p])
    && (p > 0 ==> items[0].key == Min(low, levels[0][p]))
    && (p + 1 < |levels[0]| ==> items[|items| - 1].key < Min(low, levels[0][p + 1]))
  }

  /** The smallest keys after the leaf levels[0][p] got a new first key x. */
  ghost function LowAfter(low: Low, levels: Levels, p: nat, x: nat): Low {
    if p == 0 then Lowered(low, levels, x) else low
  }

  lemma LowAfterAt<V>(nodes: Nodes<V>, levels: Levels, low: Low, caps: Caps, p: nat, x: nat, k: nat, i: nat)
    requires AllLevels(nodes, levels, low, caps) && k < |levels| && i < |levels[k]|
    ensures Min(LowAfter(low, levels, p, x), levels[k][i]) == if p == 0 && i == 0 then x else Min(low, levels[k][i])
  {
    LoweredAt(nodes, levels, low, caps, x, k, i);
  }

  /** The inner levels do not notice a change of the leaves, apart from the smallest key. */
  lemma InnerAfter<V>(nodes: Nodes<V>, nodes': Nodes<V>, levels: Levels, low: Low, caps: Caps, p: nat, x: nat, k: nat)
    requires AllLevels(nodes, levels, low, caps) && AllLinked(nodes, levels) && k < |levels| && levels[0] != []
    requires x <= Min(low, levels[0][0]) || p > 0
    requires forall id :: id in nodes && nodes[id].Inner? ==> id in nodes' && nodes'[id] == nodes[id]
    ensures Ordered(LowAfter(low, levels, p, x), levels[k])
    ensures k > 0 ==> LevelOk(nodes', LowAfter(low, levels, p, x), caps, levels[k], k)
    ensures k > 0 ==> Kids(nodes', levels[k]) == Kids(nodes, levels[k])
  {
    var low' := LowAfter(low, levels, p, x);
    if p == 0 {
      if levels[k] != [] { Leftmost(nodes, levels, low, caps, k); }
      LoweredOrdered(nodes, levels, low, caps, x, k);
    } else {
      assert Ordered(low, levels[k]);
    }
    if k > 0 {
      assert Linked(nodes, levels, k);
      forall i | 0 <= i < |levels[k]|
        ensures InnerOk(nodes', low', caps, levels[k][i], k)
        ensures Child(nodes', levels[k][i]) == Child(nodes, levels[k][i])
      {
        LevelIn(nodes, levels, low, caps, k, i);
        if p == 0 { LoweredInner(nodes, nodes', levels, low, caps, x, k, i); }
      }
      KidsFrame(nodes, nodes', levels[k]);
    }
  }

  lemma InnersAfter<V>(nodes: Nodes<V>, nodes': Nodes<V>, levels: Levels, low: Low, caps: Caps, p: nat, x: nat)
    requires AllLevels(nodes, levels, low, caps) && AllLinked(nodes, levels) && |levels| > 0 && levels[0] != []
    requires x <= Min(low, levels[0][0]) || p > 0
    requires forall id :: id in nodes && nodes[id].Inner? ==> id in nodes' && nodes'[id] == nodes[id]
    ensures forall k :: 0 <= k < |levels| ==> Ordered(LowAfter(low, levels, p, x), levels[k])
    ensures forall k :: 0 < k < |levels| ==> LevelOk(nodes', LowAfter(low, levels, p, x), caps, levels[k], k)
    ensures AllLinked(nodes', levels)
  {
    forall k | 0 <= k < |levels|
      ensures Ordered(LowAfter(low, levels, p, x), levels[k])
      ensures k > 0 ==> LevelOk(nodes', LowAfter(low, levels, p, x), caps, levels[k], k)
      ensures k > 0 ==> Linked(nodes', levels, k)
    {
      InnerAfter(nodes, nodes', levels, low, caps, p, x, k);
      assert k > 0 ==> Linked(nodes, levels, k);
    }
  }

  /** All leaves but levels[0][p] are untouched. */
  lemma OtherLeaf<V>(nodes: Nodes<V>, levels: Levels, low: Low, caps: Caps, p: nat, x: nat, i: nat)
    requires AllLevels(nodes, levels, low, caps) && |levels| > 0 && p < |levels[0]| && i < |levels[0]| && i != p
    ensures levels[0][i] != levels[0][p] && levels[0][i] in nodes && LeafOk(nodes, low, caps, levels[0], i)
    ensures p > 0 || i > 0 ==> Min(LowAfter(low, levels, p, x), levels[0][i]) == Min(low, levels[0][i])
    ensures i + 1 < |levels[0]| && i + 1 != p ==>
      Min(LowAfter(low, levels, p, x), levels[0][i + 1]) == Min(low, levels[0][i + 1])
    ensures i + 1 == p ==> Min(LowAfter(low, levels, p, x), levels[0][p]) == Min(low, levels[0][p])
  {
    LevelIn(nodes, levels, low, caps, 0, i);
    LowAfterAt(nodes, levels, low, caps, p, x, 0, i);
    if i + 1 < |levels[0]| { LowAfterAt(nodes, levels, low, caps, p, x, 0, i + 1); }
    assert Ordered(low, levels[0]);
    if levels[0][i] == levels[0][p] { OrderedDistinct(low, levels[0], i, p); }
  }

  lemma FillLeafLevel<V>(nodes: Nodes<V>, levels: Levels, low: Low, caps: Caps, p: nat, items: seq<Item<V>>,
                         nodes': Nodes<V>)
    requires AllLevels(nodes, levels, low, caps) && LeafEdit(nodes, levels, low, p, items) && |items| <= caps.leaf
    requires nodes' == nodes[levels[0][p] := Leaf(items, nodes[levels[0][p]].next)]
    ensures LevelOk(nodes', LowAfter(low, levels, p, items[0].key), caps, levels[0], 0)
    ensures Items(nodes', levels[0]) == Items(nodes, levels[0][..p]) + items + Items(nodes, levels[0][p + 1..])
  {
    var ids, low' := levels[0], LowAfter(low, levels, p, items[0].key);
    forall i | 0 <= i < |ids| ensures LeafOk(nodes', low', caps, ids, i) && (i != p ==> ids[i] != ids[p]) {
      LevelIn(nodes, levels, low, caps, 0, i);
      if i != p {
        OtherLeaf(nodes, levels, low, caps, p, items[0].key, i);
      } else {
        LowAfterAt(nodes, levels, low, caps, p, items[0].key, 0, p);
        if p + 1 < |ids| { LowAfterAt(nodes, levels, low, caps, p, items[0].key, 0, p + 1); }
      }
    }
    ItemsReplace(nodes, nodes', ids, p);
  }

  /** The new items fit into their leaf. */
  lemma FillLeaf<V>(nodes: Nodes<V>, root: nat, levels: Levels, low: Low, caps: Caps, p: nat, items: seq<Item<V>>,
                    nodes': Nodes<V>)
    requires Tree(nodes, root, levels, low, caps) && LeafEdit(nodes, levels, low, p, items) && |items| <= caps.leaf
    requires nodes' == nodes[levels[0][p] := Leaf(items, nodes[levels[0][p]].next)]
    ensures Tree(nodes', root, levels, LowAfter(low, levels, p, items[0].key), caps)
    ensures Items(nodes', levels[0]) == Items(nodes, levels[0][..p]) + items + Items(nodes, levels[0][p + 1..])
  {
    FillLeafLevel(nodes, levels, low, caps, p, items, nodes');
    assert p > 0 || items[0].key <= Min(low, levels[0][0]);
    InnersAfter(nodes, nodes', levels, low, caps, p, items[0].key);
  }

  /** What a split of the full leaf levels[0][p] into itself and a new leaf b produces. */
  ghost predicate LeafSplit<V>(nodes: Nodes<V>, levels: Levels, low: Low, caps: Caps, p: nat, items: seq<Item<V>>,
                               b: nat, nodes': Nodes<V>, low': Low)
  {
    && LeafEdit(nodes, levels, low, p, items) && |items| == caps.leaf + 1
    && b != 0 && b !in nodes
    && var m := (caps.leaf + 1) - (caps.leaf + 1) / 2;
       && m < |items|
       && nodes' == nodes[levels[0][p] := Leaf(items[..m], b)][b := Leaf(items[m..], nodes[levels[0][p]].next)]
       && low' == LowAfter(low, levels, p, items[0].key)[b := items[m].key]
  }

  lemma SplitItems<V>(nodes: Nodes<V>, nodes': Nodes<V>, ids: seq<nat>, p: nat, b: nat)
    requires p < |ids|
    requires forall i :: 0 <= i < |ids| && i != p ==> ItemsOf(nodes, ids[i]) == ItemsOf(nodes', ids[i])
    ensures Items(nodes', Ins(ids, p + 1, b)) ==
      Items(nodes, ids[..p]) + (ItemsOf(nodes', ids[p]) + ItemsOf(nodes', b)) + Items(nodes, ids[p + 1..])
  {
    ItemsReplace(nodes, nodes', ids, p);
    ItemsAt(nodes', ids, p);
    ItemsParts(nodes', ids, p, b);
    forall id | id in ids[..p] ensures ItemsOf(nodes, id) == ItemsOf(nodes', id) {
      var i :| 0 <= i < p && ids[i] == id;
    }
    ItemsFrame(nodes, nodes', ids[..p]);
    forall id | id in ids[p + 1..] ensures ItemsOf(nodes, id) == ItemsOf(nodes', id) {
      var i :| p < i < |ids| && ids[i] == id;
    }
    ItemsFrame(nodes, nodes', ids[p + 1..]);
  }

  lemma ItemsParts<V>(nodes: Nodes<V>, ids: seq<nat>, p: nat, b: nat)
    requires p < |ids|
    ensures Items(nodes, Ins(ids, p + 1, b)) ==
      Items(nodes, ids[..p]) + (ItemsOf(nodes, ids[p]) + ItemsOf(nodes, b)) + Items(nodes, ids[p + 1..])
  {
    var left, right := ids[..p], ids[p + 1..];
    assert Ins(ids, p + 1, b) == (left + ([ids[p]] + [b])) + right;
    ItemsConcat(nodes, left + ([ids[p]] + [b]), right);
    ItemsConcat(nodes, left, [ids[p]] + [b]);
    ItemsConcat(nodes, [ids[p]], [b]);
    ItemsOne(nodes, ids[p]);
    ItemsOne(nodes, b);
  }

  /** A leaf left of the split one. */
  lemma SplitLeafLeft<V>(nodes: Nodes<V>, levels: Levels, low: Low, caps: Caps, p: nat, items: seq<Item<V>>, b: nat,
                         nodes': Nodes<V>, low': Low, i: nat)
    requires AllLevels(nodes, levels, low, caps) && LeafSplit(nodes, levels, low, caps, p, items, b, nodes', low')
    requires i < p
    ensures LeafOk(nodes', low', caps, Ins(levels[0], p + 1, b), i)
  {
    var ids := Ins(levels[0], p + 1, b);
    OtherLeaf(nodes, levels, low, caps, p, items[0].key, i);
    LevelIn(nodes, levels, low, caps, 0, i + 1);
    assert ids[i] == levels[0][i] && ids[i + 1] == levels[0][i + 1];
  }

  lemma SplitLeafRight<V>(nodes: Nodes<V>, levels: Levels, low: Low, caps: Caps, p: nat, items: seq<Item<V>>, b: nat,
                          nodes': Nodes<V>, low': Low, i: nat)
    requires AllLevels(nodes, levels, low, caps) && LeafSplit(nodes, levels, low, caps, p, items, b, nodes', low')
    requires p < i < |levels[0]|
    ensures LeafOk(nodes', low', caps, Ins(levels[0], p + 1, b), i + 1)
  {
    var ids := Ins(levels[0], p + 1, b);
    OtherLeaf(nodes, levels, low, caps, p, items[0].key, i);
    assert ids[i + 1] == levels[0][i];
    if i + 1 < |levels[0]| {
      LevelIn(nodes, levels, low, caps, 0, i + 1);
      assert ids[i + 2] == levels[0][i + 1];
    }
  }

  /** The two leaves that share the items. */
  lemma SplitLeafOwn<V>(nodes: Nodes<V>, levels: Levels, low: Low, caps: Caps, p: nat, items: seq<Item<V>>, b: nat,
                        nodes': Nodes<V>, low': Low)
    requires Sensible(caps) && AllLevels(nodes, levels, low, caps)
    requires LeafSplit(nodes, levels, low, caps, p, items, b, nodes', low')
    ensures LeafOk(nodes', low', caps, Ins(levels[0], p + 1, b), p)
    ensures LeafOk(nodes', low', caps, Ins(levels[0], p + 1, b), p + 1)
  {
    var ids, x := Ins(levels[0], p + 1, b), items[0].key;
    LevelIn(nodes, levels, low, caps, 0, p);
    LowAfterAt(nodes, levels, low, caps, p, x, 0, p);
    assert ids[p] == levels[0][p] && ids[p + 1] == b;
    if p + 1 < |levels[0]| {
      LevelIn(nodes, levels, low, caps, 0, p + 1);
      LowAfterAt(nodes, levels, low, caps, p, x, 0, p + 1);
      assert ids[p + 2] == levels[0][p + 1];
    }
  }

  lemma InsOrdered(low: Low, ids: seq<nat>, p: nat, b: nat)
    requires p < |ids| && Ordered(low, ids) && Min(low, ids[p]) < Min(low, b)
    requires p + 1 < |ids| ==> Min(low, b) < Min(low, ids[p + 1])
    ensures Ordered(low, Ins(ids, p + 1, b))
  {
    var all := Ins(ids, p + 1, b);
    forall i, j | 0 <= i < j < |all| ensures Min(low, all[i]) < Min(low, all[j]) {
      var i', j' := if i <= p then i else i - 1, if j <= p then j else j - 1;
      assert i != p + 1 ==> all[i] == ids[i'];
      assert j != p + 1 ==> all[j] == ids[j'];
    }
  }

  lemma SplitLeafOrdered<V>(nodes: Nodes<V>, levels: Levels, low: Low, caps: Caps, p: nat, items: seq<Item<V>>, b: nat,
                            nodes': Nodes<V>, low': Low)
    requires AllLevels(nodes, levels, low, caps)
    requires LeafSplit(nodes, levels, low, caps, p, items, b, nodes', low')
    requires Ordered(LowAfter(low, levels, p, items[0].key), levels[0])
    ensures Ordered(low', Ins(levels[0], p + 1, b))
  {
    var low1, ids := LowAfter(low, levels, p, items[0].key), levels[0];
    forall i | 0 <= i < |ids| ensures Min(low', ids[i]) == Min(low1, ids[i]) {
      LevelIn(nodes, levels, low, caps, 0, i);
    }
    LowAfterAt(nodes, levels, low, caps, p, items[0].key, 0, p);
    if p + 1 < |ids| { LowAfterAt(nodes, levels, low, caps, p, items[0].key, 0, p + 1); }
    InsOrdered(low', ids, p, b);
  }

  /** A new node outside of the tree does not disturb an inner level. */
  lemma FreshInner<V>(nodes: Nodes<V>, nodes': Nodes<V>, levels: Levels, low: Low, low1: Low, caps: Caps, b: nat,
                      y: nat, k: nat)
    requires AllLevels(nodes, levels, low, caps) && 0 < k < |levels| && Linked(nodes', levels, k) && b !in nodes
    requires LevelOk(nodes', low1, caps, levels[k], k) && Ordered(low1, levels[k])
    ensures LevelOk(nodes', low1[b := y], caps, levels[k], k) && Ordered(low1[b := y], levels[k])
  {
    forall i | 0 <= i < |levels[k]|
      ensures InnerOk(nodes', low1[b := y], caps, levels[k][i], k)
      ensures Min(low1[b := y], levels[k][i]) == Min(low1, levels[k][i])
    {
      LevelIn(nodes, levels, low, caps, k, i);
      assert InnerOk(nodes', low1, caps, levels[k][i], k);
      forall x | x in nodes'[levels[k][i]].child ensures Min(low1[b := y], x) == Min(low1, x) {
        ChildInLevel(nodes', levels[k], i, x);
        var j :| 0 <= j < |levels[k - 1]| && levels[k - 1][j] == x;
        LevelIn(nodes, levels, low, caps, k - 1, j);
      }
      InnerFrame(nodes', nodes', low1, low1[b := y], caps, levels[k][i], k);
    }
  }

  /** Splitting the full leaf leaves a gap in the level above. */
  lemma SplitLeaf<V>(nodes: Nodes<V>, root: nat, levels: Levels, low: Low, caps: Caps, p: nat, items: seq<Item<V>>,
                     b: nat, nodes': Nodes<V>, low': Low)
    requires Sensible(caps) && Tree(nodes, root, levels, low, caps)
    requires LeafSplit(nodes, levels, low, caps, p, items, b, nodes', low')
    ensures Pending(nodes', Widen(levels, 0, p, b), low', caps, 1, p, b)
    ensures Items(nodes', Widen(levels, 0, p, b)[0]) ==
      Items(nodes, levels[0][..p]) + items + Items(nodes, levels[0][p + 1..])
  {
    hide LevelOk, Ordered, Bounded, Kids, Linked;
    var ids, levels', x := levels[0], Widen(levels, 0, p, b), items[0].key;
    assert p > 0 || x <= Min(low, ids[0]);
    InnersAfter(nodes, nodes', levels, low, caps, p, x);
    SplitLeafOrdered(nodes, levels, low, caps, p, items, b, nodes', low');
    forall i | 0 <= i < |ids| && i != p ensures ItemsOf(nodes, ids[i]) == ItemsOf(nodes', ids[i]) {
      OtherLeaf(nodes, levels, low, caps, p, x, i);
    }
    SplitItems(nodes, nodes', ids, p, b);
    SplitLeafContents(nodes, levels, low, caps, p, items, b, nodes', low');
    SplitLeafLevel(nodes, levels, low, caps, p, items, b, nodes', low');
    forall k | 0 < k < |levels| ensures LevelOk(nodes', low', caps, levels[k], k) && Ordered(low', levels[k]) {
      assert Linked(nodes', levels, k);
      var m := (caps.leaf + 1) - (caps.leaf + 1) / 2;
      FreshInner(nodes, nodes', levels, low, LowAfter(low, levels, p, x), caps, b, items[m].key, k);
    }
    WidenLeaves(nodes', levels, low', caps, p, b);
  }

  lemma SplitLeafContents<V>(nodes: Nodes<V>, levels: Levels, low: Low, caps: Caps, p: nat, items: seq<Item<V>>, b: nat,
                             nodes': Nodes<V>, low': Low)
    requires LeafSplit(nodes, levels, low, caps, p, items, b, nodes', low')
    ensures ItemsOf(nodes', levels[0][p]) + ItemsOf(nodes', b) == items
  {
  }

  lemma LeafSplitAt<V>(nodes: Nodes<V>, levels: Levels, low: Low, caps: Caps, p: nat, items: seq<Item<V>>, b: nat,
                       nodes': Nodes<V>, low': Low)
    requires LeafSplit(nodes, levels, low, caps, p, items, b, nodes', low')
    ensures |levels| > 0 && p < |levels[0]|
  {
  }

  lemma SplitLeafLevel<V>(nodes: Nodes<V>, levels: Levels, low: Low, caps: Caps, p: nat, items: seq<Item<V>>, b: nat,
                          nodes': Nodes<V>, low': Low)
    requires Sensible(caps) && AllLevels(nodes, levels, low, caps)
    requires LeafSplit(nodes, levels, low, caps, p, items, b, nodes', low')
    ensures LevelOk(nodes', low', caps, Ins(levels[0], p + 1, b), 0)
  {
    hide LeafOk, AllLevels, LeafSplit;
    LeafSplitAt(nodes, levels, low, caps, p, items, b, nodes', low');
    var ids := Ins(levels[0], p + 1, b);
    SplitLeafOwn(nodes, levels, low, caps, p, items, b, nodes', low');
    forall i | 0 <= i < |ids| ensures LeafOk(nodes', low', caps, ids, i) {
      if i < p {
        SplitLeafLeft(nodes, levels, low, caps, p, items, b, nodes', low', i);
      } else if i > p + 1 {
        SplitLeafRight(nodes, levels, low, caps, p, items, b, nodes', low', i - 1);
      }
    }
  }

  lemma WidenLeaves<V>(nodes: Nodes<V>, levels: Levels, low: Low, caps: Caps, p: nat, b: nat)
    requires |levels| > 0 && p < |levels[0]| && |levels[|levels| - 1]| == 1 && AllLinked(nodes, levels)
    requires LevelOk(nodes, low, caps, Ins(levels[0], p + 1, b), 0) && Ordered(low, Ins(levels[0], p + 1, b))
    requires forall k :: 0 < k < |levels| ==> LevelOk(nodes, low, caps, levels[k], k)
    requires forall k :: 0 < k < |levels| ==> Ordered(low, levels[k])
    ensures Pending(nodes, Widen(levels, 0, p, b), low, caps, 1, p, b)
  {
    var levels' := Widen(levels, 0, p, b);
    WidenRemoved(levels[0], p, b);
    hide LevelOk, Ordered, Ins;
    forall l | 1 < l < |levels'| ensures Linked(nodes, levels', l) {
      assert Linked(nodes, levels, l);
    }
    assert 1 < |levels| ==> Linked(nodes, levels, 1);
  }

  /** The path steps at level k and above. */
  ghost predicate PathFrom<V>(nodes: Nodes<V>, levels: Levels, path: seq<PathStep>, pos: seq<nat>, k: nat) {
    && |pos| == |levels| && |path| + 1 == |levels| && k > 0
    && forall j :: k <= j < |levels| ==> StepOk(nodes, levels, path, pos, j)
  }

  lemma PathFrame<V>(nodes: Nodes<V>, nodes': Nodes<V>, levels: Levels, levels': Levels, path: seq<PathStep>,
                     pos: seq<nat>, k: nat)
    requires PathFrom(nodes, levels, path, pos, k) && |levels'| == |levels|
    requires forall j :: k <= j < |levels| ==> levels'[j] == levels[j]
    requires forall j, i :: k <= j < |levels| && 0 <= i < |levels[j]| ==>
      Child(nodes', levels[j][i]) == Child(nodes, levels[j][i])
    ensures PathFrom(nodes', levels', path, pos, k)
  {
    forall j | k <= j < |levels| ensures StepOk(nodes', levels', path, pos, j) {
      assert StepOk(nodes, levels, path, pos, j);
      var ids := levels[j][..pos[j]];
      forall id | id in ids ensures Child(nodes, id) == Child(nodes', id) {
        var i :| 0 <= i < pos[j] && levels[j][i] == id;
      }
      KidsFrame(nodes, nodes', ids);
    }
  }

  ghost predicate Bounded<V>(nodes: Nodes<V>, top: nat) {
    top > 0 && forall id :: id in nodes ==> id < top
  }

  /** A new root above the two nodes that the split of the old root left. */
  lemma GrowRoot<V>(nodes: Nodes<V>, levels: Levels, low: Low, caps: Caps, p: nat, b: nat, r: nat, a: nat, key2: nat)
    requires Sensible(caps) && Pending(nodes, levels, low, caps, |levels|, p, b)
    requires r != 0 && r !in nodes && a == levels[|levels| - 1][0] && key2 == Min(low, b)
    ensures var nodes' := nodes[r := Inner(|levels|, [key2], [a, b])];
      Tree(nodes', r, levels + [[r]], low[r := Min(low, a)], caps)
    ensures Items(nodes[r := Inner(|levels|, [key2], [a, b])], levels[0]) == Items(nodes, levels[0])
  {
    var h := |levels|;
    var nodes', levels', low' := nodes[r := Inner(h, [key2], [a, b])], levels + [[r]], low[r := Min(low, a)];
    assert p == 0 && levels[h - 1] == [a, b];
    GrowOthers(nodes, levels, low, caps, p, b, r, Inner(h, [key2], [a, b]), Min(low, a));
    LevelIn(nodes, levels, low, caps, h - 1, 0);
    LevelIn(nodes, levels, low, caps, h - 1, 1);
    assert InnerOk(nodes', low', caps, r, h);
    KidsOne(nodes', r);
    forall k | 0 <= k < |levels'|
      ensures LevelOk(nodes', low', caps, levels'[k], k) && Ordered(low', levels'[k])
      ensures k > 0 ==> Linked(nodes', levels', k)
    {
      if 0 < k < h { assert Linked(nodes, levels, k); }
    }
  }

  lemma GrowOthers<V>(nodes: Nodes<V>, levels: Levels, low: Low, caps: Caps, p: nat, b: nat, r: nat, n: BNode<V>,
                      y: nat)
    requires Pending(nodes, levels, low, caps, |levels|, p, b) && r !in nodes
    ensures forall k :: 0 <= k < |levels| ==> LevelOk(nodes[r := n], low[r := y], caps, levels[k], k)
    ensures forall k :: 0 <= k < |levels| ==> Ordered(low[r := y], levels[k])
    ensures forall k :: 0 <= k < |levels| ==> Kids(nodes[r := n], levels[k]) == Kids(nodes, levels[k])
    ensures Items(nodes[r := n], levels[0]) == Items(nodes, levels[0])
  {
    var nodes', low' := nodes[r := n], low[r := y];
    forall k, i | 0 <= k < |levels| && 0 <= i < |levels[k]|
      ensures levels[k][i] in nodes && levels[k][i] != r && nodes'[levels[k][i]] == nodes[levels[k][i]]
      ensures Min(low', levels[k][i]) == Min(low, levels[k][i])
      ensures if k == 0 then LeafOk(nodes', low', caps, levels[k], i) else InnerOk(nodes', low', caps, levels[k][i], k)
    {
      LevelIn(nodes, levels, low, caps, k, i);
      if k > 0 {
        forall x | x in nodes[levels[k][i]].child ensures Min(low', x) == Min(low, x) {
          ChildrenIn(nodes, levels, low, caps, |levels|, p, b, k, i, x);
        }
        InnerFrame(nodes, nodes', low, low', caps, levels[k][i], k);
      } else if i + 1 < |levels[0]| {
        LevelIn(nodes, levels, low, caps, 0, i + 1);
      }
    }
    assert forall k :: 0 <= k < |levels| ==> Ordered(low, levels[k]);
    hide LeafOk, InnerOk, Pending;
    forall k | 0 <= k < |levels|
      ensures LevelOk(nodes', low', caps, levels[k], k) && Ordered(low', levels[k])
      ensures Kids(nodes', levels[k]) == Kids(nodes, levels[k])
    {
      KidsFrame(nodes, nodes', levels[k]);
    }
    ItemsFrame(nodes, nodes', levels[0]);
  }

  lemma GapAt<V>(nodes: Nodes<V>, levels: Levels, low: Low, caps: Caps, path: seq<PathStep>, pos: seq<nat>, k: nat,
                 b: nat)
    requires PathFrom(nodes, levels, path, pos, k) && 0 < k < |levels|
    requires Pending(nodes, levels, low, caps, k, pos[k - 1], b)
    ensures var s := path[|path| - k];
      && Gap(nodes, levels, low, caps, k, pos[k - 1], b, pos[k], s.ichild)
      && s.parent == levels[k][pos[k]] && s.parent in nodes && nodes[s.parent].Inner?
      && s.ichild < |nodes[s.parent].child| <= caps.child && s.ichild <= |nodes[s.parent].keys|
      && |nodes[s.parent].keys| + 1 == |nodes[s.parent].child|
  {
    assert StepOk(nodes, levels, path, pos, k);
    LevelIn(nodes, levels, low, caps, k, pos[k]);
  }

  lemma AfterParentSplit<V>(nodes: Nodes<V>, levels: Levels, low: Low, caps: Caps, path: seq<PathStep>, pos: seq<nat>,
                            k: nat, b: nat, b2: nat, nodes': Nodes<V>, low': Low, root: nat)
    requires Sensible(caps) && PathFrom(nodes, levels, path, pos, k) && 0 < k < |levels|
    requires Gap(nodes, levels, low, caps, k, pos[k - 1], b, pos[k], path[|path| - k].ichild)
    requires ParentSplit(nodes, levels, low, caps, k, pos[k], path[|path| - k].ichild, b, b2, nodes', low')
    requires levels[|levels| - 1] == [root]
    ensures var levels' := Widen(levels, k, pos[k], b2);
      && Pending(nodes', levels', low', caps, k + 1, pos[k], b2)
      && PathFrom(nodes', levels', path, pos, k + 1)
      && (k + 1 < |levels| ==> levels'[|levels| - 1] == [root])
      && levels'[k][pos[k]] == levels[k][pos[k]]
    ensures Items(nodes', levels[0]) == Items(nodes, levels[0])
  {
    var c := path[|path| - k].ichild;
    SplitParent(nodes, levels, low, caps, k, pos[k - 1], b, pos[k], c, b2, nodes', low');
    forall j, i | k + 1 <= j < |levels| && 0 <= i < |levels[j]|
      ensures Child(nodes', levels[j][i]) == Child(nodes, levels[j][i])
    {
      SplitOtherNode(nodes, levels, low, caps, k, pos[k - 1], b, pos[k], c, b2, nodes', low', j, i);
    }
    hide Gap, ParentSplit, Pending;
    assert PathFrom(nodes, levels, path, pos, k + 1);
    PathFrame(nodes, nodes', levels, Widen(levels, k, pos[k], b2), path, pos, k + 1);
  }

  /** All levels below k are complete; node2, with the smallest key key2, stands
      right of the node the path leads to, but its parent does not know it yet. */
  ghost predicate Climbing<V>(nodes: Nodes<V>, root: nat, top: nat, levels: Levels, low: Low, caps: Caps,
                              path: seq<PathStep>, pos: seq<nat>, k: nat, node: nat, node2: nat, key2: nat)
  {
    && |pos| == |levels| && |path| + 1 == |levels| && 0 < k <= |levels|
    && Pending(nodes, levels, low, caps, k, pos[k - 1], node2)
    && Bounded(nodes, top)
    && PathFrom(nodes, levels, path, pos, k)
    && (if k < |levels| then levels[|levels| - 1] == [root] else node == root)
    && key2 == Min(low, node2) && node == levels[k - 1][pos[k - 1]]
  }

  lemma ClimbParent<V>(nodes: Nodes<V>, root: nat, top: nat, levels: Levels, low: Low, caps: Caps, path: seq<PathStep>,
                       pos: seq<nat>, k: nat, node: nat, node2: nat, key2: nat)
    requires Climbing(nodes, root, top, levels, low, caps, path, pos, k, node, node2, key2) && k < |levels|
    ensures 0 < k <= |path| && |pos| == |levels| == |path| + 1
    ensures var s := path[|path| - k];
      && s.parent in nodes && nodes[s.parent].Inner? && pos[k] < |levels[k]| && s.parent == levels[k][pos[k]]
      && s.ichild < |nodes[s.parent].child| <= caps.child && s.ichild <= |nodes[s.parent].keys|
      && |nodes[s.parent].keys| + 1 == |nodes[s.parent].child|
  {
    GapAt(nodes, levels, low, caps, path, pos, k, node2);
  }

  lemma ClimbFill<V>(nodes: Nodes<V>, root: nat, top: nat, levels: Levels, low: Low, caps: Caps, path: seq<PathStep>,
                     pos: seq<nat>, k: nat, node: nat, node2: nat, key2: nat)
    requires Climbing(nodes, root, top, levels, low, caps, path, pos, k, node, node2, key2) && k < |levels|
    requires var s := path[|path| - k];
      s.parent in nodes && nodes[s.parent].Inner? && s.ichild < |nodes[s.parent].child| < caps.child
      && s.ichild <= |nodes[s.parent].keys|
    ensures var s := path[|path| - k];
      var n := nodes[s.parent];
      var (keys, child) := WithChild(n.keys, n.child, s.ichild, key2, node2);
      var nodes' := nodes[s.parent := Inner(n.level, keys, child)];
      && Tree(nodes', root, levels, low, caps) && Bounded(nodes', top)
      && Items(nodes', levels[0]) == Items(nodes, levels[0])
  {
    GapAt(nodes, levels, low, caps, path, pos, k, node2);
    var s := path[|path| - k];
    var n := nodes[s.parent];
    var (keys, child) := WithChild(n.keys, n.child, s.ichild, key2, node2);
    FillParent(nodes, levels, low, caps, k, pos[k - 1], node2, pos[k], s.ichild, Inner(n.level, keys, child));
  }

  lemma ClimbSplit<V>(nodes: Nodes<V>, root: nat, top: nat, levels: Levels, low: Low, caps: Caps, path: seq<PathStep>,
                      pos: seq<nat>, k: nat, node: nat, node2: nat, key2: nat, nodes': Nodes<V>)
    requires Sensible(caps)
    requires Climbing(nodes, root, top, levels, low, caps, path, pos, k, node, node2, key2) && k < |levels|
    requires var s := path[|path| - k];
      && s.parent in nodes && nodes[s.parent].Inner? && pos[k] < |levels[k]|
      && s.parent == levels[k][pos[k]] && s.ichild < |nodes[s.parent].child| == caps.child
      && s.ichild <= |nodes[s.parent].keys| && |nodes[s.parent].keys| + 1 == caps.child
      && var n := nodes[s.parent];
         var (keys, child) := WithChild(n.keys, n.child, s.ichild, key2, node2);
         var m := (caps.child + 1) - (caps.child + 1) / 2;
         nodes' == nodes[s.parent := Inner(n.level, keys[..m - 1], child[..m])]
           [top := Inner(n.level, keys[m..], child[m..])]
    ensures var s := path[|path| - k];
      var n := nodes[s.parent];
      var (keys, child) := WithChild(n.keys, n.child, s.ichild, key2, node2);
      var m := (caps.child + 1) - (caps.child + 1) / 2;
      && Climbing(nodes', root, top + 1, Widen(levels, k, pos[k], top), low[top := keys[m - 1]], caps, path, pos, k + 1,
                  s.parent, top, keys[m - 1])
      && Items(nodes', Widen(levels, k, pos[k], top)[0]) == Items(nodes, levels[0])
  {
    hide AllLevels, Linked, Gap, StepOk, PathFrom, Pending;
    var s := path[|path| - k];
    var n := nodes[s.parent];
    var (keys, child) := WithChild(n.keys, n.child, s.ichild, key2, node2);
    var m := (caps.child + 1) - (caps.child + 1) / 2;
    GapAt(nodes, levels, low, caps, path, pos, k, node2);
    AfterParentSplit(nodes, levels, low, caps, path, pos, k, node2, top, nodes', low[top := keys[m - 1]], root);
  }

  lemma ClimbRoot<V>(nodes: Nodes<V>, root: nat, top: nat, levels: Levels, low: Low, caps: Caps, path: seq<PathStep>,
                     pos: seq<nat>, k: nat, node: nat, node2: nat, key2: nat)
    requires Sensible(caps)
    requires Climbing(nodes, root, top, levels, low, caps, path, pos, k, node, node2, key2) && k == |levels|
    ensures node2 in nodes
    ensures var level := if nodes[node2].Inner? then nodes[node2].level + 1 else 1;
      var nodes' := nodes[top := Inner(level, [key2], [node, node2])];
      && Tree(nodes', top, levels + [[top]], low[top := Min(low, node)], caps) && Bounded(nodes', top + 1)
      && Items(nodes', (levels + [[top]])[0]) == Items(nodes, levels[0])
  {
    LevelIn(nodes, levels, low, caps, k - 1, pos[k - 1] + 1);
    GrowRoot(nodes, levels, low, caps, pos[k - 1], node2, top, node, key2);
  }

  /** The node is at least half full. */
  predicate HalfFull<V>(n: BNode<V>, caps: Caps) {
    match n
    case Leaf(items, _) => |items| >= (caps.leaf + 1) / 2
    case Inner(_, _, child) => |child| >= (caps.child + 1) / 2
  }

  /** All nodes but the root are at least half full. */
  ghost predicate Filled<V>(nodes: Nodes<V>, root: nat, caps: Caps) {
    forall id :: id in nodes && id != root ==> HalfFull(nodes[id], caps)
  }

  /** Another node becomes n, which is half full, or replaces the root. */
  lemma FilledMore<V>(nodes: Nodes<V>, root: nat, caps: Caps, id: nat, n: BNode<V>)
    requires Filled(nodes, root, caps) && (id != root ==> HalfFull(n, caps))
    ensures Filled(nodes[id := n], root, caps)
  {
  }

  /** A full leaf is split. */
  lemma FilledSplit<V>(nodes: Nodes<V>, root: nat, caps: Caps, leaf: nat, items: seq<Item<V>>, b: nat, next: nat)
    requires Filled(nodes, root, caps) && |items| == caps.leaf + 1 && leaf != b
    ensures var m := (caps.leaf + 1) - (caps.leaf + 1) / 2;
      var nodes' := nodes[leaf := Leaf(items[..m], b)][b := Leaf(items[m..], next)];
      Filled(nodes', root, caps) && HalfFull(nodes'[leaf], caps)
  {
  }

  lemma FilledLeaf<V>(nodes: Nodes<V>, root: nat, caps: Caps, leaf: nat, items: seq<Item<V>>, next: nat)
    requires Filled(nodes, root, caps) && (leaf != root ==> |items| >= (caps.leaf + 1) / 2)
    ensures Filled(nodes[leaf := Leaf(items, next)], root, caps)
  {
  }

  lemma FilledRoot<V>(nodes: Nodes<V>, root: nat, caps: Caps, root': nat, n: BNode<V>)
    requires Filled(nodes, root, caps) && (root in nodes ==> HalfFull(nodes[root], caps))
    ensures Filled(nodes[root' := n], root', caps)
  {
  }

  lemma FilledAt<V>(nodes: Nodes<V>, root: nat, caps: Caps, id: nat)
    requires Filled(nodes, root, caps) && id in nodes && id != root
    ensures HalfFull(nodes[id], caps)
  {
  }

  /** Enters node2 into its parent path[depth]; a full parent is split in two. */
  method EnterParent<V>(nodes0: Nodes<V>, top0: nat, caps: Caps, path: seq<PathStep>, depth: nat, node2: nat, key2: nat,
                        ghost root: nat, ghost levels0: Levels, ghost low0: Low,
                        ghost pos: seq<nat>, ghost k: nat, ghost node: nat)
    returns (nodes: Nodes<V>, top: nat, parent: nat, split: bool, newKey: nat, ghost levels: Levels, ghost low: Low)
    requires Sensible(caps) && k < |levels0| && depth == |path| - k
    requires Climbing(nodes0, root, top0, levels0, low0, caps, path, pos, k, node, node2, key2)
    requires Filled(nodes0, root, caps)
    ensures |levels| == |levels0| && Items(nodes, levels[0]) == Items(nodes0, levels0[0])
    ensures Filled(nodes, root, caps) && (split ==> parent in nodes && HalfFull(nodes[parent], caps))
    ensures split ==> Climbing(nodes, root, top, levels, low, caps, path, pos, k + 1, parent, top0, newKey)
    ensures !split ==> Tree(nodes, root, levels, low, caps) && Bounded(nodes, top)
  {
    hide Climbing, Tree, Filled, Bounded;
    ClimbParent(nodes0, root, top0, levels0, low0, caps, path, pos, k, node, node2, key2);
    parent := path[depth].parent;
    var c := path[depth].ichild;
    var n := nodes0[parent];
    var (keys, child) := WithChild(n.keys, n.child, c, key2, node2);
    if |n.child| < caps.child {
      ClimbFill(nodes0, root, top0, levels0, low0, caps, path, pos, k, node, node2, key2);
      if parent != root { FilledAt(nodes0, root, caps, parent); }
      FilledMore(nodes0, root, caps, parent, Inner(n.level, keys, child));
      nodes, top, split, newKey := nodes0[parent := Inner(n.level, keys, child)], top0, false, 0;
      levels, low := levels0, low0;
    } else {
      var m := (caps.child + 1) - (caps.child + 1) / 2;
      nodes := nodes0[parent := Inner(n.level, keys[..m - 1], child[..m])]
        [top0 := Inner(n.level, keys[m..], child[m..])];
      ClimbSplit(nodes0, root, top0, levels0, low0, caps, path, pos, k, node, node2, key2, nodes);
      FilledMore(nodes0, root, caps, parent, Inner(n.level, keys[..m - 1], child[..m]));
      FilledMore(nodes0[parent := Inner(n.level, keys[..m - 1], child[..m])], root, caps, top0,
                 Inner(n.level, keys[m..], child[m..]));
      top, split, newKey := top0 + 1, true, keys[m - 1];
      levels, low := Widen(levels0, k, pos[k], top0), low0[top0 := newKey];
    }
  }

  /** Enters the node node2, which now stands right of the node the path led to,
      into its parent; a full parent is split, and finally the root. */
  method InsertIntoParent<V>(nodes0: Nodes<V>, root0: nat, top0: nat, caps: Caps, path: seq<PathStep>, node0: nat,
                             b0: nat, key0: nat, ghost levels0: Levels, ghost low0: Low, ghost pos: seq<nat>)
    returns (nodes: Nodes<V>, root: nat, top: nat, ghost levels: Levels, ghost low: Low)
    requires Sensible(caps)
    requires Climbing(nodes0, root0, top0, levels0, low0, caps, path, pos, 1, node0, b0, key0)
    requires Filled(nodes0, root0, caps) && node0 in nodes0 && HalfFull(nodes0[node0], caps)
    ensures Tree(nodes, root, levels, low, caps) && Bounded(nodes, top) && Filled(nodes, root, caps)
    ensures Items(nodes, levels[0]) == Items(nodes0, levels0[0])
  {
    nodes, root, top, levels, low := nodes0, root0, top0, levels0, low0;
    var depth, node, node2, key2 := |path|, node0, b0, key0;
    ghost var k := 1;
    assert |levels| == |pos| == |path| + 1;
    hide Climbing, Tree, Bounded, Filled;
    while depth > 0
      invariant 0 <= depth && k + depth == |levels| == |pos| == |path| + 1 && 0 < k
      invariant Climbing(nodes, root, top, levels, low, caps, path, pos, k, node, node2, key2)
      invariant Items(nodes, levels[0]) == Items(nodes0, levels0[0])
      invariant Filled(nodes, root, caps) && node in nodes && HalfFull(nodes[node], caps)
      decreases depth
    {
      depth := depth - 1;
      var child, split := top, false;
      nodes, top, node, split, key2, levels, low :=
        EnterParent(nodes, top, caps, path, depth, node2, key2, root, levels, low, pos, k, node);
      if !split { return; }
      node2 := child;
      k := k + 1;
    }
    ClimbRoot(nodes, root, top, levels, low, caps, path, pos, k, node, node2, key2);
    ClimbTop(nodes, root, top, levels, low, caps, path, pos, k, node, node2, key2);
    var level := if nodes[node2].Inner? then nodes[node2].level + 1 else 1;
    FilledRoot(nodes, root, caps, top, Inner(level, [key2], [node, node2]));
    nodes, low := nodes[top := Inner(level, [key2], [node, node2])], low[top := Min(low, node)];
    root, levels, top := top, levels + [[top]], top + 1;
  }

  /** Gives the leaf at the end of the path its new items, one more than before;
      a leaf that cannot hold them is split. */
  method PutItems<V>(nodes0: Nodes<V>, root0: nat, top0: nat, caps: Caps, leaf: nat, path: seq<PathStep>,
                     items: seq<Item<V>>, ghost levels0: Levels, ghost low0: Low, ghost pos: seq<nat>)
    returns (nodes: Nodes<V>, root: nat, top: nat, ghost levels: Levels, ghost low: Low)
    requires Sensible(caps) && Tree(nodes0, root0, levels0, low0, caps) && Bounded(nodes0, top0)
    requires Filled(nodes0, root0, caps)
    requires PathTo(nodes0, levels0, path, pos) && LeafEdit(nodes0, levels0, low0, pos[0], items)
    requires leaf == levels0[0][pos[0]]
    ensures Tree(nodes, root, levels, low, caps) && Bounded(nodes, top) && Filled(nodes, root, caps)
    ensures Items(nodes, levels[0]) ==
      Items(nodes0, levels0[0][..pos[0]]) + items + Items(nodes0, levels0[0][pos[0] + 1..])
  {
    hide Tree, Filled, Climbing, LeafEdit, PathTo, LowAfter, HalfFull, Bounded;
    LeafFacts(nodes0, root0, levels0, low0, caps, path, pos, top0, items);
    if leaf != root0 { LeafKept(nodes0, root0, levels0, low0, caps, pos[0], items); }
    if |items| <= caps.leaf {
      root, top := root0, top0;
      var next := nodes0[leaf].next;
      FilledLeaf(nodes0, root, caps, leaf, items, next);
      FillLeaf(nodes0, root, levels0, low0, caps, pos[0], items, nodes0[leaf := Leaf(items, next)]);
      nodes, levels, low := nodes0[leaf := Leaf(items, next)], levels0, LowAfter(low0, levels0, pos[0], items[0].key);
      BoundedLeaf(nodes0, top0, leaf, Leaf(items, next));
    } else {
      nodes, root, top, levels, low := PutSplit(nodes0, root0, top0, caps, leaf, path, items, levels0, low0, pos);
    }
  }

  lemma BoundedLeaf<V>(nodes: Nodes<V>, top: nat, leaf: nat, n: BNode<V>)
    requires Bounded(nodes, top) && leaf in nodes
    ensures Bounded(nodes[leaf := n], top)
  {
  }

  /** The leaf is split. */
  method PutSplit<V>(nodes0: Nodes<V>, root0: nat, top0: nat, caps: Caps, leaf: nat, path: seq<PathStep>,
                     items: seq<Item<V>>, ghost levels0: Levels, ghost low0: Low, ghost pos: seq<nat>)
    returns (nodes: Nodes<V>, root: nat, top: nat, ghost levels: Levels, ghost low: Low)
    requires Sensible(caps) && Tree(nodes0, root0, levels0, low0, caps) && Bounded(nodes0, top0)
    requires Filled(nodes0, root0, caps) && |items| == caps.leaf + 1
    requires PathTo(nodes0, levels0, path, pos) && LeafEdit(nodes0, levels0, low0, pos[0], items)
    requires leaf == levels0[0][pos[0]]
    ensures Tree(nodes, root, levels, low, caps) && Bounded(nodes, top) && Filled(nodes, root, caps)
    ensures Items(nodes, levels[0]) ==
      Items(nodes0, levels0[0][..pos[0]]) + items + Items(nodes0, levels0[0][pos[0] + 1..])
  {
    hide Tree, Filled, Climbing, LeafEdit, PathTo, LowAfter, HalfFull, Bounded, LeafSplit;
    LeafFacts(nodes0, root0, levels0, low0, caps, path, pos, top0, items);
    var next := nodes0[leaf].next;
    var m := (caps.leaf + 1) - (caps.leaf + 1) / 2;
    nodes := nodes0[leaf := Leaf(items[..m], top0)][top0 := Leaf(items[m..], next)];
    low := LowAfter(low0, levels0, pos[0], items[0].key)[top0 := items[m].key];
    FilledSplit(nodes0, root0, caps, leaf, items, top0, next);
    LeafSplitOk(nodes0, root0, levels0, low0, caps, pos[0], items, top0, nodes, low);
    AfterLeafSplit(nodes0, root0, top0, levels0, low0, caps, path, pos, items, nodes, low);
    nodes, root, top, levels, low :=
      InsertIntoParent(nodes, root0, top0 + 1, caps, path, leaf, top0, items[m].key, Widen(levels0, 0, pos[0], top0),
                       low, pos);
  }

  lemma LeafFacts<V>(nodes: Nodes<V>, root: nat, levels: Levels, low: Low, caps: Caps, path: seq<PathStep>,
                     pos: seq<nat>, top: nat, items: seq<Item<V>>)
    requires Tree(nodes, root, levels, low, caps) && PathTo(nodes, levels, path, pos) && Bounded(nodes, top)
    requires LeafEdit(nodes, levels, low, pos[0], items)
    ensures |levels| > 0 && |pos| > 0 && pos[0] < |levels[0]|
    ensures levels[0][pos[0]] in nodes && levels[0][pos[0]] < top && nodes[levels[0][pos[0]]].Leaf?
    ensures 0 < |items| <= caps.leaf + 1
  {
    LevelIn(nodes, levels, low, caps, 0, pos[0]);
  }

  lemma LeafSplitOk<V>(nodes: Nodes<V>, root: nat, levels: Levels, low: Low, caps: Caps, p: nat, items: seq<Item<V>>,
                       b: nat, nodes': Nodes<V>, low': Low)
    requires Tree(nodes, root, levels, low, caps) && LeafEdit(nodes, levels, low, p, items) && Bounded(nodes, b)
    requires var m := (caps.leaf + 1) - (caps.leaf + 1) / 2;
      && |items| == caps.leaf + 1 && m < |items| && low' == LowAfter(low, levels, p, items[0].key)[b := items[m].key]
      && nodes' == nodes[levels[0][p] := Leaf(items[..m], b)][b := Leaf(items[m..], nodes[levels[0][p]].next)]
    ensures LeafSplit(nodes, levels, low, caps, p, items, b, nodes', low')
  {
  }

  lemma LeafKept<V>(nodes: Nodes<V>, root: nat, levels: Levels, low: Low, caps: Caps, p: nat, items: seq<Item<V>>)
    requires Filled(nodes, root, caps) && LeafEdit(nodes, levels, low, p, items) && levels[0][p] != root
    ensures |items| >= (caps.leaf + 1) / 2
  {
    FilledAt(nodes, root, caps, levels[0][p]);
  }

  lemma AfterLeafSplit<V>(nodes: Nodes<V>, root: nat, b: nat, levels: Levels, low: Low, caps: Caps,
                          path: seq<PathStep>, pos: seq<nat>, items: seq<Item<V>>, nodes': Nodes<V>, low': Low)
    requires Sensible(caps) && Tree(nodes, root, levels, low, caps)
    requires PathTo(nodes, levels, path, pos) && Bounded(nodes, b)
    requires LeafSplit(nodes, levels, low, caps, pos[0], items, b, nodes', low')
    ensures var m := (caps.leaf + 1) - (caps.leaf + 1) / 2;
      Climbing(nodes', root, b + 1, Widen(levels, 0, pos[0], b), low', caps,
        path, pos, 1, levels[0][pos[0]], b, items[m].key)
    ensures Items(nodes', Widen(levels, 0, pos[0], b)[0]) ==
      Items(nodes, levels[0][..pos[0]]) + items + Items(nodes, levels[0][pos[0] + 1..])
  {
    hide Pending, PathFrom, AllLevels, AllLinked, Child, ItemsOf;
    SplitLeaf(nodes, root, levels, low, caps, pos[0], items, b, nodes', low');
    AfterLeafPath(nodes, root, levels, low, caps, path, pos, items, b, nodes', low');
  }

  /** The path ends at the root. */
  lemma ClimbTop<V>(nodes: Nodes<V>, root: nat, top: nat, levels: Levels, low: Low, caps: Caps, path: seq<PathStep>,
                    pos: seq<nat>, k: nat, node: nat, node2: nat, key2: nat)
    requires Climbing(nodes, root, top, levels, low, caps, path, pos, k, node, node2, key2) && k == |levels|
    ensures node == root
  {
  }

  lemma AfterLeafPath<V>(nodes: Nodes<V>, root: nat, levels: Levels, low: Low, caps: Caps, path: seq<PathStep>,
                         pos: seq<nat>, items: seq<Item<V>>, b: nat, nodes': Nodes<V>, low': Low)
    requires Tree(nodes, root, levels, low, caps) && PathTo(nodes, levels, path, pos)
    requires LeafSplit(nodes, levels, low, caps, pos[0], items, b, nodes', low')
    ensures PathFrom(nodes', Widen(levels, 0, pos[0], b), path, pos, 1)
  {
    forall j, i | 1 <= j < |levels| && 0 <= i < |levels[j]|
      ensures Child(nodes', levels[j][i]) == Child(nodes, levels[j][i])
    {
      LevelIn(nodes, levels, low, caps, j, i);
    }
    hide LeafSplit, Pending, Tree;
    assert PathFrom(nodes, levels, path, pos, 1);
    PathFrame(nodes, nodes', levels, Widen(levels, 0, pos[0], b), path, pos, 1);
  }

  /** The items of all leaves are in ascending order. */
  lemma {:induction false} ItemsSorted<V>(nodes: Nodes<V>, levels: Levels, low: Low, caps: Caps, ids: seq<nat>)
    requires AllLevels(nodes, levels, low, caps) && |levels| > 0 && ids == levels[0]
    ensures Sorted(Items(nodes, ids))
  {
    if ids != [] {
      ItemsSortedFrom(nodes, levels, low, caps, 0);
      assert ids[0..] == ids;
    }
  }

  /** So are those of the leaves from position i on; the smallest key is that of leaf i. */
  lemma {:induction false} ItemsSortedFrom<V>(nodes: Nodes<V>, levels: Levels, low: Low, caps: Caps, i: nat)
    requires AllLevels(nodes, levels, low, caps) && |levels| > 0 && i < |levels[0]|
    ensures Sorted(Items(nodes, levels[0][i..]))
    ensures Items(nodes, levels[0][i..]) != [] && Items(nodes, levels[0][i..])[0].key == Min(low, levels[0][i])
    ensures forall j :: 0 <= j < |Items(nodes, levels[0][i..])| ==>
      Min(low, levels[0][i]) <= Items(nodes, levels[0][i..])[j].key
    decreases |levels[0]| - i
  {
    var ids := levels[0];
    LevelIn(nodes, levels, low, caps, 0, i);
    assert ids[i..][1..] == ids[i + 1..];
    if i + 1 < |ids| {
      ItemsSortedFrom(nodes, levels, low, caps, i + 1);
    } else {
      assert ids[i + 1..] == [];
    }
    var own, rest := ItemsOf(nodes, ids[i]), Items(nodes, ids[i + 1..]);
    var all := own + rest;
    assert Items(nodes, ids[i..]) == all;
    assert own != [] && own == nodes[ids[i]].items;
    forall a, b | 0 <= a < b < |all| ensures all[a].key < all[b].key {
      if a < |own| <= b {
        assert all[b] == rest[b - |own|];
        assert own[a].key <= own[|own| - 1].key;
      }
    }
  }

  /** The leaf at position p among all items: a tells how many items lie left of it. */
  lemma LeafAmong<V>(nodes: Nodes<V>, levels: Levels, low: Low, caps: Caps, p: nat) returns (a: nat)
    requires AllLevels(nodes, levels, low, caps) && |levels| > 0 && p < |levels[0]|
    ensures a == |Items(nodes, levels[0][..p])|
    ensures var all, own := Items(nodes, levels[0]), ItemsOf(nodes, levels[0][p]);
      && own != [] && own[0].key == Min(low, levels[0][p])
      && a + |own| <= |all| && all[a..a + |own|] == own
      && all[..a] == Items(nodes, levels[0][..p])
      && all[a + |own|..] == Items(nodes, levels[0][p + 1..])
      && (p == 0 <==> a == 0)
      && (p + 1 == |levels[0]| <==> a + |own| == |all|)
      && (p + 1 < |levels[0]| ==> a + |own| < |all| && all[a + |own|].key == Min(low, levels[0][p + 1]))
  {
    hide AllLevels, LevelOk, LeafOk;
    LeafOwn(nodes, levels, low, caps, p);
    ItemsAt(nodes, levels[0], p);
    a := |Items(nodes, levels[0][..p])|;
    if p > 0 {
      LeafOwn(nodes, levels, low, caps, 0);
      assert levels[0][..p][0] == levels[0][0];
    }
    if p + 1 < |levels[0]| {
      ItemsSortedFrom(nodes, levels, low, caps, p + 1);
    }
  }

  lemma LeafOwn<V>(nodes: Nodes<V>, levels: Levels, low: Low, caps: Caps, p: nat)
    requires AllLevels(nodes, levels, low, caps) && |levels| > 0 && p < |levels[0]|
    ensures ItemsOf(nodes, levels[0][p]) != [] && ItemsOf(nodes, levels[0][p])[0].key == Min(low, levels[0][p])
  {
    LevelIn(nodes, levels, low, caps, 0, p);
  }

  function Power2(n: nat): nat {
    if n == 0 then 1 else 2 * Power2(n - 1)
  }

  lemma {:induction false} KidsTwice<V>(nodes: Nodes<V>, low: Low, caps: Caps, ids: seq<nat>, k: nat)
    requires forall i :: 0 <= i < |ids| ==> InnerOk(nodes, low, caps, ids[i], k)
    ensures |Kids(nodes, ids)| >= 2 * |ids|
  {
    if ids != [] {
      assert InnerOk(nodes, low, caps, ids[0], k);
      KidsTwice(nodes, low, caps, ids[1..], k);
    }
  }

  /** Every node has at least two children, so there are at least 2^(h - k) nodes in level k of a
      tree whose root is in level h. */
  lemma {:induction false} HeightBound<V>(nodes: Nodes<V>, root: nat, levels: Levels, low: Low, caps: Caps, k: nat)
    requires Tree(nodes, root, levels, low, caps) && k < |levels|
    ensures |levels[k]| >= Power2(|levels| - 1 - k)
    decreases |levels| - k
  {
    if k + 1 < |levels| {
      HeightBound(nodes, root, levels, low, caps, k + 1);
      assert Linked(nodes, levels, k + 1) && LevelOk(nodes, low, caps, levels[k + 1], k + 1);
      KidsTwice(nodes, low, caps, levels[k + 1], k + 1);
    }
  }

  lemma {:induction false} Power2Grows(m: nat, n: nat)
    requires m <= n
    ensures Power2(m) <= Power2(n)
    decreases n
  {
    if m < n { Power2Grows(m, n - 1); }
  }

  lemma {:induction false} DistinctCount(ids: seq<nat>, all: set<nat>)
    requires Distinct(ids) && forall id :: id in ids ==> id in all
    ensures |ids| <= |all|
    decreases |ids|
  {
    if ids != [] {
      var n := |ids| - 1;
      var last := ids[n];
      assert last in ids;
      forall id | id in ids[..n] ensures id in all - {last} {
        var i :| 0 <= i < n && ids[i] == id;
      }
      DistinctCount(ids[..n], all - {last});
    }
  }

  /** With fewer nodes than a word of that many bits can count, the level of the root is less than
      `bits`: the depth stack, which has one entry for every bit of size_t, is never exceeded. */
  lemma DepthBound<V>(nodes: Nodes<V>, root: nat, levels: Levels, low: Low, caps: Caps, bits: nat)
    requires Tree(nodes, root, levels, low, caps) && |nodes| < Power2(bits)
    ensures |levels| <= bits
  {
    HeightBound(nodes, root, levels, low, caps, 0);
    forall id | id in levels[0] ensures id in nodes {
      var i :| 0 <= i < |levels[0]| && levels[0][i] == id;
      LevelIn(nodes, levels, low, caps, 0, i);
    }
    LeavesDistinct(nodes, levels, low, caps);
    hide Tree;
    DistinctCount(levels[0], nodes.Keys);
    if |levels| > bits { Power2Grows(bits, |levels| - 1); }
  }

  lemma LeavesDistinct<V>(nodes: Nodes<V>, levels: Levels, low: Low, caps: Caps)
    requires AllLevels(nodes, levels, low, caps) && levels != []
    ensures Distinct(levels[0])
  {
    assert Ordered(low, levels[0]);
  }

  /** Descends along the first children to the leftmost leaf. */
  method FirstLeaf<V>(nodes: Nodes<V>, root: nat, ghost levels: Levels, ghost low: Low, ghost caps: Caps)
    returns (leaf: nat)
    requires Tree(nodes, root, levels, low, caps)
    ensures levels[0] != [] && leaf == levels[0][0]
  {
    leaf := root;
    ghost var k: nat := |levels| - 1;
    LevelIn(nodes, levels, low, caps, k, 0);
    var level := if nodes[leaf].Inner? then nodes[leaf].level else 0;
    while level > 0
      invariant 0 <= k < |levels| && level == k && levels[k] != [] && leaf == levels[k][0]
      decreases level
    {
      LevelIn(nodes, levels, low, caps, k, 0);
      assert Linked(nodes, levels, k) && levels[k][..0] == [];
      ChildPosition(nodes, levels[k], 0, 0);
      leaf := nodes[leaf].child[0];
      level := level - 1;
      k := k - 1;
    }
  }

  /** The leaves and how they are chained. */
  ghost predicate Chained<V>(nodes: Nodes<V>, ids: seq<nat>) {
    forall i :: 0 <= i < |ids| ==> ChainedAt(nodes, ids, i)
  }

  ghost predicate ChainedAt<V>(nodes: Nodes<V>, ids: seq<nat>, i: nat)
    requires i < |ids|
  {
    ids[i] != 0 && ids[i] in nodes && nodes[ids[i]].Leaf?
    && nodes[ids[i]].next == (if i + 1 < |ids| then ids[i + 1] else 0)
  }

  lemma LeavesChained<V>(nodes: Nodes<V>, levels: Levels, low: Low, caps: Caps)
    requires AllLevels(nodes, levels, low, caps) && |levels| > 0
    ensures Chained(nodes, levels[0])
  {
    forall i | 0 <= i < |levels[0]| ensures ChainedAt(nodes, levels[0], i) {
      LevelIn(nodes, levels, low, caps, 0, i);
    }
  }

  lemma ItemsNext<V>(nodes: Nodes<V>, ids: seq<nat>, i: nat)
    requires i < |ids|
    ensures Items(nodes, ids[..i + 1]) == Items(nodes, ids[..i]) + ItemsOf(nodes, ids[i])
  {
    assert ids[..i + 1] == ids[..i] + [ids[i]];
    ItemsConcat(nodes, ids[..i], [ids[i]]);
    ItemsOne(nodes, ids[i]);
  }

  /** The items of the leaf in which x belongs, standing at position a among all items. */
  ghost predicate Located<V>(all: seq<Item<V>>, a: nat, items: seq<Item<V>>, x: nat) {
    var b := a + |items|;
    && a < b <= |all| && all[a..b] == items
    && Sorted(all) && Sorted(items)
    && (a > 0 ==> items[0].key <= x)
    && (b < |all| ==> x < all[b].key)
  }

  /** The path leads to the leaf. */
  ghost predicate At<V>(nodes: Nodes<V>, levels: Levels, path: seq<PathStep>, pos: seq<nat>, leaf: nat,
                        items: seq<Item<V>>, a: nat) {
    && PathTo(nodes, levels, path, pos)
    && var p := pos[0];
       && p < |levels[0]| && leaf == levels[0][p]
       && leaf in nodes && nodes[leaf].Leaf? && nodes[leaf].items == items
       && a == |Items(nodes, levels[0][..p])|
  }

  /** A valid tree whose nodes are numbered below top. */
  ghost predicate Valid<V>(nodes: Nodes<V>, root: nat, top: nat, levels: Levels, low: Low, caps: Caps) {
    Tree(nodes, root, levels, low, caps) && Bounded(nodes, top) && Filled(nodes, root, caps)
  }

  function AllItems<V>(nodes: Nodes<V>, levels: Levels): seq<Item<V>> {
    if levels == [] then [] else Items(nodes, levels[0])
  }

  /** Reads all items through the chain of leaves. */
  method ReadLeaves<V>(nodes: Nodes<V>, root: nat, ghost top: nat, ghost levels: Levels, ghost low: Low,
                       ghost caps: Caps)
    returns (s: seq<Item<V>>)
    requires Valid(nodes, root, top, levels, low, caps)
    ensures s == AllItems(nodes, levels)
  {
    var leaf := FirstLeaf(nodes, root, levels, low, caps);
    LeavesChained(nodes, levels, low, caps);
    hide Valid, Tree;
    s := [];
    ghost var ids, i := levels[0], 0;
    while leaf != 0
      invariant 0 <= i <= |ids|
      invariant leaf == if i < |ids| then ids[i] else 0
      invariant s == Items(nodes, ids[..i])
      decreases |ids| - i
    {
      assert ChainedAt(nodes, ids, i);
      ItemsNext(nodes, ids, i);
      s := s + nodes[leaf].items;
      leaf := nodes[leaf].next;
      i := i + 1;
      assert i < |ids| ==> ChainedAt(nodes, ids, i);
    }
    assert i < |ids| ==> ChainedAt(nodes, ids, i);
    assert ids[..i] == ids;
  }

  /** Item number `low` of the leaf is item number k of all. */
  ghost predicate AtItem<V>(nodes: Nodes<V>, levels: Levels, leaf: nat, i: nat, k: nat) {
    leaf in nodes && nodes[leaf].Leaf? && i < |nodes[leaf].items| && k < |AllItems(nodes, levels)|
    && AllItems(nodes, levels)[k] == nodes[leaf].items[i]
    && exists p: nat :: ItemAt(nodes, levels, p, leaf, i, k)
  }

  ghost predicate ItemAt<V>(nodes: Nodes<V>, levels: Levels, p: nat, leaf: nat, i: nat, k: nat) {
    levels != [] && p < |levels[0]| && levels[0][p] == leaf && k == |Items(nodes, levels[0][..p])| + i
  }

  /** Moves on to the next item. */
  method NextItem<V>(nodes: Nodes<V>, leaf0: nat, i0: nat, ghost root: nat, ghost top: nat, ghost levels: Levels,
                     ghost low: Low, ghost caps: Caps, ghost k: nat)
    returns (leaf: nat, i: nat)
    requires Valid(nodes, root, top, levels, low, caps) && AtItem(nodes, levels, leaf0, i0, k)
    ensures leaf == 0 <==> k + 1 == |AllItems(nodes, levels)|
    ensures leaf != 0 ==> AtItem(nodes, levels, leaf, i, k + 1)
  {
    leaf, i := leaf0, i0 + 1;
    ghost var p: nat :| ItemAt(nodes, levels, p, leaf, i0, k);
    NextItemAt(nodes, levels, low, caps, p, i0);
    hide Valid, Tree;
    if i >= |nodes[leaf].items| {
      leaf, i := nodes[leaf].next, 0;
    }
  }

  lemma NextItemAt<V>(nodes: Nodes<V>, levels: Levels, low: Low, caps: Caps, p: nat, i: nat)
    requires AllLevels(nodes, levels, low, caps) && |levels| > 0
    requires p < |levels[0]| && i < |ItemsOf(nodes, levels[0][p])|
    ensures NextAt(nodes, levels, levels[0][p], i, |Items(nodes, levels[0][..p])| + i)
  {
    var leaf, k, all := levels[0][p], |Items(nodes, levels[0][..p])| + i, Items(nodes, levels[0]);
    LevelIn(nodes, levels, low, caps, 0, p);
    if i + 1 < |nodes[leaf].items| {
      ItemIsAt(nodes, levels, low, caps, p, i + 1);
    } else {
      ItemsNext(nodes, levels[0], p);
      assert |Items(nodes, levels[0][..p + 1])| == k + 1;
      if p + 1 < |levels[0]| {
        LevelIn(nodes, levels, low, caps, 0, p + 1);
        ItemIsAt(nodes, levels, low, caps, p + 1, 0);
      } else {
        assert levels[0][..p + 1] == levels[0];
      }
    }
  }

  lemma ItemIsAt<V>(nodes: Nodes<V>, levels: Levels, low: Low, caps: Caps, p: nat, i: nat)
    requires AllLevels(nodes, levels, low, caps) && |levels| > 0
    requires p < |levels[0]| && i < |ItemsOf(nodes, levels[0][p])|
    ensures AtItem(nodes, levels, levels[0][p], i, |Items(nodes, levels[0][..p])| + i)
  {
    var a := LeafAmong(nodes, levels, low, caps, p);
    hide AllLevels;
    var own, all := ItemsOf(nodes, levels[0][p]), Items(nodes, levels[0]);
    assert all[a + i] == all[a..a + |own|][i];
    assert ItemAt(nodes, levels, p, levels[0][p], i, a + i);
  }

  /** The step from item k, which is item i of the leaf. */
  ghost predicate NextAt<V>(nodes: Nodes<V>, levels: Levels, leaf: nat, i: nat, k: nat) {
    && leaf != 0 && leaf in nodes && nodes[leaf].Leaf? && k < |AllItems(nodes, levels)|
    && if i + 1 < |nodes[leaf].items| then AtItem(nodes, levels, leaf, i + 1, k + 1)
       else if nodes[leaf].next == 0 then k + 1 == |AllItems(nodes, levels)|
       else AtItem(nodes, levels, nodes[leaf].next, 0, k + 1)
  }

  /** Finds the leaf that x belongs in. */
  method Locate<V>(nodes: Nodes<V>, root: nat, ghost top: nat, ghost levels: Levels, ghost low: Low, ghost caps: Caps,
                   x: nat)
    returns (leaf: nat, items: seq<Item<V>>, path: seq<PathStep>, more: bool, upper: nat, ghost pos: seq<nat>,
             ghost a: nat)
    requires Valid(nodes, root, top, levels, low, caps)
    ensures more <==> a + |items| < |AllItems(nodes, levels)|
    ensures more ==> upper == AllItems(nodes, levels)[a + |items|].key
    ensures At(nodes, levels, path, pos, leaf, items, a)
    ensures Located(AllItems(nodes, levels), a, items, x)
    ensures leaf in nodes && nodes[leaf].Leaf? && nodes[leaf].items == items
  {
    hide AllLevels, AllLinked, Bounded, Located, StepOk, Items, ItemsOf, Min;
    leaf, path, more, upper, pos := Descend(nodes, root, levels, low, caps, x);
    HitLeaf(nodes, levels, low, caps, pos[0], x);
    a := |Items(nodes, levels[0][..pos[0]])|;
    items := nodes[leaf].items;
  }

  lemma HitLeaf<V>(nodes: Nodes<V>, levels: Levels, low: Low, caps: Caps, p: nat, x: nat)
    requires AllLevels(nodes, levels, low, caps) && |levels| > 0 && Below(low, levels[0], p, x)
    ensures levels[0][p] in nodes && nodes[levels[0][p]].Leaf?
    ensures var all, a, items := Items(nodes, levels[0]), |Items(nodes, levels[0][..p])|, nodes[levels[0][p]].items;
      && Located(all, a, items, x)
      && (p + 1 < |levels[0]| <==> a + |items| < |all|)
      && (p + 1 < |levels[0]| ==> all[a + |items|].key == Min(low, levels[0][p + 1]))
  {
    var a := LeafAmong(nodes, levels, low, caps, p);
    ItemsSorted(nodes, levels, low, caps, levels[0]);
    LevelIn(nodes, levels, low, caps, 0, p);
  }

  lemma AtFound<V>(nodes: Nodes<V>, levels: Levels, path: seq<PathStep>, pos: seq<nat>, leaf: nat, items: seq<Item<V>>,
                   a: nat, i: nat)
    requires At(nodes, levels, path, pos, leaf, items, a) && i < |items|
    requires a + |items| <= |AllItems(nodes, levels)| && AllItems(nodes, levels)[a..a + |items|] == items
    ensures AtItem(nodes, levels, leaf, i, a + i)
  {
    assert AllItems(nodes, levels)[a + i] == AllItems(nodes, levels)[a..a + |items|][i];
    assert ItemAt(nodes, levels, pos[0], leaf, i, a + i);
  }

  /** What the items of a leaf may be replaced with: one more item, within the bounds of the leaf. */
  ghost predicate Edit<V>(all: seq<Item<V>>, a: nat, items: seq<Item<V>>, items': seq<Item<V>>) {
    && items != [] && |items'| == |items| + 1 && Sorted(items')
    && items'[0].key <= items[0].key
    && (a > 0 ==> items'[0].key == items[0].key)
    && (a + |items| < |all| ==> items'[|items|].key < all[a + |items|].key)
  }

  lemma EditLeaf<V>(nodes: Nodes<V>, levels: Levels, low: Low, caps: Caps, p: nat, items': seq<Item<V>>)
    requires AllLevels(nodes, levels, low, caps) && |levels| > 0 && p < |levels[0]|
    requires Edit(Items(nodes, levels[0]), |Items(nodes, levels[0][..p])|, ItemsOf(nodes, levels[0][p]), items')
    ensures LeafEdit(nodes, levels, low, p, items')
    ensures var a, all := |Items(nodes, levels[0][..p])|, Items(nodes, levels[0]);
      && a + |ItemsOf(nodes, levels[0][p])| <= |all| && all[..a] == Items(nodes, levels[0][..p])
      && all[a + |ItemsOf(nodes, levels[0][p])|..] == Items(nodes, levels[0][p + 1..])
  {
    var a := LeafAmong(nodes, levels, low, caps, p);
    LevelIn(nodes, levels, low, caps, 0, p);
  }

  /** How many items and children the nodes of a tree hold. */
  lemma NodeFill<V>(nodes: Nodes<V>, root: nat, top: nat, levels: Levels, low: Low, caps: Caps, k: nat, i: nat)
    requires Valid(nodes, root, top, levels, low, caps) && k < |levels| && i < |levels[k]|
    ensures levels[k][i] in nodes && (nodes[levels[k][i]].Leaf? <==> k == 0)
    ensures var id, n := levels[k][i], nodes[levels[k][i]];
      && (k == 0 ==> (if id == root then caps.min else (caps.leaf + 1) / 2) <= |n.items| <= caps.leaf)
      && (k > 0 ==> (if id == root then 2 else (caps.child + 1) / 2) <= |n.child| <= caps.child)
  {
    LevelIn(nodes, levels, low, caps, k, i);
    var id := levels[k][i];
    hide Tree, Bounded;
    if id != root { FilledAt(nodes, root, caps, id); }
  }

  /** Replaces the items of the leaf found by Locate; full nodes are split. */
  method Put<V>(nodes0: Nodes<V>, root0: nat, top0: nat, caps: Caps, leaf: nat, path: seq<PathStep>,
                items': seq<Item<V>>,
                ghost levels0: Levels, ghost low0: Low, ghost pos: seq<nat>, ghost items: seq<Item<V>>, ghost a: nat)
    returns (nodes: Nodes<V>, root: nat, top: nat, ghost levels: Levels, ghost low: Low)
    requires Sensible(caps) && Valid(nodes0, root0, top0, levels0, low0, caps)
    requires At(nodes0, levels0, path, pos, leaf, items, a)
    requires Edit(AllItems(nodes0, levels0), a, items, items')
    ensures Valid(nodes, root, top, levels, low, caps)
    ensures a + |items| <= |AllItems(nodes0, levels0)|
    ensures AllItems(nodes, levels) ==
      AllItems(nodes0, levels0)[..a] + items' + AllItems(nodes0, levels0)[a + |items|..]
  {
    hide LeafEdit, StepOk, Edit, AllLevels, AllLinked, Bounded, Filled;
    EditLeaf(nodes0, levels0, low0, caps, pos[0], items');
    nodes, root, top, levels, low := PutItems(nodes0, root0, top0, caps, leaf, path, items', levels0, low0, pos);
    assert levels != [];
  }
}
