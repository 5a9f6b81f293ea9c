/** pagecache_impl_t: hands out pages of 13 sizes from a growing number of blocks. */
module PageCache {
  import opened Sequences
  import opened SubBlocks
  import opened PageBlocks

  /** A block is named by its number; blocks do not overlap. */
  type Blocks = map<nat, Block>

  /** memblock_t: a page, given by its block, its sub-block, and its place and size in bytes there. */
  datatype Memblock = NoMemory | Memblock(id: nat, sub: nat, offset: nat, size: nat) {
    /** Its number within the sub-block. */
    function Index(): nat {
      if NoMemory? || size == 0 then 0 else offset / size
    }
  }

  predicate Live(blocks: Blocks, id: nat, i: nat, p: nat) {
    id in blocks && LiveIn(blocks[id], i, p)
  }

  /** The list of a page size holds the blocks that have a sub-block with free pages of this size. */
  ghost predicate FreeOk(blocks: Blocks, free: seq<seq<nat>>, z: nat) {
    && z < |free| && Distinct(free[z])
    && forall id: nat :: id in free[z] <==> id in blocks && z < |blocks[id].freesub| && blocks[id].freesub[z] != []
  }

  /** The three kinds of lists agree with the blocks. */
  ghost predicate Lists(blocks: Blocks, all: seq<nat>, unused: seq<nat>, free: seq<seq<nat>>) {
    var n := |free|;
    && n == SIZES && Distinct(all) && (forall id: nat :: id in all <==> id in blocks)
    && (forall id: nat :: id in blocks ==> BlockOk(blocks[id]))
    && (forall z :: 0 <= z < SIZES ==> FreeOk(blocks, free, z))
    && Distinct(unused) && (forall id: nat :: id in unused <==> id in blocks && HasUnused(blocks[id]))
  }

  /** The bytes in use in the listed blocks. */
  function Total(blocks: Blocks, all: seq<nat>): int
    requires forall id :: id in all ==> id in blocks
  {
    if all == [] then 0 else BlockBytes(blocks[all[0]]) + Total(blocks, all[1..])
  }

  lemma {:induction false} TotalUpdate(blocks: Blocks, all: seq<nat>, id: nat, b: Block)
    requires Distinct(all) && (forall x :: x in all ==> x in blocks) && id in blocks
    ensures Total(blocks[id := b], all) == Total(blocks, all)
      + if id in all then BlockBytes(b) - BlockBytes(blocks[id]) else 0
    decreases |all|
  {
    hide BlockBytes;
    if all != [] {
      FirstRemoved(all);
      TotalUpdate(blocks, all[1..], id, b);
    }
  }

  lemma {:induction false} TotalSame(blocks: Blocks, blocks': Blocks, all: seq<nat>)
    requires forall x :: x in all ==> x in blocks && x in blocks' && blocks[x] == blocks'[x]
    ensures Total(blocks, all) == Total(blocks', all)
    decreases |all|
  {
    if all != [] { TotalSame(blocks, blocks', all[1..]); }
  }

  lemma {:induction false} TotalRemove(blocks: Blocks, all: seq<nat>, id: nat)
    requires Distinct(all) && (forall x :: x in all ==> x in blocks) && id in all
    ensures (forall x :: x in Remove(all, id) ==> x in blocks)
    ensures Total(blocks, all) == BlockBytes(blocks[id]) + Total(blocks, Remove(all, id))
    decreases |all|
  {
    RemoveOk(all, id);
    if all[0] != id {
      FirstRemoved(all);
      TotalRemove(blocks, all[1..], id);
      assert Remove(all, id)[1..] == Remove(all[1..], id);
    }
  }

  /** As long as any byte is in use, so is a page of some block, and the other way round. */
  lemma {:induction false} TotalNone(blocks: Blocks, all: seq<nat>)
    requires forall x :: x in all ==> x in blocks && BlockOk(blocks[x])
    ensures Total(blocks, all) >= 0
    ensures Total(blocks, all) == 0 <==> forall x :: x in all ==> blocks[x].nrused == 0
    decreases |all|
  {
    hide BlockOk, BlockBytes;
    if all != [] {
      TotalNone(blocks, all[1..]);
      BlockNone(blocks[all[0]]);
      assert all == [all[0]] + all[1..];
    }
  }

  lemma BlockNone(b: Block)
    requires BlockOk(b)
    ensures BlockBytes(b) >= 0 && (BlockBytes(b) == 0 <==> b.nrused == 0)
    ensures b.nrused == 0 ==> HasUnused(b) && forall i: nat, p: nat :: !LiveIn(b, i, p)
  {
    UsedNone(b.sub, NRSUB);
    if b.nrused == 0 {
      EmptyHasUnused(b);
      hide IsLive;
    }
  }

  lemma EmptyHasUnused(b: Block)
    requires BlockOk(b) && forall i, p: nat :: 0 <= i < NRSUB ==> !IsLive(i, b.sub[i], p)
    ensures HasUnused(b)
  {
    var s := b.sub[1];
    assert SubOk(1, s) && BusyAt(b, 1);
    LiveCount(1, s);
    NoLive(1, s);
    hide IsLive, LiveSet;
    assert s.pgsize == SIZES;
  }

  lemma NoLive(i: nat, s: Sub)
    requires forall p: nat :: !IsLive(i, s, p)
    ensures |LiveSet(i, s)| == 0
  {
  }

  /** Block id becomes b, and the lists follow. */
  ghost predicate Followed(blocks: Blocks, unused: seq<nat>, free: seq<seq<nat>>, id: nat, b: Block, unused': seq<nat>,
                           free': seq<seq<nat>>) {
    && |free'| == SIZES && |free| == SIZES
    && (forall z :: 0 <= z < SIZES ==> FollowedAt(free, id, b, free', z))
    && Distinct(unused') && (id in unused' <==> HasUnused(b))
    && (forall x: nat :: x != id ==> (x in unused' <==> x in unused))
  }

  ghost predicate FollowedAt(free: seq<seq<nat>>, id: nat, b: Block, free': seq<seq<nat>>, z: nat) {
    && z < |free| && z < |free'| && z < |b.freesub| && Distinct(free'[z])
    && (id in free'[z] <==> b.freesub[z] != [])
    && forall x: nat :: x != id ==> (x in free'[z] <==> x in free[z])
  }

  lemma ListsFollow(blocks: Blocks, all: seq<nat>, unused: seq<nat>, free: seq<seq<nat>>, id: nat, b: Block,
                    unused': seq<nat>, free': seq<seq<nat>>)
    requires Lists(blocks, all, unused, free) && id in blocks && BlockOk(b)
    requires Followed(blocks, unused, free, id, b, unused', free')
    ensures Lists(blocks[id := b], all, unused', free')
  {
    hide BlockOk, HasUnused;
    var blocks' := blocks[id := b];
    forall z | 0 <= z < SIZES ensures FreeOk(blocks', free', z) {
      assert FreeOk(blocks, free, z) && FollowedAt(free, id, b, free', z);
    }
  }

  /** The block joins the list in front, leaves it, or keeps its place. */
  ghost predicate Moved(list: seq<nat>, list': seq<nat>, id: nat, shall: bool) {
    if (id in list) == shall then list' == list else list' == if shall then [id] + list else Remove(list, id)
  }

  /** The lists of blocks after block id has become b by taking or giving back a page of this size. */
  ghost predicate Served(unused: seq<nat>, free: seq<seq<nat>>, id: nat, b: Block, pgsize: nat, unused': seq<nat>,
                         free': seq<seq<nat>>) {
    && pgsize < |b.freesub| && pgsize < |free| == |free'|
    && Moved(unused, unused', id, HasUnused(b))
    && Moved(free[pgsize], free'[pgsize], id, b.freesub[pgsize] != [])
    && forall z :: 0 <= z < |free| && z != pgsize ==> free'[z] == free[z]
  }

  /** The list with or without the block. */
  method Relist(list: seq<nat>, id: nat, was: bool, shall: bool) returns (list': seq<nat>)
    requires Distinct(list) && (id in list <==> was)
    ensures Distinct(list') && (id in list' <==> shall) && forall x: nat :: x != id ==> (x in list' <==> x in list)
    ensures Moved(list, list', id, shall)
  {
    list' := list;
    if was && !shall {
      RemoveOk(list, id);
      list' := Remove(list, id);
    } else if !was && shall {
      FirstAdded(list, id);
      list' := [id] + list;
    }
  }

  lemma FollowAll(blocks: Blocks, all: seq<nat>, unused: seq<nat>, free: seq<seq<nat>>, id: nat, b: Block, pgsize: nat,
                  unused': seq<nat>, list: seq<nat>)
    requires Lists(blocks, all, unused, free) && id in blocks && pgsize < SIZES && |b.freesub| == SIZES
    requires forall z :: 0 <= z < SIZES && z != pgsize ==> b.freesub[z] == blocks[id].freesub[z]
    requires Distinct(unused') && (id in unused' <==> HasUnused(b)) && forall x: nat :: x != id ==>
      (x in unused' <==> x in unused)
    requires Distinct(list) && (id in list <==> b.freesub[pgsize] != []) && forall x: nat :: x != id ==>
      (x in list <==> x in free[pgsize])
    ensures Followed(blocks, unused, free, id, b, unused', free[pgsize := list])
  {
    hide BlockOk, HasUnused;
    assert |blocks[id].freesub| == SIZES by { BlockLists(blocks, all, unused, free, id); }
    var free' := free[pgsize := list];
    forall z | 0 <= z < SIZES ensures FollowedAt(free, id, b, free', z) {
      assert FreeOk(blocks, free, z);
    }
  }

  lemma BlockLists(blocks: Blocks, all: seq<nat>, unused: seq<nat>, free: seq<seq<nat>>, id: nat)
    requires Lists(blocks, all, unused, free) && id in blocks
    ensures |blocks[id].freesub| == SIZES && |blocks[id].sub| == NRSUB && BlockOk(blocks[id])
    ensures id in all && |free| == SIZES && Distinct(all) && forall x :: x in all ==> x in blocks
    ensures id in unused <==> HasUnused(blocks[id])
    ensures Distinct(unused)
  {
    assert BlockOk(blocks[id]);
  }

  lemma ListAt(blocks: Blocks, all: seq<nat>, unused: seq<nat>, free: seq<seq<nat>>, z: nat)
    requires Lists(blocks, all, unused, free) && z < SIZES
    ensures z < |free| && Distinct(free[z])
    ensures forall id: nat :: id in free[z] <==> id in blocks && z < |blocks[id].freesub| && blocks[id].freesub[z] != []
  {
    assert FreeOk(blocks, free, z);
  }

  /** A new block: sub-block 0 holds block_t, and has pages of 4096 bytes. */
  function NewBlock(): Block {
    Block(seq(NRSUB, i => if i == 0 then InitFree(FIRSTSIZE, BLOCKPAGES) else UNUSED),
          seq(SIZES, z => if z == FIRSTSIZE then [0] else []), [], 1, 0)
  }

  lemma NewBlockOk()
    ensures BlockOk(NewBlock()) && HasUnused(NewBlock()) && BlockBytes(NewBlock()) == 0
    ensures forall i: nat, p: nat :: !LiveIn(NewBlock(), i, p)
    ensures |NewBlock().freesub| == SIZES && forall z :: 0 <= z < SIZES ==>
      (NewBlock().freesub[z] != [] <==> z == FIRSTSIZE)
  {
    var b := NewBlock();
    assert NrPages(FIRSTSIZE) == 256;
    InitFreeOk(0, FIRSTSIZE);
    forall i | 0 <= i < NRSUB
      ensures SubOk(i, b.sub[i]) && NrLive(i, b.sub[i]) == 0 && forall p: nat :: !IsLive(i, b.sub[i], p)
    {
    }
    forall z | 0 <= z < SIZES ensures ListOk(b, z) {
    }
    NoneUsedIn(b.sub, NRSUB);
  }

  /** Sub-block 0 of a new block has pages of 4096 bytes, one of them for block_t; all other sub-blocks are unused. */
  lemma NewBlockSizes()
    ensures |NewBlock().sub| == 1024 && |NewBlock().freesub| == 13
    ensures Bytes(NewBlock().sub[0].pgsize) == 4096 && 3448 == BLOCKT <= BLOCKPAGES * 4096
    ensures NewBlock().sub[0] == Sub(4, 2, 1, 254, 2, []) && NewBlock().freesub[4] == [0]
    ensures forall i :: 0 < i < 1024 ==> NewBlock().sub[i].pgsize == 13
    ensures NewBlock().unusedsub == [] && NewBlock().nextunused == 1
  {
    assert NrPages(FIRSTSIZE) == 256;
    PageSizes();
  }

  lemma {:induction false} NoneUsedIn(sub: seq<Sub>, n: nat)
    requires n <= |sub| && forall i :: 0 <= i < n ==> NrLive(i, sub[i]) == 0
    ensures Used(sub, n) == 0 && UsedBytes(sub, n) == 0
    decreases n
  {
    if n > 0 {
      NoneUsedIn(sub, n - 1);
      TimesZero(Bytes(sub[n - 1].pgsize));
    }
  }

  /** Lists, the numbers of the blocks, and the number of bytes in use agree. */
  ghost predicate Sound(blocks: Blocks, all: seq<nat>, unused: seq<nat>, free: seq<seq<nat>>, top: nat, size: int) {
    && Lists(blocks, all, unused, free)
    && (forall id: nat :: id in blocks ==> id < top)
    && (forall x: nat :: x in all ==> x in blocks) && size == Total(blocks, all)
  }

  /** A block without any page in use is the only one. */
  predicate OnlyEmpty(blocks: Blocks, all: seq<nat>) {
    forall id: nat :: id in blocks && blocks[id].nrused == 0 ==> all == [id]
  }

  lemma SoundLists(blocks: Blocks, all: seq<nat>, unused: seq<nat>, free: seq<seq<nat>>, top: nat, size: int)
    requires Sound(blocks, all, unused, free, top, size)
    ensures Lists(blocks, all, unused, free) && Distinct(all) && |free| == SIZES && Distinct(unused) && size >= 0
    ensures forall x: nat :: x in all <==> x in blocks
    ensures forall x: nat :: x in blocks ==> x < top && BlockOk(blocks[x])
    ensures size == Total(blocks, all) && (size == 0 <==> forall x: nat :: x in blocks ==> blocks[x].nrused == 0)
  {
    TotalNone(blocks, all);
  }

  lemma TopFresh(blocks: Blocks, all: seq<nat>, unused: seq<nat>, free: seq<seq<nat>>, top: nat, size: int)
    requires Sound(blocks, all, unused, free, top, size)
    ensures top !in blocks
  {
  }

  /** Block id becomes b. */
  lemma SoundStored(blocks: Blocks, all: seq<nat>, unused: seq<nat>, free: seq<seq<nat>>, top: nat, size: int,
                    id: nat, b: Block, unused': seq<nat>, free': seq<seq<nat>>)
    requires Sound(blocks, all, unused, free, top, size) && id in blocks && BlockOk(b)
    requires Followed(blocks, unused, free, id, b, unused', free')
    ensures Sound(blocks[id := b], all, unused', free', top, size + BlockBytes(b) - BlockBytes(blocks[id]))
  {
    SoundLists(blocks, all, unused, free, top, size);
    ListsFollow(blocks, all, unused, free, id, b, unused', free');
    TotalUpdate(blocks, all, id, b);
    hide Lists, BlockBytes, BlockOk, Followed;
  }

  /** A new block is put in front of the lists. */
  lemma SoundAdded(blocks: Blocks, all: seq<nat>, unused: seq<nat>, free: seq<seq<nat>>, top: nat, size: int)
    requires Sound(blocks, all, unused, free, top, size)
    ensures |free| == SIZES && Sound(blocks[top := NewBlock()], [top] + all, [top] + unused,
      free[FIRSTSIZE := [top] + free[FIRSTSIZE]], top + 1, size)
  {
    hide Lists, NewBlock, BlockOk, BlockBytes;
    SoundLists(blocks, all, unused, free, top, size);
    NewBlockOk();
    var b := NewBlock();
    var blocks', free' := blocks[top := b], free[FIRSTSIZE := [top] + free[FIRSTSIZE]];
    NewLists(blocks, all, unused, free, top, b);
    FirstAdded(all, top);
    FirstAdded(unused, top);
    TotalSame(blocks, blocks', all);
    assert ([top] + all)[1..] == all;
  }

  lemma NewLists(blocks: Blocks, all: seq<nat>, unused: seq<nat>, free: seq<seq<nat>>, id: nat, b: Block)
    requires Lists(blocks, all, unused, free) && id !in blocks && BlockOk(b) && HasUnused(b) && |b.freesub| == SIZES
    requires forall z :: 0 <= z < SIZES ==> (b.freesub[z] != [] <==> z == FIRSTSIZE)
    ensures |free| == SIZES
    ensures Lists(blocks[id := b], [id] + all, [id] + unused, free[FIRSTSIZE := [id] + free[FIRSTSIZE]])
  {
    hide BlockOk, HasUnused;
    var blocks', free' := blocks[id := b], free[FIRSTSIZE := [id] + free[FIRSTSIZE]];
    FirstAdded(all, id);
    FirstAdded(unused, id);
    ListAt(blocks, all, unused, free, FIRSTSIZE);
    FirstAdded(free[FIRSTSIZE], id);
    forall z | 0 <= z < SIZES ensures FreeOk(blocks', free', z) {
      assert FreeOk(blocks, free, z);
    }
  }

  function Without(free: seq<seq<nat>>, id: nat): seq<seq<nat>> {
    seq(|free|, z requires 0 <= z < |free| => Remove(free[z], id))
  }

  /** A block is taken off all lists. */
  lemma SoundRemoved(blocks: Blocks, all: seq<nat>, unused: seq<nat>, free: seq<seq<nat>>, top: nat, size: int, id: nat)
    requires Sound(blocks, all, unused, free, top, size) && id in blocks
    ensures Sound(blocks - {id}, Remove(all, id), Remove(unused, id), Without(free, id), top,
      size - BlockBytes(blocks[id]))
  {
    SoundLists(blocks, all, unused, free, top, size);
    RemovedLists(blocks, all, unused, free, id);
    RemoveOk(all, id);
    TotalRemove(blocks, all, id);
    hide Lists, BlockOk, BlockBytes;
    TotalSame(blocks, blocks - {id}, Remove(all, id));
  }

  lemma RemovedLists(blocks: Blocks, all: seq<nat>, unused: seq<nat>, free: seq<seq<nat>>, id: nat)
    requires Lists(blocks, all, unused, free) && id in blocks
    ensures Lists(blocks - {id}, Remove(all, id), Remove(unused, id), Without(free, id))
  {
    hide BlockOk, HasUnused;
    var blocks', free' := blocks - {id}, Without(free, id);
    RemoveOk(all, id);
    RemoveOk(unused, id);
    forall z | 0 <= z < SIZES ensures FreeOk(blocks', free', z) {
      assert FreeOk(blocks, free, z);
      RemoveOk(free[z], id);
    }
  }

  lemma OkLists(b: Block)
    requires BlockOk(b)
    ensures |b.freesub| == SIZES && |b.sub| == NRSUB
  {
  }

  lemma SoundBlock(blocks: Blocks, all: seq<nat>, unused: seq<nat>, free: seq<seq<nat>>, top: nat, size: int, id: nat)
    requires Sound(blocks, all, unused, free, top, size) && id in blocks
    ensures BlockOk(blocks[id]) && |blocks[id].freesub| == SIZES && |blocks[id].sub| == NRSUB
  {
    BlockLists(blocks, all, unused, free, id);
  }

  method AllocFree(b: Block, pgsize: nat) returns (b': Block, i: nat, page: nat)
    requires BlockOk(b) && pgsize < SIZES && |b.freesub| == SIZES && b.freesub[pgsize] != []
    ensures BlockOk(b') && Gains(b, b', i, page) && |b'.freesub| == SIZES
    ensures b'.sub[i].pgsize == pgsize && i == b.freesub[pgsize][0]
    ensures forall z :: 0 <= z < SIZES && z != pgsize ==> b'.freesub[z] == b.freesub[z]
  {
    hide Shape, Gains;
    b', i, page := AllocPageBlock(b, pgsize);
    OkLists(b');
    GainedAt(b, b', i, page);
  }

  lemma GainedAt(b: Block, b': Block, i: nat, page: nat)
    requires Gains(b, b', i, page)
    ensures i < |b'.sub|
  {
  }

  /** No block without a page in use is left out. */
  lemma EmptyHere(blocks: Blocks, all: seq<nat>, unused: seq<nat>, free: seq<seq<nat>>, top: nat, size: int)
    requires Sound(blocks, all, unused, free, top, size) && OnlyEmpty(blocks, all)
    ensures forall id: nat, x: nat :: id in blocks && x in blocks && blocks[x].nrused == 0 ==> x == id
    ensures unused == [] ==> forall x: nat :: x in blocks ==> blocks[x].nrused != 0
  {
    SoundLists(blocks, all, unused, free, top, size);
    if unused == [] {
      forall x: nat | x in blocks ensures blocks[x].nrused != 0 {
        BlockNone(blocks[x]);
        BlockLists(blocks, all, unused, free, x);
      }
    }
  }

  /** The heads of the lists. */
  lemma Heads(blocks: Blocks, all: seq<nat>, unused: seq<nat>, free: seq<seq<nat>>, top: nat, size: int, z: nat)
    requires Sound(blocks, all, unused, free, top, size) && z < SIZES
    ensures |free| == SIZES
    ensures free[z] != [] ==>
      free[z][0] in blocks && z < |blocks[free[z][0]].freesub| && blocks[free[z][0]].freesub[z] != []
    ensures unused != [] ==> unused[0] in blocks && HasUnused(blocks[unused[0]])
  {
    ListAt(blocks, all, unused, free, z);
  }

  /** A block has an unused sub-block exactly if some sub-block has no page size. */
  lemma UnusedSubs(b: Block)
    requires BlockOk(b)
    ensures HasUnused(b) <==> exists i :: 0 <= i < |b.sub| && b.sub[i].pgsize == 13
  {
    hide SubOk, ListOk, Used;
    if b.unusedsub != [] {
      assert b.unusedsub[0] in b.unusedsub;
    } else if b.nextunused < NRSUB {
      assert b.sub[b.nextunused].pgsize == 13;
    }
  }

  /** A new block is made only if all pages of this size are in use, in all blocks, and no sub-block is unused. */
  lemma NoneServes(blocks: Blocks, all: seq<nat>, unused: seq<nat>, free: seq<seq<nat>>, top: nat, size: int, z: nat)
    requires Sound(blocks, all, unused, free, top, size) && z < 13
    ensures |free| == 13
    ensures free[z] == [] <==> forall id: nat, i: nat, p: nat ::
      id in blocks && i < |blocks[id].sub| && blocks[id].sub[i].pgsize == z && FirstPage(i) <= p < NrPages(z) ==>
        LiveIn(blocks[id], i, p)
    ensures unused == [] <==> forall id: nat, i: nat ::
      id in blocks && i < |blocks[id].sub| ==> blocks[id].sub[i].pgsize < 13
  {
    hide LiveIn, NrPages, BlockOk, HasUnused;
    ListAt(blocks, all, unused, free, z);
    forall id: nat | id in blocks
      ensures BlockOk(blocks[id]) && z < |blocks[id].freesub| && (id in unused <==> HasUnused(blocks[id]))
    {
      BlockLists(blocks, all, unused, free, id);
    }
    if free[z] != [] {
      var id := free[z][0];
      assert id in free[z];
      var i, p := SomeFree(blocks[id], z);
    } else {
      forall id: nat, i: nat, p: nat |
        id in blocks && i < |blocks[id].sub| && blocks[id].sub[i].pgsize == z && FirstPage(i) <= p < NrPages(z)
        ensures LiveIn(blocks[id], i, p)
      {
        AllInUse(blocks[id], z, i, p);
      }
    }
    if unused != [] {
      var id := unused[0];
      assert id in unused && id in blocks;
      UnusedSubs(blocks[id]);
      SubSizes(blocks[id]);
    } else {
      forall id: nat, i: nat | id in blocks && i < |blocks[id].sub| ensures blocks[id].sub[i].pgsize < 13 {
        UnusedSubs(blocks[id]);
        SubSizes(blocks[id]);
      }
    }
  }

  lemma SubSizes(b: Block)
    requires BlockOk(b)
    ensures forall i :: 0 <= i < |b.sub| ==> b.sub[i].pgsize <= 13
  {
    hide IsLive, NrLive, HeaderOk;
  }

  lemma SomeFree(b: Block, z: nat) returns (i: nat, p: nat)
    requires BlockOk(b) && z < 13 && z < |b.freesub| && b.freesub[z] != []
    ensures i < |b.sub| && b.sub[i].pgsize == z && FirstPage(i) <= p < NrPages(z) && !LiveIn(b, i, p)
  {
    i := b.freesub[z][0];
    Listed(b, z, i);
    OkLists(b);
    p := b.sub[i].header - 1;
    HeaderBelow(i, b.sub[i]);
  }

  lemma AllInUse(b: Block, z: nat, i: nat, p: nat)
    requires BlockOk(b) && z < |b.freesub| && b.freesub[z] == [] && i < |b.sub| && b.sub[i].pgsize == z < 13
    requires FirstPage(i) <= p < NrPages(z)
    ensures LiveIn(b, i, p)
  {
    hide NrPages, SubOk, Used, UnusedOk;
    assert ListOk(b, z);
    assert b.sub[i].header == 0;
  }

  lemma Single(all: seq<nat>, id: nat)
    requires Distinct(all) && id in all && forall k :: 0 <= k < |all| ==> all[k] == id
    ensures all == [id]
  {
    assert all[0] == all[|all| - 1];
  }

  /** If the last page is released its block is the only one. */
  lemma OnlyBlock(blocks: Blocks, all: seq<nat>, unused: seq<nat>, free: seq<seq<nat>>, top: nat, size: int, id: nat)
    requires Sound(blocks, all, unused, free, top, size) && size == 0 && id in blocks
    requires forall x: nat :: x in blocks && blocks[x].nrused == 0 ==> x == id
    ensures OnlyEmpty(blocks, all)
  {
    SoundLists(blocks, all, unused, free, top, size);
    hide Lists, BlockOk, Total;
    assert forall k :: 0 <= k < |all| ==> all[k] in all;
    Single(all, id);
  }

  lemma SameLive(blocks: Blocks, id: nat, b: Block)
    requires id !in blocks && forall i: nat, p: nat :: !LiveIn(b, i, p)
    ensures forall x: nat, j: nat, q: nat :: Live(blocks[id := b], x, j, q) <==> Live(blocks, x, j, q)
  {
    hide LiveIn;
  }

  lemma SameInUse(blocks: Blocks, id: nat, b: Block)
    requires id !in blocks && forall i: nat, p: nat :: !LiveIn(b, i, p)
    ensures forall m: Memblock :: InUse(blocks[id := b], m) <==> InUse(blocks, m)
  {
    hide LiveIn, Bytes;
    forall m: Memblock ensures InUse(blocks[id := b], m) <==> InUse(blocks, m) {
      if InUse(blocks, m) {
        var p: nat :| Live(blocks, m.id, m.sub, p) && m.offset == p * m.size;
        assert Live(blocks[id := b], m.id, m.sub, p);
      }
      if InUse(blocks[id := b], m) {
        var p: nat :| Live(blocks[id := b], m.id, m.sub, p) && m.offset == p * m.size;
        assert Live(blocks, m.id, m.sub, p);
      }
    }
  }

  lemma GainsLive(blocks: Blocks, id: nat, b: Block, i: nat, p: nat)
    requires id in blocks && Gains(blocks[id], b, i, p)
    ensures b.nrused > 0 && !Live(blocks, id, i, p) && i < |b.sub|
    ensures BlockBytes(b) == BlockBytes(blocks[id]) + Bytes(b.sub[i].pgsize) && p < NrPages(b.sub[i].pgsize)
    ensures forall x: nat, j: nat, q: nat ::
      Live(blocks[id := b], x, j, q) <==> Live(blocks, x, j, q) || (x == id && j == i && q == p)
  {
    hide LiveIn, BlockBytes, NrPages, Bytes;
  }

  lemma LosesLive(blocks: Blocks, id: nat, b: Block, i: nat, p: nat)
    requires id in blocks && i < |blocks[id].sub| && Loses(blocks[id], b, i, p)
    ensures b.nrused == blocks[id].nrused - 1
    ensures BlockBytes(b) == BlockBytes(blocks[id]) - Bytes(blocks[id].sub[i].pgsize)
    ensures forall x: nat, j: nat, q: nat ::
      Live(blocks[id := b], x, j, q) <==> Live(blocks, x, j, q) && !(x == id && j == i && q == p)
  {
    hide LiveIn, BlockBytes, Bytes;
  }

  lemma DeletedLive(blocks: Blocks, id: nat)
    requires id in blocks && BlockOk(blocks[id]) && blocks[id].nrused == 0
    ensures forall x: nat, j: nat, q: nat :: Live(blocks - {id}, x, j, q) <==> Live(blocks, x, j, q)
  {
    BlockNone(blocks[id]);
    hide LiveIn, BlockOk;
  }

  // ---- offsets

  lemma DivUnique(x: nat, b: nat, q: nat, r: nat)
    requires r < b && x == q * b + r
    ensures x / b == q && x % b == r
  {
    var d, m := x / b, x % b;
    assert x == d * b + m && 0 <= m < b;
    if d < q {
      ProductLess(d, q, b);
    } else if q < d {
      ProductLess(q, d, b);
    }
  }

  lemma OffsetParts(p: nat, b: nat)
    requires b > 0
    ensures p * b / b == p && p * b % b == 0
  {
    DivUnique(p * b, b, p, 0);
  }

  lemma OffsetPage(offset: nat, pgsize: nat)
    requires pgsize < SIZES && offset < SUBSIZE && offset % Bytes(pgsize) == 0
    ensures offset / Bytes(pgsize) < NrPages(pgsize)
    ensures offset / Bytes(pgsize) * Bytes(pgsize) == offset
  {
    hide Bytes, NrPages;
    BytesDivide(pgsize);
    var p, n := offset / Bytes(pgsize), NrPages(pgsize);
    if p >= n {
      ProductLess(n, p + 1, Bytes(pgsize));
    }
  }

  /** The address lies behind block_t if it lies in one of the blocks, and not in one of another owner. */
  predicate Addressed(blocks: Blocks, page: Memblock) {
    page.Memblock? && page.id in blocks ==>
      && page.sub < NRSUB && page.sub < |blocks[page.id].sub|
      && FirstPage(page.sub) * Bytes(FIRSTSIZE) <= page.offset < SUBSIZE
  }

  /** The block of memory is a page in use: it starts where this page starts, and has its size. */
  ghost predicate InUse(blocks: Blocks, page: Memblock) {
    && page.Memblock? && page.id in blocks && page.sub < |blocks[page.id].sub|
    && page.size == Bytes(blocks[page.id].sub[page.sub].pgsize)
    && exists p: nat :: Live(blocks, page.id, page.sub, p) && page.offset == p * page.size
  }

  /** Which blocks of memory are pages in use, by number. */
  lemma InUseAt(blocks: Blocks, page: Memblock)
    requires page.Memblock? && page.id in blocks && page.sub < |blocks[page.id].sub|
    requires page.size == Bytes(blocks[page.id].sub[page.sub].pgsize)
    ensures InUse(blocks, page) <==> page.offset % page.size == 0 && Live(blocks, page.id, page.sub, page.Index())
  {
    hide Live, Bytes;
    if InUse(blocks, page) {
      var p: nat :| Live(blocks, page.id, page.sub, p) && page.offset == p * page.size;
      OffsetParts(p, page.size);
    }
  }

  lemma LiveSized(b: Block, i: nat, p: nat)
    requires LiveIn(b, i, p)
    ensures i < |b.sub| && b.sub[i].pgsize < SIZES
  {
  }

  /** One more page is in use. */
  lemma InUseGains(blocks: Blocks, id: nat, b: Block, i: nat, p: nat, page: Memblock)
    requires i < |b.sub| && page == Memblock(id, i, p * Bytes(b.sub[i].pgsize), Bytes(b.sub[i].pgsize))
    requires id in blocks && Gains(blocks[id], b, i, p)
    ensures !InUse(blocks, page)
    ensures forall m: Memblock :: InUse(blocks[id := b], m) <==> InUse(blocks, m) || m == page
  {
    hide LiveIn, Bytes, NrPages, BlockBytes, InUse;
    var blocks' := blocks[id := b];
    forall m: Memblock ensures InUse(blocks', m) <==> InUse(blocks, m) || m == page {
      InUseStep(blocks, id, b, i, p, m, page);
    }
    if InUse(blocks, page) { NotBefore(blocks, id, b, i, p, page); }
  }

  lemma NotBefore(blocks: Blocks, id: nat, b: Block, i: nat, p: nat, page: Memblock)
    requires i < |b.sub| && page == Memblock(id, i, p * Bytes(b.sub[i].pgsize), Bytes(b.sub[i].pgsize))
    requires id in blocks && Gains(blocks[id], b, i, p)
    ensures !InUse(blocks, page)
  {
    hide LiveIn, Bytes, NrPages, BlockBytes;
    if InUse(blocks, page) {
      var q: nat :| Live(blocks, id, i, q) && page.offset == q * page.size;
      SameIndex(p, q, page.size);
    }
  }

  lemma SameIndex(p: nat, q: nat, b: nat)
    requires b > 0 && p * b == q * b
    ensures p == q
  {
    OffsetParts(p, b);
    OffsetParts(q, b);
  }

  lemma InUseStep(blocks: Blocks, id: nat, b: Block, i: nat, p: nat, m: Memblock, page: Memblock)
    requires i < |b.sub| && page == Memblock(id, i, p * Bytes(b.sub[i].pgsize), Bytes(b.sub[i].pgsize))
    requires id in blocks && Gains(blocks[id], b, i, p)
    ensures InUse(blocks[id := b], m) <==> InUse(blocks, m) || m == page
  {
    hide LiveIn, Bytes, NrPages, BlockBytes;
    var blocks' := blocks[id := b];
    if InUse(blocks', m) {
      var q: nat :| Live(blocks', m.id, m.sub, q) && m.offset == q * m.size;
      if !(m.id == id && m.sub == i && q == p) {
        assert Live(blocks, m.id, m.sub, q);
        if m.id == id { LiveSized(blocks[id], m.sub, q); }
      }
    }
    if InUse(blocks, m) {
      var q: nat :| Live(blocks, m.id, m.sub, q) && m.offset == q * m.size;
      assert Live(blocks', m.id, m.sub, q);
      if m.id == id { LiveSized(blocks[id], m.sub, q); }
    }
    if m == page { assert Live(blocks', id, i, p); }
  }

  /** One page less is in use. */
  lemma InUseLoses(blocks: Blocks, id: nat, b: Block, i: nat, p: nat, page: Memblock)
    requires id in blocks && i < |blocks[id].sub| && Loses(blocks[id], b, i, p)
    requires page == Memblock(id, i, p * Bytes(blocks[id].sub[i].pgsize), Bytes(blocks[id].sub[i].pgsize))
    ensures forall m: Memblock :: InUse(blocks[id := b], m) <==> InUse(blocks, m) && m != page
  {
    hide LiveIn, Bytes, NrPages, BlockBytes, InUse;
    var blocks' := blocks[id := b];
    forall m: Memblock ensures InUse(blocks', m) <==> InUse(blocks, m) && m != page {
      InUseStepBack(blocks, id, b, i, p, m, page);
    }
  }

  lemma InUseStepBack(blocks: Blocks, id: nat, b: Block, i: nat, p: nat, m: Memblock, page: Memblock)
    requires id in blocks && i < |blocks[id].sub| && Loses(blocks[id], b, i, p)
    requires page == Memblock(id, i, p * Bytes(blocks[id].sub[i].pgsize), Bytes(blocks[id].sub[i].pgsize))
    ensures InUse(blocks[id := b], m) <==> InUse(blocks, m) && m != page
  {
    hide LiveIn, Bytes, NrPages, BlockBytes;
    var blocks' := blocks[id := b];
    if InUse(blocks', m) {
      var q: nat :| Live(blocks', m.id, m.sub, q) && m.offset == q * m.size;
      assert Live(blocks, m.id, m.sub, q);
      if m.id == id { LiveSized(b, m.sub, q); }
      OffsetParts(p, page.size);
      OffsetParts(q, m.size);
    }
    if InUse(blocks, m) && m != page {
      var q: nat :| Live(blocks, m.id, m.sub, q) && m.offset == q * m.size;
      assert Live(blocks', m.id, m.sub, q);
      if m.id == id { LiveSized(b, m.sub, q); }
    }
  }

  /** Without a block that has no page in use. */
  lemma InUseDeleted(blocks: Blocks, id: nat)
    requires id in blocks && BlockOk(blocks[id]) && blocks[id].nrused == 0
    ensures forall m: Memblock :: InUse(blocks - {id}, m) <==> InUse(blocks, m)
  {
    DeletedLive(blocks, id);
    hide BlockOk, LiveIn, Bytes;
    forall m: Memblock ensures InUse(blocks - {id}, m) <==> InUse(blocks, m) {
      if InUse(blocks, m) {
        var q: nat :| Live(blocks, m.id, m.sub, q) && m.offset == q * m.size;
        assert Live(blocks - {id}, m.id, m.sub, q);
      }
      if InUse(blocks - {id}, m) {
        var q: nat :| Live(blocks - {id}, m.id, m.sub, q) && m.offset == q * m.size;
        assert Live(blocks, m.id, m.sub, q);
      }
    }
  }

  /** Only blocks without a page in use have been deleted; those left are listed. */
  ghost predicate Kept(blocks: Blocks, blocks': Blocks, list: seq<nat>) {
    && (forall x: nat :: x in blocks' ==> x in blocks && blocks'[x] == blocks[x])
    && (forall x: nat :: x in blocks && blocks[x].nrused != 0 ==> x in blocks')
    && (forall x: nat :: x in blocks' && blocks'[x].nrused == 0 ==> x in list)
  }

  lemma AllListed(blocks: Blocks, all: seq<nat>, unused: seq<nat>, free: seq<seq<nat>>, top: nat, size: int)
    requires Sound(blocks, all, unused, free, top, size)
    ensures Distinct(all) && Kept(blocks, blocks, all)
  {
  }

  /** A page in use lies within its block, behind block_t, and does not hold the header of its sub-block. The size
      of block_t is that of its fields, the block has 1024 sub-blocks of one megabyte. */
  lemma LiveInside(b: Block, i: nat, p: nat)
    requires BlockOk(b) && LiveIn(b, i, p)
    ensures var s := b.sub[i].pgsize;
      && s < SIZES && p < NrPages(s) && b.sub[i].header != p + 1
      && 3448 <= PageOffset(i, s, p) == i * 0x10_0000 + p * Bytes(s)
      && PageOffset(i, s, p) + Bytes(s) <= i * 0x10_0000 + 0x10_0000 <= 0x4000_0000
  {
    ShapeAt(b, i);
    LiveBelow(i, b.sub[i], p);
    hide Shape, NrPages, IsLive, SubOk, PageOffset;
    PlacedInside(i, b.sub[i].pgsize, p);
  }

  /** So does the page that holds the header of a sub-block; it is not in use. */
  lemma HeaderInside(b: Block, i: nat)
    requires BlockOk(b) && i < |b.sub| && b.sub[i].pgsize < SIZES && b.sub[i].header != 0
    ensures var s, h := b.sub[i].pgsize, b.sub[i].header - 1;
      && h < NrPages(s) && !LiveIn(b, i, h)
      && 3448 <= PageOffset(i, s, h) && PageOffset(i, s, h) + Bytes(s) <= i * 0x10_0000 + 0x10_0000 <= 0x4000_0000
  {
    ShapeAt(b, i);
    HeaderBelow(i, b.sub[i]);
    hide Shape, NrPages, IsLive, SubOk, PageOffset;
    PlacedInside(i, b.sub[i].pgsize, b.sub[i].header - 1);
  }

  lemma HeaderBelow(i: nat, s: Sub)
    requires SubOk(i, s) && s.pgsize < SIZES && s.header != 0
    ensures FirstPage(i) <= s.header - 1 < NrPages(s.pgsize) && !IsLive(i, s, s.header - 1)
    ensures i == 0 ==> s.pgsize == FIRSTSIZE
  {
    hide NrPages;
  }

  lemma PlacedInside(i: nat, s: nat, p: nat)
    requires i < NRSUB && s < SIZES && FirstPage(i) <= p < NrPages(s) && (i == 0 ==> s == FIRSTSIZE)
    ensures 3448 <= PageOffset(i, s, p) == i * 0x10_0000 + p * Bytes(s)
    ensures PageOffset(i, s, p) + Bytes(s) <= i * 0x10_0000 + 0x10_0000 <= 0x4000_0000
  {
    hide NrPages;
    PageInside(i, s, p);
    BehindBlock(i, s, p);
  }

  /** Different pages in use do not overlap. */
  lemma LiveApart(b: Block, i: nat, p: nat, j: nat, q: nat)
    requires BlockOk(b) && LiveIn(b, i, p) && LiveIn(b, j, q) && (i != j || p != q)
    ensures var s, t := b.sub[i].pgsize, b.sub[j].pgsize;
      PageOffset(i, s, p) + Bytes(s) <= PageOffset(j, t, q) || PageOffset(j, t, q) + Bytes(t) <= PageOffset(i, s, p)
  {
    LiveInside(b, i, p);
    LiveInside(b, j, q);
    hide BlockOk, NrPages, IsLive, PageOffset;
    PagesDisjoint(i, b.sub[i].pgsize, p, j, b.sub[j].pgsize, q);
  }

  lemma LiveBelow(i: nat, s: Sub, p: nat)
    requires SubOk(i, s) && IsLive(i, s, p)
    ensures FirstPage(i) <= p < NrPages(s.pgsize) && s.header != p + 1
    ensures s.pgsize < SIZES && (i == 0 ==> s.pgsize == FIRSTSIZE)
  {
    hide NrPages;
  }

  lemma BehindBlock(i: nat, s: nat, p: nat)
    requires FirstPage(i) <= p && (i == 0 ==> s == FIRSTSIZE)
    ensures BLOCKT <= PageOffset(i, s, p)
  {
    PageSizes();
    if i == 0 {
      if p > BLOCKPAGES { ProductLess(BLOCKPAGES, p, Bytes(s)); }
    } else {
      ProductLess(0, i, SUBSIZE);
    }
  }

  lemma NotHeld(blocks: Blocks, page: Memblock)
    requires page.Memblock? && Addressed(blocks, page)
    ensures InUse(blocks, page) ==> page.id in blocks && page.offset % page.size == 0
    ensures InUse(blocks, page) ==> blocks[page.id].sub[page.sub].pgsize < SIZES
    ensures InUse(blocks, page) ==> page.size == Bytes(blocks[page.id].sub[page.sub].pgsize)
  {
    hide LiveIn, Bytes;
    if InUse(blocks, page) {
      var p: nat :| Live(blocks, page.id, page.sub, p) && page.offset == p * page.size;
      LiveSized(blocks[page.id], page.sub, p);
      OffsetParts(p, page.size);
    }
  }

  lemma ListsChanged(b: Block, b': Block, i: nat, pgsize: nat)
    requires ListsChange(b, b', i, pgsize)
    ensures |b.freesub| == SIZES && |b'.freesub| == SIZES
    ensures forall z :: 0 <= z < SIZES && z != pgsize ==> b'.freesub[z] == b.freesub[z]
  {
  }

  lemma PlacedAt(b: Block, i: nat, p: nat)
    requires BlockOk(b) && LiveIn(b, i, p)
    ensures i < 1024 && 3448 <= i * 0x10_0000 + p * Bytes(b.sub[i].pgsize)
    ensures p * Bytes(b.sub[i].pgsize) + Bytes(b.sub[i].pgsize) <= 0x10_0000
  {
    LiveInside(b, i, p);
    assert i < |b.sub| == NRSUB;
  }

  /** If any page is in use, no block is without one. */
  lemma EmptyOnly(blocks: Blocks, all: seq<nat>, unused: seq<nat>, free: seq<seq<nat>>, top: nat, size: int)
    requires Sound(blocks, all, unused, free, top, size) && OnlyEmpty(blocks, all)
    ensures size != 0 ==> forall id: nat :: id in blocks ==> blocks[id].nrused != 0
    ensures size == 0 ==> forall id: nat :: id in blocks ==> blocks[id].nrused == 0
  {
    SoundLists(blocks, all, unused, free, top, size);
    hide Sound;
    forall id: nat | id in blocks && blocks[id].nrused == 0 ensures size == 0 {
      assert all == [id];
      assert forall x: nat :: x in blocks ==> x in all;
    }
  }

  lemma PageInBlock(b: Block, page: Memblock)
    requires BlockOk(b) && page.Memblock? && page.sub < |b.sub| && page.sub < NRSUB && page.offset < SUBSIZE
    requires FirstPage(page.sub) * Bytes(FIRSTSIZE) <= page.offset
    requires b.sub[page.sub].pgsize < SIZES && page.size == Bytes(b.sub[page.sub].pgsize)
    requires page.offset % page.size == 0
    ensures FirstPage(page.sub) <= page.Index() < NrPages(b.sub[page.sub].pgsize)
  {
    ShapeAt(b, page.sub);
    OffsetPage(page.offset, b.sub[page.sub].pgsize);
    hide Shape, Bytes, NrPages;
  }

  /** pagecache_impl_t */
  class PageCacheImpl {
    var blocks: Blocks
    var blocklist: seq<nat>
    var unusedblocks: seq<nat>
    var freeblocks: seq<seq<nat>>
    var sizeallocated: int
    var top: nat

    ghost predicate Linked()
      reads this
    {
      Sound(blocks, blocklist, unusedblocks, freeblocks, top, sizeallocated)
    }

    ghost predicate Valid()
      reads this
    {
      Linked() && OnlyEmpty(blocks, blocklist)
    }

    /** init_pagecacheimpl */
    constructor ()
      ensures Valid() && blocks == map[] && sizeallocated == 0
    {
      blocks, blocklist, unusedblocks, freeblocks, sizeallocated, top := map[], [], [], seq(SIZES, _ => []), 0, 0;
      new;
      assert forall z :: 0 <= z < SIZES ==> FreeOk(blocks, freeblocks, z);
    }

    /** new_block */
    method AddBlock() returns (id: nat)
      requires Linked()
      modifies this
      ensures Linked() && id == old(top) && id !in old(blocks) && blocks == old(blocks)[id := NewBlock()]
      ensures top == id + 1
      ensures blocklist == [id] + old(blocklist) && unusedblocks == [id] + old(unusedblocks)
      ensures sizeallocated == old(sizeallocated)
      ensures |old(freeblocks)| == SIZES
      ensures freeblocks == old(freeblocks)[FIRSTSIZE := [id] + old(freeblocks)[FIRSTSIZE]]
    {
      hide Sound, Lists, NewBlock, BlockOk, Distinct, Total;
      SoundAdded(blocks, blocklist, unusedblocks, freeblocks, top, sizeallocated);
      TopFresh(blocks, blocklist, unusedblocks, freeblocks, top, sizeallocated);
      id := top;
      blocks, blocklist, unusedblocks := blocks[id := NewBlock()], [id] + blocklist, [id] + unusedblocks;
      freeblocks := freeblocks[FIRSTSIZE := [id] + freeblocks[FIRSTSIZE]];
      top := top + 1;
    }

    /** delete_block */
    method DeleteBlock(id: nat)
      requires Linked() && id in blocks && blocks[id].nrused == 0
      modifies this
      ensures Linked() && blocks == old(blocks) - {id}
      ensures blocklist == Remove(old(blocklist), id) && sizeallocated == old(sizeallocated) && top == old(top)
      ensures unusedblocks == Remove(old(unusedblocks), id) && |freeblocks| == |old(freeblocks)|
      ensures forall z :: 0 <= z < |freeblocks| ==> freeblocks[z] == Remove(old(freeblocks)[z], id)
    {
      hide Lists, BlockOk, BlockBytes, Total, Distinct;
      SoundRemoved(blocks, blocklist, unusedblocks, freeblocks, top, sizeallocated, id);
      SoundLists(blocks, blocklist, unusedblocks, freeblocks, top, sizeallocated);
      BlockNone(blocks[id]);
      blocks, blocklist, unusedblocks := blocks - {id}, Remove(blocklist, id), Remove(unusedblocks, id);
      var free, z := [], 0;
      while z < |freeblocks|
        invariant z <= |freeblocks| && |free| == z && freeblocks == old(freeblocks)
        invariant forall y :: 0 <= y < z ==> free[y] == Remove(freeblocks[y], id)
      {
        free := free + [Remove(freeblocks[z], id)];
        z := z + 1;
      }
      assert free == Without(freeblocks, id);
      freeblocks := free;
    }

    /** Block id becomes b; it joins or leaves the lists of blocks. */
    method Store(id: nat, b: Block, pgsize: nat)
      requires Linked() && id in blocks && BlockOk(b) && pgsize < SIZES && |b.freesub| == SIZES
      requires forall z :: 0 <= z < SIZES && z != pgsize ==>
        z < |blocks[id].freesub| && b.freesub[z] == blocks[id].freesub[z]
      modifies this
      ensures Sound(blocks, blocklist, unusedblocks, freeblocks, top,
        sizeallocated + BlockBytes(b) - BlockBytes(old(blocks)[id]))
      ensures blocks == old(blocks)[id := b] && blocklist == old(blocklist) && sizeallocated == old(sizeallocated)
      ensures top == old(top) && Served(old(unusedblocks), old(freeblocks), id, b, pgsize, unusedblocks, freeblocks)
    {
      hide Lists, Sound, BlockOk, BlockBytes, HasUnused, Distinct, Followed;
      SoundLists(blocks, blocklist, unusedblocks, freeblocks, top, sizeallocated);
      BlockLists(blocks, blocklist, unusedblocks, freeblocks, id);
      ListAt(blocks, blocklist, unusedblocks, freeblocks, pgsize);
      var unused := Relist(unusedblocks, id, HasUnused(blocks[id]), HasUnused(b));
      var list := Relist(freeblocks[pgsize], id, blocks[id].freesub[pgsize] != [], b.freesub[pgsize] != []);
      FollowAll(blocks, blocklist, unusedblocks, freeblocks, id, b, pgsize, unused, list);
      SoundStored(blocks, blocklist, unusedblocks, freeblocks, top, sizeallocated, id, b, unused,
                  freeblocks[pgsize := list]);
      blocks, unusedblocks, freeblocks := blocks[id := b], unused, freeblocks[pgsize := list];
    }

    /** The block that allocpage_pagecacheimpl takes a page from: one with free pages of this size,
        one with an unused sub-block, or a new one. */
    method SelectBlock(pgsize: nat) returns (id: nat, hasFree: bool)
      requires Valid() && pgsize < SIZES
      modifies this
      ensures Linked() && id in blocks && |old(freeblocks)| == SIZES && sizeallocated == old(sizeallocated)
      ensures forall m: Memblock :: InUse(blocks, m) <==> InUse(old(blocks), m)
      ensures if hasFree then pgsize < |blocks[id].freesub| && blocks[id].freesub[pgsize] != []
        else HasUnused(blocks[id])
      ensures forall x: nat, j: nat, q: nat :: Live(blocks, x, j, q) <==> Live(old(blocks), x, j, q)
      ensures forall x: nat :: x in blocks && blocks[x].nrused == 0 ==> x == id
      ensures if old(freeblocks)[pgsize] != [] then id == old(freeblocks)[pgsize][0] && unchanged(this)
        else if old(unusedblocks) != [] then id == old(unusedblocks)[0] && unchanged(this)
        else id == old(top) && id !in old(blocks) && blocks == old(blocks)[id := NewBlock()] && top == id + 1
      ensures id !in old(blocks) ==> blocklist == [id] + old(blocklist) && unusedblocks == [id]
      ensures id !in old(blocks) ==> freeblocks == old(freeblocks)[FIRSTSIZE := [id] + old(freeblocks)[FIRSTSIZE]]
    {
      hide Sound, BlockOk, LiveIn, NewBlock, HasUnused, InUse;
      EmptyHere(blocks, blocklist, unusedblocks, freeblocks, top, sizeallocated);
      Heads(blocks, blocklist, unusedblocks, freeblocks, top, sizeallocated, pgsize);
      hasFree := true;
      if freeblocks[pgsize] == [] {
        if unusedblocks == [] {
          NewBlockOk();
          TopFresh(blocks, blocklist, unusedblocks, freeblocks, top, sizeallocated);
          SameLive(blocks, top, NewBlock());
          SameInUse(blocks, top, NewBlock());
          id := AddBlock();
          hasFree := freeblocks[pgsize] != [];
        } else {
          id := unusedblocks[0];
          hasFree := false;
        }
      } else {
        id := freeblocks[pgsize][0];
      }
    }

    /** allocpage_pagecacheimpl */
    method AllocPage(pgsize: nat) returns (err: Err, page: Memblock)
      requires Valid()
      modifies this
      ensures Valid() && err != EALREADY && (err == EINVAL <==> pgsize >= 13)
      ensures err == EINVAL ==> page == NoMemory && unchanged(this)
      ensures err == OK ==> page.Memblock? && page.size == Bytes(pgsize) && page.offset % page.size == 0
      ensures err == OK ==> 3448 <= page.sub * 0x10_0000 + page.offset && page.offset + page.size <= 0x10_0000
      ensures err == OK ==> page.sub < 1024 && !InUse(old(blocks), page)
      ensures err == OK ==> forall m: Memblock :: InUse(blocks, m) <==> InUse(old(blocks), m) || m == page
      ensures sizeallocated == old(sizeallocated) + if err == OK then Bytes(pgsize) else 0
      ensures err == OK && |old(freeblocks)| == SIZES ==>
        if old(freeblocks)[pgsize] != [] then page.id == old(freeblocks)[pgsize][0]
        else if old(unusedblocks) != [] then page.id == old(unusedblocks)[0]
        else page.id == old(top) && page.id !in old(blocks)
      ensures err == OK ==> page.id in blocks && blocks == old(blocks)[page.id := blocks[page.id]]
      ensures err == OK && page.id in old(blocks) ==>
        && blocklist == old(blocklist) && top == old(top)
        && Served(old(unusedblocks), old(freeblocks), page.id, blocks[page.id], pgsize, unusedblocks, freeblocks)
      ensures err == OK && page.id !in old(blocks) && |old(freeblocks)| == SIZES ==>
        && blocklist == [page.id] + old(blocklist) && top == page.id + 1
        && Served([page.id], old(freeblocks)[FIRSTSIZE := [page.id] + old(freeblocks)[FIRSTSIZE]],
                  page.id, blocks[page.id], pgsize, unusedblocks, freeblocks)
    {
      hide Sound, BlockOk, LiveIn, HasUnused, Gains, Bytes, NrPages, BlockBytes, InUse, NewBlock, Served;
      if pgsize >= SIZES {
        return EINVAL, NoMemory;
      }
      var id, hasFree := SelectBlock(pgsize);
      SoundBlock(blocks, blocklist, unusedblocks, freeblocks, top, sizeallocated, id);
      var b, i, p;
      if hasFree {
        b, i, p := AllocFree(blocks[id], pgsize);
      } else {
        b, i, p := AllocUnusedBlock(blocks[id], pgsize);
      }
      GainsLive(blocks, id, b, i, p);
      OkLists(b);
      OffsetParts(p, Bytes(pgsize));
      PlacedAt(b, i, p);
      page := Memblock(id, i, p * Bytes(pgsize), Bytes(pgsize));
      InUseGains(blocks, id, b, i, p, page);
      Store(id, b, pgsize);
      sizeallocated := sizeallocated + Bytes(pgsize);
      err := OK;
    }

    /** releasepage_pagecacheimpl: a page in use can always be released, with its address and size. */
    method ReleasePage(page: Memblock) returns (err: Err, page': Memblock)
      requires Valid()
      requires Addressed(blocks, page)
      modifies this
      ensures Valid() && (err == OK <==> page == NoMemory || InUse(old(blocks), page))
      ensures err != OK || page == NoMemory ==> unchanged(this)
      ensures page' == if err == EINVAL then page else NoMemory
      ensures page.Memblock? && page.id !in old(blocks) ==> err == EINVAL
      ensures page.Memblock? && page.id in old(blocks) ==>
        var pgsize := old(blocks)[page.id].sub[page.sub].pgsize;
        err == EINVAL <==> pgsize >= 13 || page.size != Bytes(pgsize) || page.offset % page.size != 0
      ensures err == OK && page.Memblock? ==> sizeallocated == old(sizeallocated) - page.size && top == old(top)
      ensures err == OK && page.Memblock? ==>
        forall m: Memblock :: InUse(blocks, m) <==> InUse(old(blocks), m) && m != page
      ensures err == OK && page.Memblock? ==>
        blocks.Keys == old(blocks).Keys -
          if old(blocks)[page.id].nrused == 1 && sizeallocated != 0 then {page.id} else {}
      ensures forall x :: x in blocks && (page.Memblock? ==> x != page.id) ==> blocks[x] == old(blocks)[x]
      ensures err == OK && page.Memblock? && page.id in blocks ==> blocklist == old(blocklist)
      ensures err == OK && page.Memblock? && page.id in blocks ==>
        Served(old(unusedblocks), old(freeblocks), page.id, blocks[page.id],
               old(blocks)[page.id].sub[page.sub].pgsize, unusedblocks, freeblocks)
      ensures err == OK && page.Memblock? && page.id !in blocks ==> blocklist == Remove(old(blocklist), page.id)
    {
      hide Sound, BlockOk, LiveIn, HasUnused, Loses, Bytes, NrPages, BlockBytes, InUse, Served;
      if page == NoMemory {
        return OK, page;
      }
      NotHeld(blocks, page);
      if page.id !in blocks {
        return EINVAL, page;
      }
      var id, i := page.id, page.sub;
      var pgsize := blocks[id].sub[i].pgsize;
      if pgsize >= SIZES || page.size != Bytes(pgsize) || page.offset % page.size != 0 {
        return EINVAL, page;
      }
      InUseAt(blocks, page);
      page' := NoMemory;
      SoundBlock(blocks, blocklist, unusedblocks, freeblocks, top, sizeallocated, id);
      PageInBlock(blocks[id], page);
      EmptyHere(blocks, blocklist, unusedblocks, freeblocks, top, sizeallocated);
      var b;
      err, b := ReleasePageBlock(blocks[id], i, page.Index());
      if err != OK {
        return;
      }
      OkLists(b);
      ListsChanged(blocks[id], b, i, pgsize);
      LosesLive(blocks, id, b, i, page.Index());
      InUseLoses(blocks, id, b, i, page.Index(), page);
      Store(id, b, pgsize);
      sizeallocated := sizeallocated - page.size;
      if b.nrused == 0 && sizeallocated != 0 {
        InUseDeleted(blocks, id);
        DeleteBlock(id);
      } else if b.nrused == 0 {
        OnlyBlock(blocks, blocklist, unusedblocks, freeblocks, top, sizeallocated, id);
      }
    }

    /** emptycache_pagecacheimpl: only blocks with pages in use are kept; if any page is in use, these are all. */
    method EmptyCache()
      requires Valid()
      modifies this
      ensures Valid() && sizeallocated == old(sizeallocated) && top == old(top)
      ensures blocks == map id | id in old(blocks) && old(blocks)[id].nrused != 0 :: old(blocks)[id]
      ensures if sizeallocated == 0 then blocks == map[] else unchanged(this)
      ensures forall m: Memblock :: InUse(blocks, m) <==> InUse(old(blocks), m)
    {
      hide Sound, BlockOk, LiveIn, BlockBytes, InUse;
      AllListed(blocks, blocklist, unusedblocks, freeblocks, top, sizeallocated);
      EmptyOnly(blocks, blocklist, unusedblocks, freeblocks, top, sizeallocated);
      var list, k := blocklist, 0;
      while k < |list|
        invariant k <= |list| && Linked() && sizeallocated == old(sizeallocated) && top == old(top)
        invariant Kept(old(blocks), blocks, list[k..]) && (sizeallocated != 0 ==> unchanged(this))
        invariant forall m: Memblock :: InUse(blocks, m) <==> InUse(old(blocks), m)
      {
        var id := list[k];
        if id in blocks && blocks[id].nrused == 0 {
          SoundBlock(blocks, blocklist, unusedblocks, freeblocks, top, sizeallocated, id);
          InUseDeleted(blocks, id);
          DeleteBlock(id);
        }
        k := k + 1;
      }
    }
  }
}
