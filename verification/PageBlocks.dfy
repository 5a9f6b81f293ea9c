/** block_t: a big block of memory, divided into sub-blocks, and the lists of its
    sub-blocks that have free pages or are unused. */
module PageBlocks {
  import opened Sequences
  import opened SubBlocks

  /** Sub-blocks are named by their index. */
  datatype Block = Block(sub: seq<Sub>, freesub: seq<seq<nat>>, unusedsub: seq<nat>, nextunused: nat, nrused: nat)

  /** The number of pages in use in the first n sub-blocks. */
  function Used(sub: seq<Sub>, n: nat): int
    requires n <= |sub|
  {
    if n == 0 then 0 else Used(sub, n - 1) + NrLive(n - 1, sub[n - 1])
  }

  /** Their size in bytes. */
  function UsedBytes(sub: seq<Sub>, n: nat): int
    requires n <= |sub|
  {
    if n == 0 then 0 else UsedBytes(sub, n - 1) + NrLive(n - 1, sub[n - 1]) * Bytes(sub[n - 1].pgsize)
  }

  lemma {:induction false} UsedUpdate(sub: seq<Sub>, n: nat, i: nat, s: Sub)
    requires i < |sub| && n <= |sub|
    ensures Used(sub[i := s], n) == Used(sub, n) + if i < n then NrLive(i, s) - NrLive(i, sub[i]) else 0
    ensures UsedBytes(sub[i := s], n) == UsedBytes(sub, n) +
      if i < n then NrLive(i, s) * Bytes(s.pgsize) - NrLive(i, sub[i]) * Bytes(sub[i].pgsize) else 0
    decreases n
  {
    if n > 0 { UsedUpdate(sub, n - 1, i, s); }
  }

  /** If no page is in use no bytes are, and the other way round. */
  lemma {:induction false} UsedNone(sub: seq<Sub>, n: nat)
    requires n <= |sub| && forall i :: 0 <= i < n ==> SubOk(i, sub[i])
    ensures Used(sub, n) >= 0 && UsedBytes(sub, n) >= Used(sub, n)
    ensures Used(sub, n) == 0 ==> UsedBytes(sub, n) == 0
    ensures Used(sub, n) == 0 ==> forall i, p: nat :: 0 <= i < n ==> !IsLive(i, sub[i], p)
    decreases n
  {
    hide IsLive, SubOk, NrLive, Bytes;
    if n > 0 {
      UsedNone(sub, n - 1);
      var i, s := n - 1, sub[n - 1];
      LiveCount(i, s);
      Times(NrLive(i, s), Bytes(s.pgsize));
      if NrLive(i, s) == 0 {
        assert LiveSet(i, s) == {};
        forall p: nat ensures !IsLive(i, s, p) { assert p !in LiveSet(i, s); }
      }
    }
  }

  lemma Times(a: int, b: nat)
    requires a >= 0 && b >= 1
    ensures a * b >= a && (a == 0 ==> a * b == 0)
  {
  }

  /** The list of a page size holds the sub-blocks of this page size that have a header. */
  ghost predicate ListOk(b: Block, s: nat) {
    && s < |b.freesub| && Distinct(b.freesub[s])
    && forall i: nat :: i in b.freesub[s] <==> i < |b.sub| && b.sub[i].pgsize == s && b.sub[i].header != 0
  }

  /** Unused sub-blocks are listed, or have never been used. */
  ghost predicate UnusedOk(b: Block) {
    && 1 <= b.nextunused <= NRSUB && Distinct(b.unusedsub) && |b.sub| == NRSUB
    && (forall i: nat :: i in b.unusedsub <==> i < b.nextunused && b.sub[i].pgsize == SIZES)
    && (forall i: nat :: b.nextunused <= i < NRSUB ==> b.sub[i].pgsize == SIZES)
  }

  ghost predicate Shape(b: Block) {
    var n := |b.sub|;
    && n == NRSUB && |b.freesub| == SIZES
    && (forall i :: 0 <= i < n ==> SubOk(i, b.sub[i]))
    && (forall s :: 0 <= s < SIZES ==> ListOk(b, s))
    && UnusedOk(b)
    && b.nrused == Used(b.sub, n)
  }

  /** A sub-block that has a page size, but no page in use, is returned to the unused ones at once. */
  predicate BusyAt(b: Block, i: nat) {
    i < |b.sub| && b.sub[i].pgsize < SIZES && b.sub[i].header != 0 ==> b.sub[i].nrused > 0
  }

  ghost predicate BlockOk(b: Block) {
    Shape(b) && forall i: nat :: BusyAt(b, i)
  }

  predicate HasUnused(b: Block) {
    b.unusedsub != [] || b.nextunused < NRSUB
  }

  predicate LiveIn(b: Block, i: nat, p: nat) {
    i < |b.sub| && IsLive(i, b.sub[i], p)
  }

  function BlockBytes(b: Block): int {
    UsedBytes(b.sub, |b.sub|)
  }

  function Remove(s: seq<nat>, x: nat): seq<nat> {
    if s == [] then [] else if s[0] == x then s[1..] else [s[0]] + Remove(s[1..], x)
  }

  lemma {:induction false} RemoveOk(s: seq<nat>, x: nat)
    requires Distinct(s)
    ensures Distinct(Remove(s, x)) && forall y :: y in Remove(s, x) <==> y in s && y != x
    decreases |s|
  {
    if s != [] {
      FirstRemoved(s);
      if s[0] != x { RemoveOk(s[1..], x); }
    }
  }

  lemma {:induction false} RemovePlace(s: seq<nat>, x: nat)
    ensures x !in s ==> Remove(s, x) == s
    ensures x in s ==> exists k :: 0 <= k < |s| && s[k] == x && Remove(s, x) == s[..k] + s[k + 1..]
    decreases |s|
  {
    if s != [] && s[0] != x {
      var t := s[1..];
      RemovePlace(t, x);
      assert s == [s[0]] + t;
      if x in t {
        var k :| 0 <= k < |t| && t[k] == x && Remove(t, x) == t[..k] + t[k + 1..];
        PlaceBehind(s[0], t, k);
        assert s[k + 1] == x && Remove(s, x) == [s[0]] + Remove(t, x);
      }
    } else if s != [] {
      assert s[..0] + s[1..] == s[1..];
    }
  }

  lemma PlaceBehind(x: nat, t: seq<nat>, k: nat)
    requires k < |t|
    ensures ([x] + t)[..k + 1] + ([x] + t)[k + 2..] == [x] + (t[..k] + t[k + 1..])
  {
  }

  /** list is the list of the block b after sub-block i has become s. */
  ghost predicate Relisted(b: Block, i: nat, s: Sub, freesub: seq<seq<nat>>) {
    && |freesub| == SIZES
    && forall z :: 0 <= z < SIZES ==> RelistedAt(b, i, s, freesub, z)
  }

  ghost predicate RelistedAt(b: Block, i: nat, s: Sub, freesub: seq<seq<nat>>, z: nat) {
    && z < |freesub| && z < |b.freesub| && Distinct(freesub[z])
    && (i in freesub[z] <==> s.pgsize == z && s.header != 0)
    && forall j: nat :: j != i ==> (j in freesub[z] <==> j in b.freesub[z])
  }

  /** Sub-block i becomes s, and all lists follow. */
  lemma ShapeUpdate(b: Block, i: nat, s: Sub, b': Block)
    requires Shape(b) && i < NRSUB && SubOk(i, s) && b'.sub == b.sub[i := s]
    requires Relisted(b, i, s, b'.freesub) && UnusedOk(b')
    requires b'.nrused == b.nrused - NrLive(i, b.sub[i]) + NrLive(i, s)
    ensures Shape(b')
    ensures BlockBytes(b') == BlockBytes(b)
      + NrLive(i, s) * Bytes(s.pgsize) - NrLive(i, b.sub[i]) * Bytes(b.sub[i].pgsize)
    ensures forall j: nat, p: nat :: j != i ==> (LiveIn(b', j, p) <==> LiveIn(b, j, p))
    ensures forall j: nat :: j != i && BusyAt(b, j) ==> BusyAt(b', j)
  {
    hide IsLive, SubOk, NrLive, Bytes;
    UsedUpdate(b.sub, NRSUB, i, s);
    forall z | 0 <= z < SIZES ensures ListOk(b', z) {
      assert RelistedAt(b, i, s, b'.freesub, z) && ListOk(b, z);
    }
    hide UnusedOk, ListOk;
  }

  /** The lists of free sub-blocks if i keeps its place. */
  lemma SameLists(b: Block, i: nat, s: Sub)
    requires Shape(b) && i < NRSUB && s.pgsize == b.sub[i].pgsize && (s.header != 0 <==> b.sub[i].header != 0)
    ensures Relisted(b, i, s, b.freesub)
  {
    hide SubOk, UnusedOk, Used;
    forall z | 0 <= z < SIZES ensures RelistedAt(b, i, s, b.freesub, z) {
      assert ListOk(b, z);
    }
  }

  /** The lists if i leaves the list of its page size. */
  lemma LeavesList(b: Block, i: nat, s: Sub)
    requires Shape(b) && i < NRSUB && b.sub[i].pgsize < SIZES && (s.pgsize == SIZES || s.header == 0)
    ensures Relisted(b, i, s, b.freesub[b.sub[i].pgsize := Remove(b.freesub[b.sub[i].pgsize], i)])
  {
    hide SubOk, UnusedOk, Used;
    var y := b.sub[i].pgsize;
    var lists := b.freesub[y := Remove(b.freesub[y], i)];
    assert ListOk(b, y);
    RemoveOk(b.freesub[y], i);
    forall z | 0 <= z < SIZES ensures RelistedAt(b, i, s, lists, z) {
      assert ListOk(b, z);
    }
  }

  /** The lists if i enters the list of its page size. */
  lemma EntersList(b: Block, i: nat, s: Sub)
    requires Shape(b) && i < NRSUB && s.pgsize < SIZES && s.header != 0
    requires b.sub[i].pgsize == SIZES || b.sub[i].header == 0
    ensures Relisted(b, i, s, b.freesub[s.pgsize := [i] + b.freesub[s.pgsize]])
  {
    hide SubOk, UnusedOk, Used;
    var y := s.pgsize;
    var lists := b.freesub[y := [i] + b.freesub[y]];
    assert ListOk(b, y);
    FirstAdded(b.freesub[y], i);
    forall z | 0 <= z < SIZES ensures RelistedAt(b, i, s, lists, z) {
      assert ListOk(b, z);
    }
  }

  lemma FirstAdded(s: seq<nat>, x: nat)
    requires Distinct(s) && x !in s
    ensures Distinct([x] + s) && forall y :: y in [x] + s <==> y == x || y in s
  {
  }

  // ---- operations of a block; each also says what changed, so that the lists of blocks can follow

  /** The other sub-blocks stay as they are. */
  ghost predicate OnlySub(b: Block, b': Block, i: nat) {
    i < |b.sub| == |b'.sub| && forall j :: 0 <= j < |b.sub| && j != i ==> b'.sub[j] == b.sub[j]
  }

  /** What an operation on page p of sub-block i does to the pages in use. */
  ghost predicate Gains(b: Block, b': Block, i: nat, p: nat) {
    && !LiveIn(b, i, p) && LiveIn(b', i, p)
    && (forall j: nat, q: nat :: LiveIn(b', j, q) <==> LiveIn(b, j, q) || (j == i && q == p))
    && i < |b'.sub| && b'.sub[i].pgsize < SIZES && p < NrPages(b'.sub[i].pgsize)
    && OnlySub(b, b', i) && b.sub[i].pgsize in {SIZES, b'.sub[i].pgsize}
    && b'.nrused == b.nrused + 1 && BlockBytes(b') == BlockBytes(b) + Bytes(b'.sub[i].pgsize)
  }

  /** allocpage_block */
  method AllocPageBlock(b: Block, pgsize: nat) returns (b': Block, i: nat, page: nat)
    requires Shape(b) && pgsize < SIZES && b.freesub[pgsize] != []
    ensures i == b.freesub[pgsize][0] && Shape(b') && Gains(b, b', i, page) && b'.sub[i].pgsize == pgsize
    ensures (forall j: nat :: j != i ==> BusyAt(b, j)) ==> BlockOk(b')
    ensures forall z :: 0 <= z < SIZES && z != pgsize ==> b'.freesub[z] == b.freesub[z]
    ensures b'.freesub[pgsize] == if b'.sub[i].header == 0 then b.freesub[pgsize][1..] else b.freesub[pgsize]
    ensures b'.unusedsub == b.unusedsub && b'.nextunused == b.nextunused
  {
    hide SubOk, IsLive, NrLive, Used, UnusedOk, ListOk, Bytes;
    i := b.freesub[pgsize][0];
    Listed(b, pgsize, i);
    var s, isLast;
    s, page, isLast := AllocPageSub(b.sub[i], i);
    if isLast {
      LeavesList(b, i, s);
      b' := b.(sub := b.sub[i := s], freesub := b.freesub[pgsize := Remove(b.freesub[pgsize], i)],
               nrused := b.nrused + 1);
    } else {
      SameLists(b, i, s);
      b' := b.(sub := b.sub[i := s], nrused := b.nrused + 1);
    }
    UnusedKept(b, b', i, s);
    ShapeUpdate(b, i, s, b');
    GainsDone(b, b', i, s, page);
  }

  lemma Listed(b: Block, pgsize: nat, i: nat)
    requires Shape(b) && pgsize < SIZES && i in b.freesub[pgsize]
    ensures i < NRSUB && b.sub[i].pgsize == pgsize && b.sub[i].header != 0 && SubOk(i, b.sub[i])
  {
    assert ListOk(b, pgsize);
  }

  lemma UnusedKept(b: Block, b': Block, i: nat, s: Sub)
    requires UnusedOk(b) && i < NRSUB && b'.sub == b.sub[i := s] && s.pgsize < SIZES && b.sub[i].pgsize < SIZES
    requires b'.unusedsub == b.unusedsub && b'.nextunused == b.nextunused
    ensures UnusedOk(b')
  {
  }

  lemma GainsDone(b: Block, b': Block, i: nat, s: Sub, page: nat)
    requires i < |b.sub| && b'.sub == b.sub[i := s] && s.pgsize == b.sub[i].pgsize < SIZES && SubOk(i, s)
    requires !IsLive(i, b.sub[i], page) && page < NrPages(s.pgsize)
    requires (forall p: nat :: IsLive(i, s, p) <==> IsLive(i, b.sub[i], p) || p == page)
    requires forall j: nat, p: nat :: j != i ==> (LiveIn(b', j, p) <==> LiveIn(b, j, p))
    requires NrLive(i, s) == NrLive(i, b.sub[i]) + 1 && b'.nrused == b.nrused + 1
    requires BlockBytes(b') == BlockBytes(b)
      + NrLive(i, s) * Bytes(s.pgsize) - NrLive(i, b.sub[i]) * Bytes(b.sub[i].pgsize)
    ensures Gains(b, b', i, page) && BusyAt(b', i)
  {
    OneMore(NrLive(i, b.sub[i]), Bytes(s.pgsize));
    if s.header != 0 { LiveBusy(i, s, page); }
    hide NrLive, Bytes, BlockBytes;
  }

  lemma OneMore(a: int, b: int)
    ensures (a + 1) * b == a * b + b
  {
  }

  lemma LiveBusy(i: nat, s: Sub, p: nat)
    requires SubOk(i, s) && IsLive(i, s, p) && s.header != 0
    ensures s.nrused > 0
  {
    LivePositive(i, s, p);
  }

  /** The unused sub-block i is going to be used. */
  lemma TakeUnused(b: Block, i: nat, s: Sub, b': Block)
    requires UnusedOk(b) && i < NRSUB && s.pgsize < SIZES && b'.sub == b.sub[i := s]
    requires if b.unusedsub == [] then i == b.nextunused && b'.unusedsub == [] && b'.nextunused == i + 1
      else i == b.unusedsub[0] && b'.unusedsub == b.unusedsub[1..] && b'.nextunused == b.nextunused
    ensures UnusedOk(b') && b.sub[i].pgsize == SIZES
  {
    if b.unusedsub != [] {
      FirstRemoved(b.unusedsub);
    }
  }

  lemma NoneLive(i: nat, s: Sub)
    requires s.pgsize == SIZES
    ensures NrLive(i, s) == 0 && forall p: nat :: !IsLive(i, s, p)
  {
  }

  lemma FirstInUse(b: Block, i: nat)
    requires Shape(b) && i < NRSUB && b.sub[i].pgsize == SIZES
    ensures i != 0
  {
    assert SubOk(0, b.sub[0]);
  }

  /** Sub-block i is the first of the unused ones, or the next one that has never been used. */
  ghost predicate TakesUnused(b: Block, b': Block, i: nat) {
    if b.unusedsub == [] then i == b.nextunused && b'.nextunused == i + 1 && b'.unusedsub == []
    else b.unusedsub == [i] + b'.unusedsub && b'.nextunused == b.nextunused
  }

  /** The first part of allocunused_block: an unused sub-block gets a page size. */
  method StartSub(b: Block, pgsize: nat) returns (b': Block, i: nat)
    requires BlockOk(b) && HasUnused(b) && pgsize < SIZES
    ensures Shape(b') && b'.freesub[pgsize] != [] && b'.freesub[pgsize][0] == i && i < NRSUB
    ensures forall j: nat :: j != i ==> BusyAt(b', j)
    ensures forall z :: 0 <= z < SIZES && z != pgsize ==> b'.freesub[z] == b.freesub[z]
    ensures b'.nrused == b.nrused && BlockBytes(b') == BlockBytes(b)
    ensures forall j: nat, q: nat :: LiveIn(b', j, q) <==> LiveIn(b, j, q)
    ensures TakesUnused(b, b', i) && b'.freesub[pgsize] == [i] + b.freesub[pgsize]
    ensures OnlySub(b, b', i) && b.sub[i].pgsize == SIZES && b'.sub[i] == InitFree(pgsize, 0)
  {
    hide SubOk, IsLive, NrLive, Used, UnusedOk, ListOk, Bytes, InitFree;
    var unusedsub, nextunused := b.unusedsub, b.nextunused;
    if unusedsub == [] {
      i := nextunused;
      nextunused := nextunused + 1;
    } else {
      i := unusedsub[0];
      unusedsub := unusedsub[1..];
    }
    UnusedPlace(b, i);
    var s := InitFree(pgsize, 0);
    StartOk(b, i, pgsize);
    b' := b.(sub := b.sub[i := s], freesub := b.freesub[pgsize := [i] + b.freesub[pgsize]], unusedsub := unusedsub,
             nextunused := nextunused);
    TakeUnused(b, i, s, b');
    EntersList(b, i, s);
    NoneLive(i, b.sub[i]);
    TimesZero(Bytes(s.pgsize));
    TimesZero(Bytes(b.sub[i].pgsize));
    ShapeUpdate(b, i, s, b');
    StartLive(b, b', i, s);
  }

  lemma UnusedPlace(b: Block, i: nat)
    requires Shape(b) && HasUnused(b) && i == if b.unusedsub == [] then b.nextunused else b.unusedsub[0]
    ensures i < NRSUB && i != 0 && b.sub[i].pgsize == SIZES
  {
    assert b.unusedsub != [] ==> i in b.unusedsub;
    FirstInUse(b, i);
  }

  lemma StartOk(b: Block, i: nat, pgsize: nat)
    requires i != 0 && pgsize < SIZES
    ensures var s := InitFree(pgsize, 0); SubOk(i, s) && NrLive(i, s) == 0 && s.pgsize == pgsize && s.header != 0
    ensures forall p: nat :: !IsLive(i, InitFree(pgsize, 0), p)
  {
    InitFreeOk(i, pgsize);
  }

  lemma StartLive(b: Block, b': Block, i: nat, s: Sub)
    requires i < |b.sub| && b'.sub == b.sub[i := s] && (forall p: nat :: !IsLive(i, s, p))
    requires (forall p: nat :: !IsLive(i, b.sub[i], p))
    requires forall j: nat, p: nat :: j != i ==> (LiveIn(b', j, p) <==> LiveIn(b, j, p))
    ensures forall j: nat, q: nat :: LiveIn(b', j, q) <==> LiveIn(b, j, q)
  {
    hide IsLive;
  }

  /** allocunused_block */
  method AllocUnusedBlock(b: Block, pgsize: nat) returns (b': Block, i: nat, page: nat)
    requires BlockOk(b) && HasUnused(b) && pgsize < SIZES
    ensures BlockOk(b') && Gains(b, b', i, page) && b'.sub[i].pgsize == pgsize
    ensures forall z :: 0 <= z < SIZES && z != pgsize ==> b'.freesub[z] == b.freesub[z]
    ensures b'.freesub[pgsize] == (if b'.sub[i].header == 0 then [] else [i]) + b.freesub[pgsize]
    ensures TakesUnused(b, b', i)
  {
    hide Shape, BusyAt, BlockBytes;
    ShapeLists(b);
    var b1, i1 := StartSub(b, pgsize);
    ShapeLists(b1);
    b', i, page := AllocPageBlock(b1, pgsize);
  }

  lemma ShapeLists(b: Block)
    requires Shape(b)
    ensures |b.freesub| == SIZES && |b.sub| == NRSUB
  {
  }

  /** What releasing page p of sub-block i does to the pages in use. */
  ghost predicate Loses(b: Block, b': Block, i: nat, p: nat) {
    && LiveIn(b, i, p)
    && (forall j: nat, q: nat :: LiveIn(b', j, q) <==> LiveIn(b, j, q) && !(j == i && q == p))
    && b'.nrused == b.nrused - 1 && BlockBytes(b') == BlockBytes(b) - Bytes(b.sub[i].pgsize)
    && OnlySub(b, b', i) && b'.sub[i].pgsize in {SIZES, b.sub[i].pgsize}
  }

  /** The sub-block i becomes unused. */
  function Unused(b: Block, i: nat, freesub: seq<seq<nat>>): Block
    requires i < |b.sub|
  {
    b.(sub := b.sub[i := UNUSED.(header := 1)], freesub := freesub, unusedsub := [i] + b.unusedsub,
       nrused := if b.nrused > 0 then b.nrused - 1 else 0)
  }

  lemma GiveUnused(b: Block, i: nat, b': Block)
    requires UnusedOk(b) && i < NRSUB && b.sub[i].pgsize < SIZES && b'.sub == b.sub[i := UNUSED.(header := 1)]
    requires b'.unusedsub == [i] + b.unusedsub && b'.nextunused == b.nextunused
    ensures UnusedOk(b')
  {
    assert i !in b.unusedsub;
    FirstAdded(b.unusedsub, i);
  }

  lemma LosesDone(b: Block, b': Block, i: nat, s: Sub, page: nat)
    requires i < |b.sub| && b'.sub == b.sub[i := s] && b.sub[i].pgsize < SIZES
    requires IsLive(i, b.sub[i], page) && (forall p: nat :: IsLive(i, s, p) <==> IsLive(i, b.sub[i], p) && p != page)
    requires forall j: nat, p: nat :: j != i ==> (LiveIn(b', j, p) <==> LiveIn(b, j, p))
    requires NrLive(i, s) == NrLive(i, b.sub[i]) - 1 && b.nrused == b'.nrused + 1
    requires s.pgsize == b.sub[i].pgsize || (s.pgsize == SIZES && NrLive(i, s) == 0)
    requires BlockBytes(b') == BlockBytes(b)
      + NrLive(i, s) * Bytes(s.pgsize) - NrLive(i, b.sub[i]) * Bytes(b.sub[i].pgsize)
    ensures Loses(b, b', i, page)
  {
    OneMore(NrLive(i, s), Bytes(b.sub[i].pgsize));
    if NrLive(i, s) == 0 {
      TimesZero(Bytes(s.pgsize));
      TimesZero(Bytes(b.sub[i].pgsize));
    }
    hide NrLive, Bytes, BlockBytes, IsLive;
  }

  lemma TimesZero(b: int)
    ensures 0 * b == 0
  {
  }

  /** The header counts no used page any more: the sub-block becomes unused. */
  lemma UnusedDone(b: Block, i: nat, s: Sub, page: nat, freesub: seq<seq<nat>>)
    requires BlockOk(b) && i < NRSUB && b.sub[i].pgsize < SIZES && IsLive(i, b.sub[i], page) && i != 0
    requires NrLive(i, b.sub[i]) == 1 && Relisted(b, i, UNUSED.(header := 1), freesub)
    ensures b.nrused > 0 && BlockOk(Unused(b, i, freesub)) && Loses(b, Unused(b, i, freesub), i, page)
  {
    var b', u := Unused(b, i, freesub), UNUSED.(header := 1);
    UsedPositive(b, i);
    NoneLive(i, u);
    OnlyOne(i, b.sub[i], page);
    GiveUnused(b, i, b');
    hide SubOk, IsLive, NrLive, Used, UnusedOk, ListOk, Bytes, Unused, Relisted;
    ShapeUpdate(b, i, u, b');
    LosesDone(b, b', i, u, page);
  }

  lemma OnlyOne(i: nat, s: Sub, page: nat)
    requires SubOk(i, s) && IsLive(i, s, page) && NrLive(i, s) == 1
    ensures forall p: nat :: IsLive(i, s, p) ==> p == page
  {
    LiveCount(i, s);
    forall p: nat | IsLive(i, s, p) ensures p == page {
      assert p in LiveSet(i, s) && page in LiveSet(i, s);
      if p != page {
        assert {p, page} <= LiveSet(i, s);
        TwoMembers(p, page, LiveSet(i, s));
      }
    }
  }

  lemma TwoMembers(p: nat, q: nat, s: set<nat>)
    requires p != q && {p, q} <= s
    ensures |s| >= 2
  {
    assert s == {p, q} + (s - {p, q});
  }

  lemma UsedPositive(b: Block, i: nat)
    requires Shape(b) && i < NRSUB && NrLive(i, b.sub[i]) > 0
    ensures b.nrused > 0
  {
    hide UnusedOk, ListOk, IsLive;
    UsedNone(b.sub, NRSUB);
    UsedUpdate(b.sub, NRSUB, i, UNUSED);
    UsedNoneOf(b.sub, i, NRSUB);
  }

  lemma {:induction false} UsedNoneOf(sub: seq<Sub>, i: nat, n: nat)
    requires i < n <= |sub| && (forall j :: 0 <= j < n ==> SubOk(j, sub[j]))
    ensures Used(sub, n) >= NrLive(i, sub[i])
    decreases n
  {
    hide SubOk, NrLive;
    LiveCount(n - 1, sub[n - 1]);
    UsedNone(sub, n - 1);
    if i < n - 1 { UsedNoneOf(sub, i, n - 1); }
  }

  /** The lists if sub-block i was on none and becomes unused. */
  lemma StaysOff(b: Block, i: nat)
    requires Shape(b) && i < NRSUB && b.sub[i].header == 0
    ensures Relisted(b, i, UNUSED.(header := 1), b.freesub)
  {
    hide SubOk, UnusedOk, Used;
    forall z | 0 <= z < SIZES ensures RelistedAt(b, i, UNUSED.(header := 1), b.freesub, z) {
      assert ListOk(b, z);
    }
  }

  /** The sub-block keeps its header and other pages in use. */
  lemma FreedDone(b: Block, i: nat, s: Sub, page: nat, freesub: seq<seq<nat>>)
    requires BlockOk(b) && i < NRSUB && b.sub[i].pgsize == s.pgsize < SIZES && SubOk(i, s) && s.nrused > 0
    requires IsLive(i, b.sub[i], page) && (forall p: nat :: IsLive(i, s, p) <==> IsLive(i, b.sub[i], p) && p != page)
    requires NrLive(i, s) == NrLive(i, b.sub[i]) - 1 && Relisted(b, i, s, freesub)
    ensures b.nrused > 0
    ensures var b' := b.(sub := b.sub[i := s], freesub := freesub, nrused := b.nrused - 1);
      BlockOk(b') && Loses(b, b', i, page)
  {
    LivePositive(i, b.sub[i], page);
    UsedPositive(b, i);
    var b' := b.(sub := b.sub[i := s], freesub := freesub, nrused := b.nrused - 1);
    UnusedKept(b, b', i, s);
    hide SubOk, IsLive, NrLive, Used, UnusedOk, ListOk, Bytes, Relisted;
    ShapeUpdate(b, i, s, b');
    LosesDone(b, b', i, s, page);
  }

  lemma ShapeAt(b: Block, i: nat)
    requires Shape(b) && i < NRSUB
    ensures SubOk(i, b.sub[i]) && |b.freesub| == SIZES && |b.sub| == NRSUB
  {
  }

  lemma LastPage(i: nat, s: Sub, page: nat, nrused: nat)
    requires SubOk(i, s) && IsLive(i, s, page) && nrused == 0
    requires if s.header != 0 then s.nrused == nrused + 1 else NrPages(s.pgsize) == nrused + 1
    ensures i != 0 && NrLive(i, s) == 1
  {
    LivePositive(i, s, page);
  }

  /** How the lists change when a page of sub-block i, of this size, is released: a sub-block without any other page
      in use joins the unused ones, one that was full joins the list of its page size. */
  ghost predicate ListsChange(b: Block, b': Block, i: nat, pgsize: nat) {
    && |b.freesub| == SIZES && |b'.freesub| == SIZES && i < |b.sub| == |b'.sub| && pgsize < SIZES
    && (forall z :: 0 <= z < SIZES && z != pgsize ==> b'.freesub[z] == b.freesub[z])
    && b'.nextunused == b.nextunused
    && (b'.sub[i].pgsize == SIZES <==> i != 0 && NrLive(i, b.sub[i]) == 1)
    && b'.unusedsub == (if b'.sub[i].pgsize == SIZES then [i] else []) + b.unusedsub
    && b'.freesub[pgsize] == if b'.sub[i].pgsize == SIZES then Remove(b.freesub[pgsize], i)
                             else (if b.sub[i].header == 0 then [i] else []) + b.freesub[pgsize]
  }

  lemma BecomesUnused(b: Block, i: nat, pgsize: nat)
    requires Shape(b) && i < NRSUB && b.sub[i].pgsize == pgsize < SIZES && NrLive(i, b.sub[i]) == 1 && i != 0
    ensures |b.freesub| == SIZES && |b.sub| == NRSUB
    ensures ListsChange(b, Unused(b, i, b.freesub[pgsize := Remove(b.freesub[pgsize], i)]), i, pgsize)
    ensures b.sub[i].header == 0 ==> b.freesub[pgsize := Remove(b.freesub[pgsize], i)] == b.freesub
  {
    hide SubOk, IsLive, NrLive, Used, UnusedOk;
    assert ListOk(b, pgsize);
    if b.sub[i].header == 0 { RemovePlace(b.freesub[pgsize], i); }
  }

  lemma StaysUsed(b: Block, i: nat, s: Sub, freesub: seq<seq<nat>>)
    requires Shape(b) && i < NRSUB && b.sub[i].pgsize == s.pgsize < SIZES && s.nrused > 0 && s.header != 0
    requires NrLive(i, s) == NrLive(i, b.sub[i]) - 1 && b.nrused > 0
    requires |b.freesub| == SIZES && freesub == if b.sub[i].header != 0 then b.freesub
      else b.freesub[s.pgsize := [i] + b.freesub[s.pgsize]]
    ensures ListsChange(b, b.(sub := b.sub[i := s], freesub := freesub, nrused := b.nrused - 1), i, s.pgsize)
  {
    hide SubOk, IsLive, Used, UnusedOk, ListOk;
  }

  /** releasepage_block */
  method ReleasePageBlock(b: Block, i: nat, page: nat) returns (err: Err, b': Block)
    requires BlockOk(b) && i < NRSUB && b.sub[i].pgsize < SIZES && FirstPage(i) <= page < NrPages(b.sub[i].pgsize)
    ensures err != EINVAL && (err == EALREADY <==> !LiveIn(b, i, page)) && (err == EALREADY ==> b' == b)
    ensures err == OK ==> BlockOk(b') && Loses(b, b', i, page) && ListsChange(b, b', i, b.sub[i].pgsize)
  {
    hide Shape, SubOk, IsLive, NrLive, Used, ListOk, Bytes, NrPages, Relisted, InitUsed, ListsChange, Loses;
    ShapeAt(b, i);
    b' := b;
    var s := b.sub[i];
    var pgsize := s.pgsize;
    if s.header != 0 {
      var s';
      err, s' := FreePageSub(s, page, i);
      if err != OK {
        return;
      }
      if s'.nrused == 0 {
        LastPage(i, s, page, s'.nrused);
        LeavesList(b, i, UNUSED.(header := 1));
        BecomesUnused(b, i, pgsize);
        UnusedDone(b, i, s, page, b.freesub[pgsize := Remove(b.freesub[pgsize], i)]);
        b' := Unused(b, i, b.freesub[pgsize := Remove(b.freesub[pgsize], i)]);
      } else {
        SameLists(b, i, s');
        FreedDone(b, i, s', page, b.freesub);
        StaysUsed(b, i, s', b.freesub);
        b' := b.(sub := b.sub[i := s'], nrused := b.nrused - 1);
      }
    } else {
      err := OK;
      InitUsedOk(i, s, page);
      var s' := InitUsed(pgsize, page);
      InitUsedParts(pgsize, page);
      if s'.nrused != 0 {
        EntersList(b, i, s');
        FreedDone(b, i, s', page, b.freesub[pgsize := [i] + b.freesub[pgsize]]);
        StaysUsed(b, i, s', b.freesub[pgsize := [i] + b.freesub[pgsize]]);
        b' := b.(sub := b.sub[i := s'], freesub := b.freesub[pgsize := [i] + b.freesub[pgsize]],
                 nrused := b.nrused - 1);
      } else {
        LastPage(i, s, page, s'.nrused);
        StaysOff(b, i);
        BecomesUnused(b, i, pgsize);
        UnusedDone(b, i, s, page, b.freesub);
        b' := Unused(b, i, b.freesub);
      }
    }
  }

  lemma InitUsedParts(pgsize: nat, page: nat)
    ensures var s := InitUsed(pgsize, page); s.pgsize == pgsize && s.header != 0 && s.nrused == NrPages(pgsize) - 1
  {
  }
}
