/** subheader_t: the pages of one sub-block, all of one size. The header lies on a free
    page of the sub-block and is the last page to be handed out. */
module SubBlocks {
  import opened Sequences

  const SIZES: nat := 13               // pagesize__NROF; as a page size it marks an unused sub-block
  const SUBSIZE: nat := 0x100000       // pagecache_impl_SUBBLOCKSIZE
  const NRSUB: nat := 1024             // pagecache_impl_NRSUBBLOCKS
  const FIRSTSIZE: nat := 4            // pagesize_4096, the page size of sub-block 0
  const ADDRESS: nat := 8              // bytes of an address

  /** The size of block_t on a machine with 64 bits: owner and threadcontext, the nodes of the three lists of blocks,
      freesublist and unusedsublist, nextunused and nrusedpages, pgsize, and header. */
  const BLOCKT: nat :=
    2 * ADDRESS + (2 + SIZES) * 2 * ADDRESS + (SIZES + 1) * ADDRESS + 2 * 4 + NRSUB * 1 + NRSUB * 2
  const BLOCKPAGES: nat := (BLOCKT + 4095) / 4096   // pages of sub-block 0 that hold block_t

  /** pagesizeinbytes_pagecache */
  function Bytes(pgsize: nat): (r: nat)
    ensures r >= 256
  {
    if pgsize == 0 then 256 else 2 * Bytes(pgsize - 1)
  }

  /** The number of pages of a sub-block: pagecache_impl_SUBBLOCKSIZE >> log2pagesizeinbytes_pagecache(pgsize) */
  function NrPages(pgsize: nat): (r: nat)
    ensures r >= 1
    decreases SIZES - pgsize
  {
    if pgsize + 1 >= SIZES then 1 else 2 * NrPages(pgsize + 1)
  }

  lemma {:induction false} BytesDivide(pgsize: nat)
    requires pgsize < SIZES
    ensures NrPages(pgsize) * Bytes(pgsize) == SUBSIZE
    decreases SIZES - pgsize
  {
    if pgsize + 1 < SIZES {
      BytesDivide(pgsize + 1);
      assert Bytes(pgsize + 1) == 2 * Bytes(pgsize);
      Halved(NrPages(pgsize + 1), Bytes(pgsize));
    } else {
      assert Bytes(0) == 256 && Bytes(4) == 4096 && Bytes(8) == 65536 && Bytes(12) == 1048576;
    }
  }

  /** The thirteen page sizes, and how many pages of each size a sub-block has. */
  lemma PageSizes()
    ensures Bytes(0) == 256 && Bytes(1) == 512 && Bytes(2) == 1024 && Bytes(3) == 2048 && Bytes(4) == 4096
    ensures Bytes(5) == 8192 && Bytes(6) == 16384 && Bytes(7) == 32768 && Bytes(8) == 65536 && Bytes(9) == 131072
    ensures Bytes(10) == 262144 && Bytes(11) == 524288 && Bytes(12) == 1048576
    ensures forall k: nat :: k < 13 ==> NrPages(k) * Bytes(k) == 1048576
  {
    assert Bytes(3) == 2048 && Bytes(6) == 16384 && Bytes(9) == 131072;
    forall k: nat | k < 13 ensures NrPages(k) * Bytes(k) == 1048576 {
      BytesDivide(k);
    }
  }

  lemma Halved(a: nat, b: nat)
    ensures (2 * a) * b == a * (2 * b)
  {
  }

  lemma {:induction false} ProductLess(a: nat, b: nat, c: nat)
    requires a < b
    ensures a * c + c <= b * c
    decreases b
  {
    assert b * c == (b - 1) * c + c;
    if a + 1 < b {
      ProductLess(a, b - 1, c);
    }
  }

  /** subheader_t together with block_t.pgsize[i] and block_t.header[i]. */
  datatype Sub = Sub(pgsize: nat, header: nat, nrused: nat, nrnextfree: nat, nextfree: nat, freelist: seq<nat>)

  const UNUSED := Sub(SIZES, 0, 0, 0, 0, [])

  /** The first page that can be handed out. */
  function FirstPage(i: nat): nat {
    if i == 0 then BLOCKPAGES else 0
  }

  /** The header accounts for every page: used, free-listed, never handed out, or its own. */
  ghost predicate HeaderOk(i: nat, s: Sub) {
    var h := s.header - 1;
    && FirstPage(i) <= h < s.nextfree
    && s.nextfree + s.nrnextfree == NrPages(s.pgsize)
    && Distinct(s.freelist)
    && (forall p :: p in s.freelist ==> FirstPage(i) <= p < s.nextfree && p != h)
    && s.nrused + |s.freelist| + s.nrnextfree + 1 == NrPages(s.pgsize)
  }

  ghost predicate SubOk(i: nat, s: Sub) {
    && s.pgsize <= SIZES
    && (s.pgsize < SIZES && s.header != 0 ==> HeaderOk(i, s))
    && (s.pgsize < SIZES ==> FirstPage(i) < NrPages(s.pgsize))
    && (i == 0 ==> s.pgsize == FIRSTSIZE)
  }

  /** Page p of the sub-block is in use by the caller. */
  predicate IsLive(i: nat, s: Sub, p: nat) {
    && s.pgsize < SIZES
    && if s.header == 0 then FirstPage(i) <= p < NrPages(s.pgsize)
       else FirstPage(i) <= p < s.nextfree && p != s.header - 1 && p !in s.freelist
  }

  /** The number of pages in use by the caller. */
  function NrLive(i: nat, s: Sub): int {
    if s.pgsize >= SIZES then 0
    else if s.header == 0 then NrPages(s.pgsize) - FirstPage(i)
    else s.nrused - FirstPage(i)
  }

  function LiveSet(i: nat, s: Sub): set<nat> {
    set p | 0 <= p < NrPages(s.pgsize) && IsLive(i, s, p)
  }

  /** The counters of the header are right. */
  lemma LiveCount(i: nat, s: Sub)
    requires SubOk(i, s)
    ensures |LiveSet(i, s)| == NrLive(i, s)
    ensures forall p: nat :: p in LiveSet(i, s) <==> IsLive(i, s, p)
  {
    hide NrPages;
    if s.pgsize < SIZES && s.header != 0 {
      LiveCountHeader(i, s);
    } else if s.pgsize < SIZES {
      RangeCount(FirstPage(i), NrPages(s.pgsize));
      assert LiveSet(i, s) == Range(FirstPage(i), NrPages(s.pgsize));
    } else {
      assert LiveSet(i, s) == {};
    }
  }

  lemma LiveCountHeader(i: nat, s: Sub)
    requires SubOk(i, s) && s.pgsize < SIZES && s.header != 0
    ensures |LiveSet(i, s)| == NrLive(i, s)
  {
    hide NrPages;
    var first, h := FirstPage(i), s.header - 1;
    var all, free := Range(first, s.nextfree), Elems(s.freelist);
    RangeCount(first, s.nextfree);
    ListCount(s.freelist);
    var others := all - {h};
    assert |others| == |all| - 1;
    assert free <= others;
    assert |others - free| == |others| - |free|;
    assert LiveSet(i, s) == others - free;
  }

  predicate Within(a: nat, b: nat, p: nat) {
    a <= p < b
  }

  function Range(a: nat, b: nat): set<nat> {
    set p | 0 <= p < b && Within(a, b, p)
  }

  lemma {:induction false} RangeCount(a: nat, b: nat)
    requires a <= b
    ensures |Range(a, b)| == b - a
    decreases b
  {
    if a < b {
      RangeCount(a, b - 1);
      assert Range(a, b) == Range(a, b - 1) + {b - 1};
    } else {
      assert Range(a, b) == {};
    }
  }

  function Elems(s: seq<nat>): set<nat> {
    set p | p in s
  }

  lemma {:induction false} ListCount(s: seq<nat>)
    requires Distinct(s)
    ensures |Elems(s)| == |s|
    decreases |s|
  {
    if s != [] {
      ListCount(s[1..]);
      FirstRemoved(s);
      assert Elems(s) == Elems(s[1..]) + {s[0]};
    }
  }

  /** initfree_subheader: all pages from pageindex on are free. */
  function InitFree(pgsize: nat, pageindex: nat): Sub
    requires pageindex < NrPages(pgsize)
  {
    Sub(pgsize, pageindex + 1, pageindex, NrPages(pgsize) - pageindex - 1, pageindex + 1, [])
  }

  lemma InitFreeOk(i: nat, pgsize: nat)
    requires pgsize < SIZES && FirstPage(i) < NrPages(pgsize) && (i == 0 ==> pgsize == FIRSTSIZE)
    ensures SubOk(i, InitFree(pgsize, FirstPage(i))) && NrLive(i, InitFree(pgsize, FirstPage(i))) == 0
    ensures forall p: nat :: !IsLive(i, InitFree(pgsize, FirstPage(i)), p)
  {
  }

  /** allocpage_subheader */
  method AllocPageSub(s: Sub, ghost i: nat) returns (s': Sub, page: nat, isLast: bool)
    requires SubOk(i, s) && s.pgsize < SIZES && s.header != 0
    ensures SubOk(i, s') && s'.pgsize == s.pgsize && (isLast <==> s'.header == 0)
    ensures s.freelist != [] ==> [page] + s'.freelist == s.freelist && s'.nrnextfree == s.nrnextfree
    ensures s.freelist == [] && s.nrnextfree > 0 ==>
      page == s.nextfree && s'.nextfree == page + 1 && s'.freelist == []
    ensures isLast <==> s.freelist == [] && s.nrnextfree == 0
    ensures if isLast then page == s.header - 1 else s'.header == s.header
    ensures FirstPage(i) <= page < NrPages(s.pgsize) && !IsLive(i, s, page)
    ensures forall p: nat :: IsLive(i, s', p) <==> IsLive(i, s, p) || p == page
    ensures NrLive(i, s') == NrLive(i, s) + 1
  {
    isLast, s' := false, s;
    if s.freelist == [] {
      if s.nrnextfree != 0 {
        page := s.nextfree;
        s' := s.(nrnextfree := s.nrnextfree - 1, nextfree := s.nextfree + 1);
      } else {
        page := s.header - 1;
        isLast := true;
        s' := s.(header := 0);
      }
    } else {
      page := s.freelist[0];
      s' := s.(freelist := s.freelist[1..]);
      FirstRemoved(s.freelist);
    }
    s' := s'.(nrused := s'.nrused + 1);
  }

  lemma FirstRemoved(s: seq<nat>)
    requires Distinct(s) && s != []
    ensures Distinct(s[1..]) && forall p :: p in s <==> p == s[0] || p in s[1..]
    ensures s[0] !in s[1..]
  {
    assert s == [s[0]] + s[1..];
  }

  datatype Err = OK | EINVAL | EALREADY

  /** freepage_subheader: a page that is free already is left alone. */
  method FreePageSub(s: Sub, page: nat, ghost i: nat) returns (err: Err, s': Sub)
    requires SubOk(i, s) && s.pgsize < SIZES && s.header != 0 && FirstPage(i) <= page < NrPages(s.pgsize)
    ensures err == EALREADY <==> !IsLive(i, s, page)
    ensures err != EINVAL && (err == EALREADY ==> s' == s)
    ensures err == OK ==> SubOk(i, s') && s'.pgsize == s.pgsize && s'.header == s.header && s'.nrused == s.nrused - 1
    ensures err == OK ==> s'.freelist == [page] + s.freelist && s'.nextfree == s.nextfree
    ensures err == OK ==> forall p: nat :: IsLive(i, s', p) <==> IsLive(i, s, p) && p != page
    ensures err == OK ==> NrLive(i, s') == NrLive(i, s) - 1
  {
    s' := s;
    if page >= s.nextfree {
      return EALREADY, s';
    }
    if page == s.header - 1 {
      return EALREADY, s';
    }
    for k := 0 to |s.freelist|
      invariant page !in s.freelist[..k]
    {
      if page == s.freelist[k] {
        return EALREADY, s';
      }
    }
    assert s.freelist[..|s.freelist|] == s.freelist;
    LivePositive(i, s, page);
    s' := s.(freelist := [page] + s.freelist, nrused := s.nrused - 1);
    err := OK;
  }

  lemma LivePositive(i: nat, s: Sub, page: nat)
    requires SubOk(i, s) && IsLive(i, s, page)
    ensures NrLive(i, s) > 0
  {
    LiveCount(i, s);
    assert page in LiveSet(i, s);
  }

  /** initused_subheader: all pages are used but the one the header is put on. */
  function InitUsed(pgsize: nat, pageindex: nat): Sub {
    Sub(pgsize, pageindex + 1, if NrPages(pgsize) > 0 then NrPages(pgsize) - 1 else 0, 0, NrPages(pgsize), [])
  }

  lemma InitUsedOk(i: nat, s: Sub, page: nat)
    requires SubOk(i, s) && s.pgsize < SIZES && s.header == 0 && FirstPage(i) <= page < NrPages(s.pgsize)
    ensures IsLive(i, s, page)
    ensures var s' := InitUsed(s.pgsize, page);
      && SubOk(i, s') && NrLive(i, s') == NrLive(i, s) - 1
      && forall p: nat :: IsLive(i, s', p) <==> IsLive(i, s, p) && p != page
  {
  }

  // ---- where pages lie

  /** The address of a page, counted from the start of its block. */
  function PageOffset(i: nat, pgsize: nat, p: nat): nat {
    i * SUBSIZE + p * Bytes(pgsize)
  }

  /** Different pages do not overlap: free pages, headers, pages in use, and those of block_t. */
  lemma PagesDisjoint(i: nat, pgsize: nat, p: nat, j: nat, qgsize: nat, q: nat)
    requires pgsize < SIZES && p < NrPages(pgsize) && qgsize < SIZES && q < NrPages(qgsize)
    requires i != j || (pgsize == qgsize && p != q)
    ensures PageOffset(i, pgsize, p) + Bytes(pgsize) <= PageOffset(j, qgsize, q)
      || PageOffset(j, qgsize, q) + Bytes(qgsize) <= PageOffset(i, pgsize, p)
  {
    hide Bytes, NrPages;
    PageInside(i, pgsize, p);
    PageInside(j, qgsize, q);
    if i < j {
      ProductLess(i, j, SUBSIZE);
    } else if j < i {
      ProductLess(j, i, SUBSIZE);
    } else if p < q {
      ProductLess(p, q, Bytes(pgsize));
    } else {
      ProductLess(q, p, Bytes(pgsize));
    }
  }

  lemma PageInside(i: nat, pgsize: nat, p: nat)
    requires pgsize < SIZES && p < NrPages(pgsize)
    ensures i * SUBSIZE <= PageOffset(i, pgsize, p) && PageOffset(i, pgsize, p) + Bytes(pgsize) <= i * SUBSIZE + SUBSIZE
  {
    hide Bytes, NrPages;
    BytesDivide(pgsize);
    ProductLess(p, NrPages(pgsize), Bytes(pgsize));
  }
}
