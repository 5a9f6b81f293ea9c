/** automat_mman_t: an arena that hands out memory from the end of a list of pages,
    and takes it back all at once, down to a checkpoint, or from the end. */
module Arena {
  import opened Sequences

  const PAGESIZE: nat := 256 * 1024    // memory_page_SIZE
  const ADDRESS: nat := 8              // bytes of an address, on a machine with 64 bits
  const HEADER: nat := ADDRESS         // offsetof(memory_page_t, data)
  const FREESIZE: nat := PAGESIZE - HEADER
  const MMANSIZE: nat := 7 * ADDRESS   // sizeof(automat_mman_t): the manager lies on its own first page

  /** A page is named by its number; pages do not overlap. */
  function PageAddr(page: nat): nat {
    page * PAGESIZE
  }

  /** Where the memory that can be handed out starts on the i-th page of the list. */
  function DataStart(i: nat): nat {
    if i == 0 then HEADER + MMANSIZE else HEADER
  }

  function Sum(s: seq<nat>): nat {
    if s == [] then 0 else Sum(s[..|s| - 1]) + s[|s| - 1]
  }

  lemma SumAppend(s: seq<nat>, x: nat)
    ensures Sum(s + [x]) == Sum(s) + x
  {
    assert (s + [x])[..|s|] == s;
  }

  lemma {:induction false} SumPrefix(s: seq<nat>, i: nat, j: nat)
    requires i <= j <= |s|
    ensures Sum(s[..i]) <= Sum(s[..j])
    ensures i < j ==> Sum(s[..i]) + s[i] <= Sum(s[..j])
    decreases j
  {
    if i < j {
      assert s[..j][..j - 1] == s[..j - 1];
      SumPrefix(s, i, j - 1);
    }
  }

  /** The sizes of the blocks handed out, page by page. */
  type Blocks = seq<seq<nat>>

  function Total(b: Blocks): nat {
    if b == [] then 0 else Total(b[..|b| - 1]) + Sum(b[|b| - 1])
  }

  lemma TotalAppend(b: Blocks, s: seq<nat>)
    ensures Total(b + [s]) == Total(b) + Sum(s)
  {
    assert (b + [s])[..|b|] == b;
  }

  lemma TotalLast(b: Blocks, s: seq<nat>)
    requires b != []
    ensures Total(b[|b| - 1 := s]) == Total(b) - Sum(b[|b| - 1]) + Sum(s)
    ensures Total(b) >= Sum(b[|b| - 1])
  {
    var b' := b[|b| - 1 := s];
    assert b'[..|b| - 1] == b[..|b| - 1];
  }

  /** Block number j on page number i lies at this address. */
  function BlockAddr(pages: seq<nat>, b: Blocks, i: nat, j: nat): nat
    requires i < |pages| && i < |b| && j <= |b[i]|
  {
    PageAddr(pages[i]) + DataStart(i) + Sum(b[i][..j])
  }

  /** All blocks lie within the pages of the list. */
  ghost predicate Fits(pages: seq<nat>, b: Blocks) {
    |pages| == |b| && forall i :: 0 <= i < |b| ==> DataStart(i) + Sum(b[i]) <= PAGESIZE
  }

  /** A block lies inside its page, and neither in the header nor, on the first page, in the manager. */
  lemma BlockInside(pages: seq<nat>, b: Blocks, i: nat, j: nat)
    requires Fits(pages, b) && i < |b| && j < |b[i]|
    ensures pages[i] * 262144 + (if i == 0 then 64 else 8) <= BlockAddr(pages, b, i, j)
    ensures BlockAddr(pages, b, i, j) + b[i][j] <= pages[i] * 262144 + 262144
  {
    SumPrefix(b[i], j, |b[i]|);
    assert b[i][..|b[i]|] == b[i];
  }

  lemma PagesApart(p: nat, q: nat)
    requires p != q
    ensures PageAddr(p) + PAGESIZE <= PageAddr(q) || PageAddr(q) + PAGESIZE <= PageAddr(p)
  {
    if p < q {
      assert (p + 1) * PAGESIZE <= q * PAGESIZE;
    } else {
      assert (q + 1) * PAGESIZE <= p * PAGESIZE;
    }
  }

  /** No two blocks overlap. */
  lemma BlocksDisjoint(pages: seq<nat>, b: Blocks, i: nat, j: nat, k: nat, l: nat)
    requires Distinct(pages) && Fits(pages, b) && i < |b| && j < |b[i]| && k < |b| && l < |b[k]| && (i != k || j != l)
    ensures var x, y := BlockAddr(pages, b, i, j), BlockAddr(pages, b, k, l);
      x + b[i][j] <= y || y + b[k][l] <= x
  {
    BlockInside(pages, b, i, j);
    BlockInside(pages, b, k, l);
    if i != k {
      PagesApart(pages[i], pages[k]);
    } else if j < l {
      SumPrefix(b[i], j, l);
    } else {
      SumPrefix(b[i], l, j);
    }
  }

  /** The blocks of one page, cut off after t bytes. */
  function Cut(s: seq<nat>, t: nat): (r: seq<nat>)
    ensures t <= Sum(s) ==> Sum(r) == t
    ensures |r| <= |s|
    decreases |s|
  {
    if s == [] then []
    else if Sum(s) <= t then s
    else
      var init, last := s[..|s| - 1], s[|s| - 1];
      if Sum(init) < t then
        SumAppend(init, t - Sum(init));
        init + [t - Sum(init)]
      else Cut(init, t)
  }

  /** Blocks that end before the cut are not affected. */
  lemma {:induction false} CutKeeps(s: seq<nat>, t: nat, j: nat)
    requires j <= |s| && Sum(s[..j]) <= t <= Sum(s)
    ensures |Cut(s, t)| >= j && Cut(s, t)[..j] == s[..j]
    decreases |s|
  {
    assert s[..|s|] == s;
    if s != [] && t < Sum(s) {
      var init := s[..|s| - 1];
      assert init[..j] == s[..j];
      if Sum(init) >= t {
        CutKeeps(init, t, j);
      } else {
        assert (init + [t - Sum(init)])[..j] == init[..j];
      }
    }
  }

  datatype Err = OK | EINVAL | ENOMEM

  /** automat_mman_state_t */
  datatype State = State(lastPage: nat, freesize: nat, handedOut: nat, wasted: nat)

  /** The configuration pages, b has grown out of pages0, b0. */
  ghost predicate Grown(pages0: seq<nat>, b0: Blocks, pages: seq<nat>, b: Blocks) {
    && 0 < |pages0| == |b0| <= |pages| == |b|
    && pages[..|pages0|] == pages0
    && (forall i :: 0 <= i < |b0| - 1 ==> b[i] == b0[i])
    && var s0, s := b0[|b0| - 1], b[|b0| - 1];
       |s0| <= |s| && s[..|s0|] == s0
  }

  /** No page is lost, and none is in two places. */
  ghost predicate Owned(pages: seq<nat>, cache: seq<nat>, top: nat) {
    pages != [] && Distinct(pages + cache) && forall p :: p in pages + cache ==> p < top
  }

  /** The free memory is what is left of the last page; all blocks are accounted for. */
  ghost predicate Books(pages: seq<nat>, b: Blocks, freemem: nat, freesize: nat, handedOut: nat) {
    && pages != [] && Fits(pages, b)
    && freemem == PageAddr(pages[|pages| - 1]) + PAGESIZE
    && DataStart(|b| - 1) + Sum(b[|b| - 1]) + freesize == PAGESIZE
    && handedOut == Total(b)
  }

  /** A block is taken from the last page. */
  lemma BooksTake(pages: seq<nat>, b: Blocks, freemem: nat, freesize: nat, handedOut: nat, size: nat)
    requires Books(pages, b, freemem, freesize, handedOut) && size <= freesize
    ensures var n := |b| - 1;
      var b' := b[n := b[n] + [size]];
      && Books(pages, b', freemem, freesize - size, handedOut + size) && Grown(pages, b, pages, b')
      && b'[n] == b[n] + [size] && freemem - freesize == BlockAddr(pages, b', n, |b[n]|)
  {
    hide PageAddr, Sum, Total, DataStart;
    var n := |b| - 1;
    var b' := b[n := b[n] + [size]];
    SumAppend(b[n], size);
    TotalLast(b, b[n] + [size]);
    TakeGrown(pages, b, b', size);
    assert freemem - freesize == PageAddr(pages[n]) + DataStart(n) + Sum(b[n]);
  }

  lemma TakeGrown(pages: seq<nat>, b: Blocks, b': Blocks, size: nat)
    requires 0 < |pages| == |b| && b' == b[|b| - 1 := b[|b| - 1] + [size]]
    ensures Grown(pages, b, pages, b') && b'[|b| - 1][..|b[|b| - 1]|] == b[|b| - 1]
  {
    assert pages[..|pages|] == pages;
  }

  /** A new page is started. */
  lemma BooksNext(pages: seq<nat>, b: Blocks, freemem: nat, freesize: nat, handedOut: nat, page: nat)
    requires Books(pages, b, freemem, freesize, handedOut)
    ensures Books(pages + [page], b + [[]], PageAddr(page) + PAGESIZE, FREESIZE, handedOut)
    ensures Grown(pages, b, pages + [page], b + [[]])
  {
    hide PageAddr;
    TotalAppend(b, []);
    var s := b[|b| - 1];
    assert s[..|s|] == s;
    assert (pages + [page])[..|pages|] == pages;
  }

  /** What lies from addr on is given back, if it is memory of the last page that has been handed out. */
  lemma BooksCut(pages: seq<nat>, b: Blocks, freemem: nat, freesize: nat, handedOut: nat, addr: nat)
    requires Books(pages, b, freemem, freesize, handedOut)
    ensures b != [] && pages != []
    ensures freemem - FREESIZE <= addr && addr <= freemem - freesize && handedOut >= freemem - addr - freesize <==>
      PageAddr(pages[|pages| - 1]) + DataStart(|pages| - 1) <= addr <= freemem - freesize
    ensures PageAddr(pages[|pages| - 1]) + DataStart(|pages| - 1) <= addr <= freemem - freesize ==>
      var n := |b| - 1;
      && freemem >= addr && handedOut >= freemem - addr - freesize
      && Books(pages, b[n := Cut(b[n], addr - PageAddr(pages[n]) - DataStart(n))], freemem, freemem - addr,
               handedOut - (freemem - addr - freesize))
  {
    hide PageAddr, Cut;
    var n := |b| - 1;
    TotalLast(b, []);
    if n == 0 { OnePage(b); }
    if PageAddr(pages[n]) + DataStart(n) <= addr <= freemem - freesize {
      var t := addr - PageAddr(pages[n]) - DataStart(n);
      TotalLast(b, Cut(b[n], t));
    }
  }

  lemma BooksReset(first: nat)
    ensures Books([first], [[]], PAGESIZE + PageAddr(first), PAGESIZE - HEADER - MMANSIZE, 0)
  {
  }

  lemma BooksRestore(pages0: seq<nat>, b0: Blocks, pages: seq<nat>, b: Blocks, freemem: nat, freesize: nat,
                     handedOut: nat, state: State)
    requires Books(pages, b, freemem, freesize, handedOut) && Grown(pages0, b0, pages, b)
    requires state.lastPage == pages0[|pages0| - 1] && state.handedOut == Total(b0)
    requires DataStart(|b0| - 1) + Sum(b0[|b0| - 1]) + state.freesize == PAGESIZE
    ensures Books(pages0, b0, PAGESIZE + PageAddr(state.lastPage), state.freesize, state.handedOut)
  {
    hide PageAddr;
    GrownFits(pages0, b0, pages, b);
  }

  lemma OwnedNext(p: seq<nat>, c: seq<nat>, top: nat, page: nat, c': seq<nat>, top': nat)
    requires Owned(p, c, top)
    requires if c == [] then c' == [] && page == top && top' == page + 1 else c == [page] + c' && top' == top
    ensures Owned(p + [page], c', top')
  {
    MorePages(p, c, page, c', top);
    assert c != [] ==> (p + c)[|p|] == page;
  }

  lemma OwnedMoved(p: seq<nat>, c: seq<nat>, top: nat, k: nat)
    requires Owned(p, c, top) && 0 < k <= |p|
    ensures Owned(p[..k], c + p[k..], top) && Owned(p[..k], p[k..] + c, top)
  {
    PagesMoved(p, c, k);
    PagesSplit(p, c, k);
  }

  class Mman {
    var pagelist: seq<nat>
    var pagecache: seq<nat>
    var refcount: nat
    var freemem: nat          // the end of the last page
    var freesize: nat
    var handedOut: nat
    var wasted: nat
    var top: nat              // no page >= top has been obtained from the page cache of the process
    ghost var blocks: Blocks

    ghost predicate Valid()
      reads this
    {
      Owned(pagelist, pagecache, top) && Books(pagelist, blocks, freemem, freesize, handedOut)
    }

    /** new_automatmman: the first block of the first page is the manager itself. */
    constructor (top0: nat)
      ensures Valid() && blocks == [[]] && pagelist == [top0] && pagecache == []
      ensures handedOut == 0 && wasted == 0 && refcount == 0
      ensures top == top0 + 1 && freesize == 262080
    {
      pagelist, pagecache, refcount := [top0], [], 0;
      freemem, freesize := PageAddr(top0) + PAGESIZE, FREESIZE - MMANSIZE;
      handedOut, wasted, top := 0, 0, top0 + 1;
      blocks := [[]];
    }

    /** getfreepage_automatmman */
    method GetFreePage() returns (page: nat)
      requires Valid()
      modifies this`pagelist, this`pagecache, this`top
      ensures pagelist == old(pagelist) + [page]
      ensures if old(pagecache) == [] then pagecache == [] && page == old(top) && top == page + 1
        else old(pagecache) == [page] + pagecache && top == old(top)
    {
      if |pagecache| != 0 {
        page := pagecache[0];
        pagecache := pagecache[1..];
      } else {
        page := top;
        top := top + 1;
      }
      pagelist := pagelist + [page];
    }

    /** malloc_automatmman */
    method Malloc(size: nat) returns (err: Err, addr: nat)
      requires Valid()
      modifies this
      ensures Valid() && err != EINVAL && refcount == old(refcount) && wasted == old(wasted)
      ensures err == ENOMEM <==> size > 262136 && size > old(freesize)
      ensures err == ENOMEM ==> unchanged(this)
      ensures err == OK ==> Grown(old(pagelist), old(blocks), pagelist, blocks)
      ensures err == OK ==> var n := |blocks| - 1;
        && blocks[n] != [] && blocks[n][|blocks[n]| - 1] == size
        && addr == BlockAddr(pagelist, blocks, n, |blocks[n]| - 1)
      ensures err == OK ==> handedOut == old(handedOut) + size
      ensures err == OK && size <= old(freesize) ==> var n := |old(blocks)| - 1;
        && blocks == old(blocks)[n := old(blocks)[n] + [size]]
        && pagelist == old(pagelist) && pagecache == old(pagecache) && top == old(top)
      ensures err == OK && size > old(freesize) ==>
        && blocks == old(blocks) + [[size]]
        && if old(pagecache) == [] then pagelist == old(pagelist) + [old(top)] && pagecache == [] && top == old(top) + 1
           else pagelist == old(pagelist) + [old(pagecache)[0]] && pagecache == old(pagecache)[1..] && top == old(top)
    {
      hide PageAddr, Grown;
      ghost var p, b := pagelist, blocks;
      GrownSame(p, b);
      if freesize < size {
        if size > FREESIZE {
          return ENOMEM, 0;
        }
        NextPage();
      }
      ghost var p1, b1 := pagelist, blocks;
      addr := Take(size);
      GrownTwice(p, b, p1, b1, pagelist, blocks);
      err := OK;
    }

    /** The next block will come from a new page. */
    method NextPage()
      requires Valid()
      modifies this
      ensures Valid() && freesize == FREESIZE && handedOut == old(handedOut)
      ensures refcount == old(refcount) && wasted == old(wasted)
      ensures Grown(old(pagelist), old(blocks), pagelist, blocks) && blocks == old(blocks) + [[]]
      ensures if old(pagecache) == []
        then pagelist == old(pagelist) + [old(top)] && pagecache == [] && top == old(top) + 1
        else pagelist == old(pagelist) + [old(pagecache)[0]] && pagecache == old(pagecache)[1..] && top == old(top)
    {
      hide PageAddr, Owned, Books, Grown;
      ghost var p, c, b := pagelist, pagecache, blocks;
      BooksNext(p, b, freemem, freesize, handedOut, if c == [] then top else c[0]);
      var page := GetFreePage();
      OwnedNext(p, c, old(top), page, pagecache, top);
      freemem, freesize := PageAddr(page) + PAGESIZE, FREESIZE;
      blocks := blocks + [[]];
    }

    /** Takes a block from the current page. */
    method Take(size: nat) returns (addr: nat)
      requires Valid() && size <= freesize
      modifies this`freesize, this`handedOut, this`blocks
      ensures Valid() && handedOut == old(handedOut) + size && Grown(pagelist, old(blocks), pagelist, blocks)
      ensures var n := |old(blocks)| - 1; n >= 0 && blocks == old(blocks)[n := old(blocks)[n] + [size]]
      ensures var n := |blocks| - 1;
        && blocks[n] != [] && blocks[n][|blocks[n]| - 1] == size
        && addr == BlockAddr(pagelist, blocks, n, |blocks[n]| - 1)
    {
      hide PageAddr, Owned, Grown;
      ghost var b, n := blocks, |blocks| - 1;
      BooksTake(pagelist, b, freemem, freesize, handedOut, size);
      addr := freemem - freesize;
      freesize := freesize - size;
      handedOut := handedOut + size;
      blocks := b[n := b[n] + [size]];
    }

    /** mfreelast_automatmman: gives back everything from addr on; only on the last page, and not the manager. */
    method MFreeLast(addr: nat) returns (err: Err)
      requires Valid()
      modifies this
      ensures Valid() && err != ENOMEM && pagelist == old(pagelist) && pagecache == old(pagecache)
      ensures wasted == old(wasted) && refcount == old(refcount) && top == old(top) && freemem == old(freemem)
      ensures var n := |pagelist| - 1;
        err == OK <==> pagelist[n] * 262144 + (if n == 0 then 64 else 8) <= addr <= freemem - old(freesize)
      ensures err == EINVAL ==> unchanged(this)
      ensures err == OK ==> var n := |blocks| - 1;
        && blocks == old(blocks)[n := Cut(old(blocks)[n], addr - PageAddr(pagelist[n]) - DataStart(n))]
        && freemem - freesize == addr
    {
      hide Owned, Books, Cut;
      var size: int := freemem - addr;
      var diff: int := size - freesize;
      ghost var b, n := blocks, |blocks| - 1;
      BooksParts(pagelist, b, freemem, freesize, handedOut);
      BooksCut(pagelist, b, freemem, freesize, handedOut, addr);
      if freemem - FREESIZE <= addr && addr <= freemem - freesize && handedOut >= diff {
        blocks := b[n := Cut(b[n], addr - PageAddr(pagelist[n]) - DataStart(n))];
        freesize := size;
        handedOut := handedOut - diff;
        return OK;
      }
      return EINVAL;
    }

    /** reset_automatmman: all pages but the first go to the cache. */
    method Reset()
      requires Valid()
      modifies this
      ensures Valid() && blocks == [[]] && handedOut == 0 && wasted == 0 && refcount == old(refcount)
      ensures pagelist == [old(pagelist)[0]] && pagecache == old(pagecache) + old(pagelist)[1..] && top == old(top)
    {
      hide PageAddr, Books;
      var first := pagelist[0];
      ghost var p, c := pagelist, pagecache;
      pagecache := pagecache + pagelist[1..];
      pagelist := [first];
      freemem, freesize := PAGESIZE + PageAddr(first), PAGESIZE - HEADER - MMANSIZE;
      handedOut, wasted := 0, 0;
      blocks := [[]];
      OwnedMoved(p, c, top, 1);
      BooksReset(first);
      assert pagelist == p[..1];
    }

    /** incruse_automatmman */
    method IncrUse()
      modifies this`refcount
      ensures refcount == old(refcount) + 1
    {
      refcount := refcount + 1;
    }

    /** decruse_automatmman: the last user resets the arena. */
    method DecrUse() returns (r: nat)
      requires Valid() && refcount > 0
      modifies this
      ensures Valid() && refcount == old(refcount) - 1 && r == refcount
      ensures top == old(top) && if r > 0 then
          && pagelist == old(pagelist) && pagecache == old(pagecache) && blocks == old(blocks) && wasted == old(wasted)
        else
          && pagelist == [old(pagelist)[0]] && pagecache == old(pagecache) + old(pagelist)[1..] && blocks == [[]]
          && wasted == 0
    {
      refcount := refcount - 1;
      if refcount == 0 {
        Reset();
      }
      r := refcount;
    }

    /** incrwasted_automatmman */
    method IncrWasted(size: nat)
      requires Valid()
      modifies this`wasted
      ensures Valid() && wasted == old(wasted) + size
    {
      wasted := wasted + size;
    }

    /** storestate_automatmman */
    method StoreState() returns (state: State)
      requires Valid()
      ensures state == State(pagelist[|pagelist| - 1], freesize, handedOut, wasted)
      ensures Grown(pagelist, blocks, pagelist, blocks)
    {
      assert pagelist[..|pagelist|] == pagelist;
      state := State(pagelist[|pagelist| - 1], freesize, handedOut, wasted);
    }

    /** restore_automatmman: undoes everything since the state was stored; pages that were added
        later go to the cache, in their order, in front of what is there. */
    method Restore(state: State, ghost pages0: seq<nat>, ghost b0: Blocks)
      requires Valid() && Grown(pages0, b0, pagelist, blocks)
      requires state.lastPage == pages0[|pages0| - 1] && state.handedOut == Total(b0)
      requires DataStart(|b0| - 1) + Sum(b0[|b0| - 1]) + state.freesize == PAGESIZE
      modifies this
      ensures Valid() && pagelist == pages0 && blocks == b0
      ensures pagecache == old(pagelist)[|pages0|..] + old(pagecache)
      ensures freesize == state.freesize && handedOut == state.handedOut
      ensures wasted == state.wasted && refcount == old(refcount) && top == old(top)
    {
      hide PageAddr, Books, Grown, Fits;
      ghost var p, c := pagelist, pagecache;
      GrownParts(pages0, b0, p, blocks);
      BooksRestore(pages0, b0, p, blocks, freemem, freesize, handedOut, state);
      if state.lastPage != pagelist[|pagelist| - 1] {
        var k := SplitAfter(pagelist, state.lastPage);
        SamePlace(p, c, pages0, k);
        pagecache := pagelist[k..] + pagecache;
        pagelist := pagelist[..k];
      } else {
        SamePlace(p, c, pages0, |p|);
        assert p[..|p|] == p && p[|p|..] + c == c;
      }
      OwnedMoved(p, c, top, |pages0|);
      freemem := PAGESIZE + PageAddr(state.lastPage);
      freesize, handedOut, wasted := state.freesize, state.handedOut, state.wasted;
      blocks := b0;
    }

    /** initsplit_pagelist: the position after the page in the list. */
    static method SplitAfter(pages: seq<nat>, page: nat) returns (k: nat)
      requires page in pages
      ensures 0 < k <= |pages| && pages[k - 1] == page
    {
      k := 1;
      while pages[k - 1] != page
        invariant 0 < k <= |pages| && forall i :: 0 <= i < k - 1 ==> pages[i] != page
        decreases |pages| - k
      {
        k := k + 1;
      }
    }

    /** delete_automatmman: every page of list and cache is given back. */
    method Delete() returns (released: seq<nat>)
      requires Valid()
      modifies this`pagelist, this`pagecache
      ensures released == old(pagelist + pagecache) && Distinct(released)
      ensures pagelist == [] && pagecache == []
    {
      released := pagelist + pagecache;
      pagelist, pagecache := [], [];
    }
  }

  lemma MorePages(p: seq<nat>, c: seq<nat>, page: nat, c': seq<nat>, top: nat)
    requires Distinct(p + c) && forall x :: x in p + c ==> x < top
    requires if c == [] then page == top && c' == [] else c == [page] + c'
    ensures Distinct(p + [page] + c')
    ensures forall x :: x in p + [page] + c' ==> x in p + c || x == page
  {
    if c == [] {
      assert p + c == p;
      assert p + [page] + c' == p + [page];
      assert forall i :: 0 <= i < |p| ==> p[i] in p + c;
    } else {
      assert p + [page] + c' == p + c;
    }
  }

  lemma OnePage(b: Blocks)
    requires |b| == 1
    ensures Total(b) == Sum(b[0])
  {
  }

  /** The order of the pages of a list does not matter for their being distinct. */
  lemma PagesMoved(p: seq<nat>, c: seq<nat>, k: nat)
    requires Distinct(p + c) && k <= |p|
    ensures Distinct(p[..k] + (c + p[k..]))
    ensures forall x :: x in p[..k] + (c + p[k..]) <==> x in p + c
  {
    var s, t := p + c, p[..k] + (c + p[k..]);
    forall i | 0 <= i < |t| ensures t[i] == s[if i < k then i else if i < k + |c| then |p| + i - k else i - |c|] {
    }
    forall i | 0 <= i < |s| ensures s[i] == t[if i < k then i else if i < |p| then i + |c| else i - |p| + k] {
    }
  }

  lemma PagesSplit(p: seq<nat>, c: seq<nat>, k: nat)
    requires k <= |p|
    ensures p[..k] + (p[k..] + c) == p + c
  {
  }

  lemma SamePlace(p: seq<nat>, c: seq<nat>, pages0: seq<nat>, k: nat)
    requires Distinct(p + c) && 0 < |pages0| <= |p| && p[..|pages0|] == pages0
    requires 0 < k <= |p| && p[k - 1] == pages0[|pages0| - 1]
    ensures k == |pages0| && p[..k] == pages0
  {
    assert (p + c)[k - 1] == p[k - 1] && (p + c)[|pages0| - 1] == p[..|pages0|][|pages0| - 1];
  }

  lemma GrownFits(pages0: seq<nat>, b0: Blocks, pages: seq<nat>, b: Blocks)
    requires Grown(pages0, b0, pages, b) && Fits(pages, b)
    ensures Fits(pages0, b0)
  {
    var n := |b0| - 1;
    var s0, s := b0[n], b[n];
    SumPrefix(s, |s0|, |s|);
    assert s[..|s|] == s;
  }

  /** What mfreelast_automatmman gives back may be anything allocated since a checkpoint: the
      arena has still grown out of the checkpoint, so it can be restored. */
  lemma FreedBehind(pages0: seq<nat>, b0: Blocks, pages: seq<nat>, b: Blocks, addr: nat)
    requires Grown(pages0, b0, pages, b)
    requires var n := |b| - 1;
      && PageAddr(pages[n]) + DataStart(n) <= addr <= PageAddr(pages[n]) + DataStart(n) + Sum(b[n])
      && (|b| == |b0| ==> BlockAddr(pages0, b0, n, |b0[n]|) <= addr)
    ensures var n := |b| - 1;
      Grown(pages0, b0, pages, b[n := Cut(b[n], addr - PageAddr(pages[n]) - DataStart(n))])
  {
    var n := |b| - 1;
    if |b| == |b0| {
      assert pages == pages0 && b0[n][..|b0[n]|] == b0[n];
      CutKeeps(b[n], addr - PageAddr(pages[n]) - DataStart(n), |b0[n]|);
    }
  }

  lemma BooksParts(pages: seq<nat>, b: Blocks, freemem: nat, freesize: nat, handedOut: nat)
    requires Books(pages, b, freemem, freesize, handedOut)
    ensures 0 < |pages| == |b| && freemem == PageAddr(pages[|pages| - 1]) + PAGESIZE && freesize <= freemem
  {
  }

  lemma GrownParts(pages0: seq<nat>, b0: Blocks, pages: seq<nat>, b: Blocks)
    requires Grown(pages0, b0, pages, b)
    ensures 0 < |pages0| <= |pages| && pages[..|pages0|] == pages0 && pages0[|pages0| - 1] in pages
  {
    assert pages[|pages0| - 1] == pages[..|pages0|][|pages0| - 1];
  }

  lemma GrownSame(pages: seq<nat>, b: Blocks)
    requires 0 < |pages| == |b|
    ensures Grown(pages, b, pages, b)
  {
    assert pages[..|pages|] == pages;
    var s := b[|b| - 1];
    assert s[..|s|] == s;
  }

  lemma GrownTwice(pages0: seq<nat>, b0: Blocks, pages1: seq<nat>, b1: Blocks, pages2: seq<nat>, b2: Blocks)
    requires Grown(pages0, b0, pages1, b1) && Grown(pages1, b1, pages2, b2)
    ensures Grown(pages0, b0, pages2, b2)
  {
    var n := |b0| - 1;
    assert pages2[..|pages0|] == pages2[..|pages1|][..|pages0|];
    assert |b0| < |b1| ==> b2[n] == b1[n];
    assert |b0| == |b1| ==> b2[n][..|b0[n]|] == b2[n][..|b1[n]|][..|b0[n]|];
  }
}
