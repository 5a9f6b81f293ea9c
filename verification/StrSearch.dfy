/** strsearch_t: a simplified Boyer-Moore search, which compares from the end of the
    pattern, and after a mismatch moves the pattern on as far as the matched part allows. */
module StrSearch {

  type Byte = n: nat | n < 256

  // ---- what the tables mean

  /** The k-th character from the end is the same as the one s places to its left. */
  predicate Same(p: seq<Byte>, s: nat, k: nat) {
    1 <= k && s + k <= |p| && p[|p| - s - k] == p[|p| - k]
  }

  /** Where the pattern p shifted right by s overlaps with its last n characters, both agree. */
  predicate Valid(p: seq<Byte>, n: nat, s: nat) {
    forall k: nat :: 1 <= k <= n && k + s <= |p| ==> Same(p, s, k)
  }

  /** s is the smallest shift, at least 1, that agrees with the last n characters. */
  ghost predicate Smallest(p: seq<Byte>, n: nat, s: nat) {
    1 <= s <= |p| && Valid(p, n, s) && NoValid(p, n, s)
  }

  ghost predicate NoValid(p: seq<Byte>, n: nat, s: nat) {
    forall t: nat :: 1 <= t < s ==> !Valid(p, n, t)
  }

  /** The suffix of length n agrees with itself shifted by d. */
  predicate Period(p: seq<Byte>, n: nat, d: nat) {
    forall k: nat :: 1 <= k && k + d <= n ==> Same(p, d, k)
  }

  ghost predicate NoPeriod(p: seq<Byte>, n: nat, d: nat) {
    forall e: nat :: 1 <= e < d ==> !Period(p, n, e)
  }

  /** sidx[i] tells the smallest period of the suffix that starts at i + 1, and thus its longest border. */
  ghost predicate SidxAt(p: seq<Byte>, i: nat, v: nat) {
    i < v <= |p| && Period(p, |p| - 1 - i, v - i) && NoPeriod(p, |p| - 1 - i, v - i)
  }

  /** The suffix of length n has a border of length b: both of its ends are the same. */
  predicate Border(p: seq<Byte>, n: nat, b: nat) {
    b <= n <= |p| && p[|p| - n..|p| - n + b] == p[|p| - b..]
  }

  lemma BorderPeriod(p: seq<Byte>, n: nat, b: nat)
    requires b <= n <= |p|
    ensures Border(p, n, b) <==> Period(p, n, n - b)
  {
    var m, d := |p|, n - b;
    var left, right := p[m - n..m - n + b], p[m - b..];
    if Border(p, n, b) {
      forall k: nat | 1 <= k && k + d <= n ensures Same(p, d, k) {
        assert left[b - k] == right[b - k];
      }
    }
    if Period(p, n, d) {
      forall j | 0 <= j < b ensures left[j] == right[j] {
        assert Same(p, d, b - j);
      }
    }
  }

  /** |p| - 1 - sidx[i] is the length of the longest proper border of the suffix that starts at i + 1. */
  lemma SidxBorder(p: seq<Byte>, i: nat, v: nat, c: nat)
    requires i + 1 < |p| && SidxAt(p, i, v) && c < |p| - 1 - i
    ensures v < |p| && Border(p, |p| - 1 - i, |p| - 1 - v)
    ensures c > |p| - 1 - v ==> !Border(p, |p| - 1 - i, c)
  {
    var n := |p| - 1 - i;
    assert Period(p, n, n);
    BorderPeriod(p, n, |p| - 1 - v);
    BorderPeriod(p, n, c);
  }

  lemma PeriodMore(p: seq<Byte>, n: nat, d: nat)
    requires n < |p| && 1 <= d
    ensures Period(p, n + 1, d) <==> Period(p, n, d) && (d <= n ==> p[|p| - 1 - n] == p[|p| - 1 - n + d])
  {
    if d <= n {
      var k := n + 1 - d;
      assert Same(p, d, k) <==> p[|p| - 1 - n] == p[|p| - 1 - n + d];
      if Period(p, n + 1, d) { assert Same(p, d, k); }
    }
  }

  /** Periods add up. */
  lemma PeriodsAdd(p: seq<Byte>, n: nat, d: nat, e: nat)
    requires n <= |p| && d <= n && Period(p, n, d)
    ensures Period(p, n, d + e) <==> Period(p, n - d, e)
  {
    var f := d + e;
    forall k: nat | 1 <= k && k + f <= n ensures Same(p, f, k) <==> Same(p, e, k) {
      assert Same(p, d, e + k);
    }
    if Period(p, n, f) {
      forall k: nat | 1 <= k && k + e <= n - d ensures Same(p, e, k) {
        assert Same(p, f, k);
      }
    }
    if Period(p, n - d, e) {
      forall k: nat | 1 <= k && k + f <= n ensures Same(p, f, k) {
        assert Same(p, e, k);
      }
    }
  }

  lemma InvalidMore(p: seq<Byte>, n: nat, n': nat, s: nat)
    requires !Valid(p, n', s) && n' <= n
    ensures !Valid(p, n, s)
  {
  }

  lemma ValidMore(p: seq<Byte>, n: nat, s: nat)
    requires n < |p|
    ensures Valid(p, n + 1, s) <==> Valid(p, n, s) && (n + 1 + s <= |p| ==> Same(p, s, n + 1))
  {
  }

  /** A shift that agrees with n characters, moved on by d. */
  lemma ValidAdd(p: seq<Byte>, n: nat, s: nat, d: nat)
    requires n + s <= |p| && d <= n && Valid(p, n, s)
    ensures Valid(p, n - d, s + d) <==> Period(p, n, d)
  {
    var t := s + d;
    forall k: nat | 1 <= k && k + d <= n ensures Same(p, t, k) <==> Same(p, d, k) {
      assert Same(p, s, d + k);
    }
    if Valid(p, n - d, t) {
      forall k: nat | 1 <= k && k + d <= n ensures Same(p, d, k) {
        assert Same(p, t, k);
      }
    }
    if Period(p, n, d) {
      forall k: nat | 1 <= k <= n - d && k + t <= |p| ensures Same(p, t, k) {
        assert Same(p, d, k);
      }
    }
  }

  // ---- building the tables

  /** buildtable_rsearchkmp */
  method BuildTableRsearchKmp(findstr: seq<Byte>, sidx: array<nat>)
    requires |findstr| >= 1 && sidx.Length == |findstr|
    modifies sidx
    ensures forall j :: 0 <= j < |findstr| ==> SidxAt(findstr, j, sidx[j])
  {
    var findsize := |findstr|;
    sidx[findsize - 1] := findsize;
    var i: nat, i2: nat := findsize - 1, findsize;
    while i > 0
      invariant 0 <= i < findsize && i2 == sidx[i]
      invariant forall j :: i <= j < findsize ==> SidxAt(findstr, j, sidx[j])
      decreases i
    {
      ghost var n := findsize - 1 - i;
      SidxStart(findstr, i, i2);
      while i2 < findsize && findstr[i] != findstr[i2]
        invariant i < i2 <= findsize && Period(findstr, n, i2 - i)
        invariant NoPeriod(findstr, n + 1, i2 - i)
        invariant forall j :: i <= j < findsize ==> SidxAt(findstr, j, sidx[j])
        decreases findsize - i2
      {
        SidxNext(findstr, i, i2, sidx[i2]);
        i2 := sidx[i2];
      }
      PeriodMore(findstr, n, i2 - i);
      i, i2 := i - 1, i2 - 1;
      sidx[i] := i2;
    }
  }

  lemma SidxStart(p: seq<Byte>, i: nat, v: nat)
    requires i < |p| && SidxAt(p, i, v)
    ensures NoPeriod(p, |p| - i, v - i)
  {
    var n := |p| - i;
    forall d: nat | 1 <= d < v - i ensures !Period(p, n, d) {
      PeriodMore(p, n - 1, d);
    }
  }

  /** The border of the border is the next one to try. */
  lemma SidxNext(p: seq<Byte>, i: nat, i2: nat, v: nat)
    requires i < i2 < |p| && p[i] != p[i2] && SidxAt(p, i2, v)
    requires Period(p, |p| - 1 - i, i2 - i) && NoPeriod(p, |p| - i, i2 - i)
    ensures Period(p, |p| - 1 - i, v - i) && NoPeriod(p, |p| - i, v - i)
  {
    var n, n1, d0 := |p| - 1 - i, |p| - i, i2 - i;
    PeriodsAdd(p, n, d0, v - i2);
    forall d: nat | 1 <= d < v - i ensures !Period(p, n1, d) {
      PeriodMore(p, n, d);
      if d > d0 {
        PeriodsAdd(p, n, d0, d - d0);
      }
    }
  }

  /** The search for the next place where n characters agree has come to the shift spos - dpos. */
  ghost predicate Searching(p: seq<Byte>, n: nat, dpos: nat, spos: nat) {
    && dpos < spos <= |p| && |p| - spos <= n
    && Valid(p, |p| - spos, spos - dpos)
    && NoValid(p, n, spos - dpos)
  }

  /** The character before does not agree; spos is the one to compare next. */
  ghost predicate Mismatched(p: seq<Byte>, n: nat, dpos: nat, spos: nat) {
    && dpos < spos <= |p| && |p| - spos <= n
    && (spos < |p| ==> |p| - 1 - spos < n && Valid(p, |p| - 1 - spos, spos - dpos))
    && NoValid(p, n, spos - dpos)
  }

  lemma SearchNext(p: seq<Byte>, n: nat, dpos: nat, spos: nat, v: nat)
    requires n < |p| && spos < |p| && Mismatched(p, n, dpos, spos) && p[spos] != p[dpos] && SidxAt(p, spos, v)
    ensures Mismatched(p, n, dpos, v)
  {
    var L, s := |p| - 1 - spos, spos - dpos;
    ValidMore(p, L, s);
    InvalidMore(p, n, L + 1, s);
    assert Period(p, L, if L == 0 then 1 else L);
    forall t: nat | 1 <= t < v - dpos ensures !Valid(p, n, t) {
      if t > s {
        ValidAdd(p, L, s, t - s);
        InvalidMore(p, n, L - (t - s), t);
      }
    }
    if v < |p| {
      ValidAdd(p, L, s, v - spos);
    }
  }

  lemma SearchStep(p: seq<Byte>, n: nat, dpos: nat, spos: nat)
    requires n < |p| && Mismatched(p, n, dpos, spos) && (spos < |p| ==> p[spos] == p[dpos])
    ensures Searching(p, n, dpos, spos)
  {
    if spos < |p| {
      ValidMore(p, |p| - 1 - spos, spos - dpos);
    }
  }

  /** The search ends with a full match, or at the start of the pattern. */
  lemma SearchDone(p: seq<Byte>, n: nat, dpos: nat, spos: nat)
    requires Searching(p, n, dpos, spos) && (dpos == 0 || |p| - spos == n)
    ensures Smallest(p, n, spos - dpos)
  {
  }

  /** The inner part of buildtable_strsearch: it goes on where nrmatched - 1 characters agree. */
  method SearchBack(findstr: seq<Byte>, sidx: array<nat>, nrmatched: nat, lastoff0: nat) returns (lastoff: nat)
    requires 1 <= nrmatched < |findstr| && sidx.Length == |findstr|
    requires forall j :: 0 <= j < |findstr| ==> SidxAt(findstr, j, sidx[j])
    requires nrmatched <= lastoff0 < |findstr| && Smallest(findstr, nrmatched - 1, |findstr| - lastoff0)
    ensures lastoff < |findstr| && Smallest(findstr, nrmatched, |findstr| - lastoff)
  {
    var findsize := |findstr|;
    var dpos: nat, spos: nat := lastoff0 - nrmatched + 1, findsize - nrmatched + 1;
    SearchFirst(findstr, nrmatched, findsize - lastoff0);
    while dpos > 0
      invariant Searching(findstr, nrmatched, dpos, spos) && findsize - spos < nrmatched
      decreases dpos
    {
      dpos, spos := dpos - 1, spos - 1;
      if findstr[spos] != findstr[dpos] {
        SearchNext(findstr, nrmatched, dpos, spos, sidx[spos]);
        spos := sidx[spos];
        while spos < findsize && findstr[spos] != findstr[dpos]
          invariant Mismatched(findstr, nrmatched, dpos, spos)
          decreases findsize - spos
        {
          SearchNext(findstr, nrmatched, dpos, spos, sidx[spos]);
          spos := sidx[spos];
        }
      }
      SearchStep(findstr, nrmatched, dpos, spos);
      if nrmatched == findsize - spos {
        break;
      }
    }
    SearchDone(findstr, nrmatched, dpos, spos);
    lastoff := if spos < findsize then dpos + (findsize - spos) else 0;
  }

  lemma SearchFirst(p: seq<Byte>, n: nat, s: nat)
    requires 1 <= n < |p| && Smallest(p, n - 1, s) && n + s <= |p|
    ensures Searching(p, n, |p| - s - n + 1, |p| - n + 1)
  {
    forall t: nat | 1 <= t < s ensures !Valid(p, n, t) {
      InvalidMore(p, n, n - 1, t);
    }
  }

  /** If less than n characters overlap, another matched character changes nothing. */
  lemma SearchOver(p: seq<Byte>, n: nat, s: nat)
    requires 1 <= n < |p| && Smallest(p, n - 1, s) && n + s > |p|
    ensures Smallest(p, n, s)
  {
    forall t: nat | 1 <= t < s ensures !Valid(p, n, t) {
      InvalidMore(p, n, n - 1, t);
    }
  }

  /** shift[n] is the smallest shift after n matched characters. */
  ghost predicate ShiftTable(p: seq<Byte>, shift: seq<nat>) {
    |shift| == |p| && forall n :: 0 <= n < |p| ==> Smallest(p, n, shift[n])
  }

  /** buildtable_strsearch */
  method BuildTableStrSearch(findstr: seq<Byte>, shift: array<nat>)
    requires |findstr| >= 1 && shift.Length == |findstr|
    modifies shift
    ensures ShiftTable(findstr, shift[..])
  {
    var findsize := |findstr|;
    var sidx := new nat[findsize];
    BuildTableRsearchKmp(findstr, sidx);
    shift[0] := 1;
    var nrmatched, lastoff := 1, findsize - 1;
    while nrmatched < findsize
      invariant 1 <= nrmatched <= findsize && lastoff < findsize
      invariant shift[nrmatched - 1] == findsize - lastoff
      invariant forall n :: 0 <= n < nrmatched ==> Smallest(findstr, n, shift[n])
      invariant forall j :: 0 <= j < findsize ==> SidxAt(findstr, j, sidx[j])
      decreases findsize - nrmatched
    {
      if lastoff >= nrmatched {
        lastoff := SearchBack(findstr, sidx, nrmatched, lastoff);
      } else {
        SearchOver(findstr, nrmatched, findsize - lastoff);
      }
      shift[nrmatched] := findsize - lastoff;
      nrmatched := nrmatched + 1;
    }
  }

  // ---- the search

  predicate Occurs(data: seq<Byte>, p: seq<Byte>, pos: nat) {
    pos + |p| <= |data| && data[pos..pos + |p|] == p
  }

  /** The result of the naive search: the first occurrence, or none. */
  ghost predicate First(data: seq<Byte>, p: seq<Byte>, found: bool, pos: nat) {
    if found then Occurs(data, p, pos) && forall i: nat :: i < pos ==> !Occurs(data, p, i)
    else forall i: nat :: !Occurs(data, p, i)
  }

  lemma OccursAt(data: seq<Byte>, p: seq<Byte>, pos: nat, i: nat)
    requires Occurs(data, p, pos) && i < |p|
    ensures p[i] == data[pos + i]
  {
    assert data[pos..pos + |p|][i] == p[i];
  }

  /** The pattern at pos matches from the index `from` up to the index `to`. */
  predicate Matches(data: seq<Byte>, p: seq<Byte>, pos: nat, from: nat, to: nat) {
    to <= |p| && pos + |p| <= |data| && forall i: nat :: from <= i < to ==> p[i] == data[pos + i]
  }

  lemma MatchesAll(data: seq<Byte>, p: seq<Byte>, pos: nat)
    requires Matches(data, p, pos, 0, |p|)
    ensures Occurs(data, p, pos)
  {
    forall i | 0 <= i < |p| ensures data[pos..pos + |p|][i] == p[i] {
    }
  }

  /** What was matched before the shift by s remains matched. */
  lemma ShiftKeeps(data: seq<Byte>, p: seq<Byte>, pos: nat, n: nat, s: nat)
    requires n < |p| && Matches(data, p, pos, |p| - n, |p|) && Smallest(p, n, s) && pos + s + |p| <= |data|
    ensures Matches(data, p, pos + s, if s + n < |p| then |p| - s - n else 0, |p| - s)
  {
    var from := if s + n < |p| then |p| - s - n else 0;
    forall i: nat | from <= i < |p| - s ensures p[i] == data[pos + s + i] {
      assert Same(p, s, |p| - s - i);
      assert p[i + s] == data[pos + (i + s)];
    }
  }

  /** The shift does not pass over an occurrence. */
  lemma ShiftMissesNothing(data: seq<Byte>, p: seq<Byte>, pos: nat, n: nat, s: nat, d: nat)
    requires n < |p| && Matches(data, p, pos, |p| - n, |p|) && p[|p| - 1 - n] != data[pos + |p| - 1 - n]
    requires Smallest(p, n, s) && d < s
    ensures !Occurs(data, p, pos + d)
  {
    if Occurs(data, p, pos + d) {
      if d == 0 {
        OccursAt(data, p, pos, |p| - 1 - n);
      } else {
        forall k: nat | 1 <= k <= n && k + d <= |p| ensures Same(p, d, k) {
          OccursAt(data, p, pos + d, |p| - d - k);
          assert p[|p| - k] == data[pos + (|p| - k)];
        }
        assert Valid(p, n, d);
      }
    }
  }

  /** Compares the pattern from its end; what lies in the `skip` characters below eoff is known to match. */
  method Compare(findstr: seq<Byte>, data: seq<Byte>, pos: nat, eoff0: nat, skip: nat)
    returns (found: bool, nrmatched: nat)
    requires pos + |findstr| <= |data| && eoff0 < |findstr|
    requires Matches(data, findstr, pos, if skip < eoff0 then eoff0 - skip else 0, eoff0)
    ensures found ==> Occurs(data, findstr, pos)
    ensures !found ==> nrmatched < |findstr| && Matches(data, findstr, pos, |findstr| - nrmatched, |findstr|)
    ensures !found ==> findstr[|findstr| - 1 - nrmatched] != data[pos + |findstr| - 1 - nrmatched]
  {
    var eoff := eoff0;
    var off: nat := |findstr| - 1;
    while findstr[off] == data[pos + off]
      invariant eoff <= off < |findstr| && (eoff == eoff0 || eoff == 0)
      invariant Matches(data, findstr, pos, off + 1, |findstr|)
      decreases off
    {
      if off == eoff {
        if off <= skip {
          MatchesAll(data, findstr, pos);
          return true, 0;
        }
        off := off - skip;
        eoff := 0;
      }
      off := off - 1;
    }
    return false, |findstr| - 1 - off;
  }

  /** The search loop of find_strsearch and strsearch. */
  method SearchLoop(findstr: seq<Byte>, shift: array<nat>, data: seq<Byte>) returns (found: bool, pos: nat)
    requires 1 < |findstr| <= |data| && ShiftTable(findstr, shift[..])
    ensures First(data, findstr, found, pos)
  {
    var findsize := |findstr|;
    var eoff: nat, skip: nat := 0, 0;
    pos := 0;
    while true
      invariant pos + findsize <= |data| && eoff < findsize
      invariant Matches(data, findstr, pos, if skip < eoff then eoff - skip else 0, eoff)
      invariant forall i: nat :: i < pos ==> !Occurs(data, findstr, i)
      decreases |data| - pos
    {
      var nrmatched;
      found, nrmatched := Compare(findstr, data, pos, eoff, skip);
      if found {
        return;
      }
      var pincr := shift[nrmatched];
      assert Smallest(findstr, nrmatched, shift[..][nrmatched]);
      forall i: nat | pos <= i < pos + pincr ensures !Occurs(data, findstr, i) {
        ShiftMissesNothing(data, findstr, pos, nrmatched, pincr, i - pos);
      }
      if pos + pincr + findsize > |data| {
        return false, pos;
      }
      ShiftKeeps(data, findstr, pos, nrmatched, pincr);
      skip := nrmatched;
      pos := pos + pincr;
      eoff := findsize - pincr;
    }
  }

  /** memchr */
  method FindByte(data: seq<Byte>, c: Byte) returns (found: bool, pos: nat)
    ensures First(data, [c], found, pos)
  {
    pos := 0;
    while pos < |data|
      invariant pos <= |data| && forall i: nat :: i < pos ==> !Occurs(data, [c], i)
    {
      if data[pos] == c {
        return true, pos;
      }
      assert !Occurs(data, [c], pos) by {
        assert data[pos..pos + 1][0] != c;
      }
      pos := pos + 1;
    }
    return false, pos;
  }

  class Searcher {
    const findstr: seq<Byte>
    const shift: array<nat>

    ghost predicate Ready()
      reads shift
    {
      |findstr| > 1 ==> ShiftTable(findstr, shift[..])
    }

    /** init_strsearch; the caller provides the memory of the shift table. */
    constructor (findstr: seq<Byte>, shift: array<nat>)
      requires |findstr| <= 255 && shift.Length == |findstr|
      modifies shift
      ensures this.findstr == findstr && this.shift == shift && Ready()
    {
      if |findstr| > 1 {
        BuildTableStrSearch(findstr, shift);
      }
      this.findstr, this.shift := findstr, shift;
    }

    /** find_strsearch; the empty pattern is never found. */
    method Find(data: seq<Byte>) returns (found: bool, pos: nat)
      requires Ready()
      ensures findstr == [] ==> !found
      ensures findstr != [] ==> First(data, findstr, found, pos)
    {
      if |findstr| > |data| {
        return false, 0;
      }
      if |findstr| <= 1 {
        if |findstr| == 0 {
          return false, 0;
        }
        assert findstr == [findstr[0]];
        found, pos := FindByte(data, findstr[0]);
      } else {
        found, pos := SearchLoop(findstr, shift, data);
      }
    }
  }

  /** strsearch: builds the table for a single search. */
  method StrSearchOnce(data: seq<Byte>, findstr: seq<Byte>) returns (found: bool, pos: nat)
    requires |findstr| <= 255
    ensures findstr == [] ==> !found
    ensures findstr != [] ==> First(data, findstr, found, pos)
  {
    if |findstr| > |data| {
      return false, 0;
    }
    if |findstr| <= 1 {
      if |findstr| == 0 {
        return false, 0;
      }
      assert findstr == [findstr[0]];
      found, pos := FindByte(data, findstr[0]);
    } else {
      var shift := new nat[|findstr|];
      BuildTableStrSearch(findstr, shift);
      found, pos := SearchLoop(findstr, shift, data);
    }
  }

  /** The entries of shift fit a byte, and grow with the number of matched characters. */
  lemma ShiftFits(p: seq<Byte>, shift: seq<nat>, n: nat)
    requires ShiftTable(p, shift) && n < |p| <= 255
    ensures 1 <= shift[n] <= 255 && (n == 0 ==> shift[n] == 1)
    ensures forall m: nat :: m < n ==> shift[m] <= shift[n]
  {
    assert Smallest(p, n, shift[n]);
    assert Valid(p, 0, 1);
    assert n == 0 ==> shift[n] == 1;
    forall m: nat | m < n ensures shift[m] <= shift[n] {
      assert Smallest(p, m, shift[m]);
      if shift[n] < shift[m] { InvalidMore(p, n, m, shift[n]); }
    }
  }
}
