/** Languages as sets of words, and the operations regular expressions denote. */
module Languages {
  import opened Graphs

  type Lang = iset<Word>

  // maxchar_utf8: the largest character that UTF-8 can encode
  const MAXCHAR: Char32 := 0x7fff_ffff

  ghost predicate Splits(L1: Lang, L2: Lang, w: Word, k: nat) {
    k <= |w| && w[..k] in L1 && w[k..] in L2
  }

  ghost predicate Joined(L1: Lang, L2: Lang, w: Word) {
    exists k: nat :: Splits(L1, L2, w, k)
  }

  ghost function Concat(L1: Lang, L2: Lang): Lang {
    iset w: Word | Joined(L1, L2, w)
  }

  /** w is a concatenation of finitely many words of L. */
  ghost predicate InStar(L: Lang, w: Word)
    decreases |w|
  {
    w == [] || exists k: nat :: 0 < k <= |w| && w[..k] in L && InStar(L, w[k..])
  }

  ghost function Star(L: Lang): Lang {
    iset w: Word | InStar(L, w)
  }

  ghost function Plus(L: Lang): Lang {
    Concat(L, Star(L))
  }

  function Reverse(w: Word): Word {
    if w == [] then [] else Reverse(w[1..]) + [w[0]]
  }

  ghost function Reversed(L: Lang): Lang {
    iset w: Word | Reverse(w) in L
  }

  /** One character from a list of inclusive ranges. */
  predicate InRanges(c: Char32, from: seq<Char32>, to: seq<Char32>)
    requires |from| == |to|
  {
    exists i :: 0 <= i < |from| && from[i] <= c <= to[i]
  }

  predicate RangesInverted(from: seq<Char32>, to: seq<Char32>) {
    exists i :: 0 <= i < |from| && i < |to| && from[i] > to[i]
  }

  ghost function CharLang(from: seq<Char32>, to: seq<Char32>): Lang
    requires |from| == |to|
  {
    iset w: Word | |w| == 1 && InRanges(w[0], from, to)
  }

  /** All words whose characters do not exceed max. */
  ghost function WordsUpTo(max: Char32): Lang {
    iset w: Word | forall i :: 0 <= i < |w| ==> w[i] <= max
  }

  lemma StarStep(L: Lang, u: Word, v: Word)
    requires u in L && v in Star(L)
    ensures u + v in Star(L)
  {
    if u == [] {
      assert u + v == v;
    } else {
      var w := u + v;
      assert w[..|u|] == u && w[|u|..] == v;
    }
  }

  lemma {:induction false} ReverseConcat(u: Word, v: Word)
    ensures Reverse(u + v) == Reverse(v) + Reverse(u)
  {
    if u == [] {
      assert u + v == v;
    } else {
      ReverseConcat(u[1..], v);
      assert (u + v)[1..] == u[1..] + v;
    }
  }

  lemma {:induction false} ReverseTwice(w: Word)
    ensures Reverse(Reverse(w)) == w && |Reverse(w)| == |w|
  {
    if w != [] {
      ReverseTwice(w[1..]);
      ReverseConcat(Reverse(w[1..]), [w[0]]);
      assert Reverse([w[0]]) == [w[0]];
    }
  }

  lemma ReversedTwice(L: Lang)
    ensures Reversed(Reversed(L)) == L
  {
    forall w: Word ensures w in Reversed(Reversed(L)) <==> w in L {
      ReverseTwice(w);
    }
  }

  /** The star of the one-character language [0..max] holds all words over [0..max]. */
  lemma {:induction false} StarOfAll(max: Char32)
    ensures Star(CharLang([0], [max])) == WordsUpTo(max)
  {
    forall w: Word ensures InStar(CharLang([0], [max]), w) <==> w in WordsUpTo(max) {
      StarOfAllWord(max, w);
    }
  }

  lemma {:induction false} StarOfAllWord(max: Char32, w: Word)
    ensures InStar(CharLang([0], [max]), w) <==> w in WordsUpTo(max)
    decreases |w|
  {
    if w != [] {
      var L := CharLang([0], [max]);
      StarOfAllWord(max, w[1..]);
      if k: nat :| 0 < k <= |w| && w[..k] in L && InStar(L, w[k..]) {
        assert k == 1;
        assert w[..1][0] == w[0];
        forall i | 0 <= i < |w| ensures w[i] <= max {
          if i > 0 { assert w[i] == w[1..][i - 1]; }
        }
      }
      if w in WordsUpTo(max) {
        assert InRanges(w[..1][0], [0], [max]) by { assert [0 as Char32][0] <= w[0] <= [max][0]; }
        assert w[..1] in L;
      }
    }
  }
}
