/** A range that ends with ']' is an error, wherever it stands, and even behind a backslash. */
module RegexErrors {
  import opened Graphs
  import opened RegexSyntax
  import opened RegexGrammar
  import opened RegexComplete
  import opened RegexSound

  /** A range whose upper bound is ']', and whatever follows. */
  function BadRangeText(from: Letter, sp1: nat, sp2: nat, to: Letter, rest: Word): Word {
    LetterText(from) + (Spaces(sp1) + ([MINUS] + (Spaces(sp2) + (LetterText(to) + rest))))
  }

  /** The ranges rs may stand in front of one that starts with this character. */
  predicate MayFollow(rs: seq<Range>, from: Letter) {
    && RangesOk(rs) && InSet(from)
    && (rs != [] && rs[|rs| - 1].One? ==> from != Plain(MINUS))
  }

  lemma BadItem(from: Letter, sp1: nat, sp2: nat, to: Letter, rest: Word)
    requires InSet(from) && Meant(to) == RBRA && (to.Plain? ==> to.c == RBRA)
    ensures NextItem(BadRangeText(from, sp1, sp2, to, rest)).0 == BadRange
  {
    hide Skip, Peek, After, LetterText, CharAt, CharRest, Meant;
    var t3 := LetterText(to) + rest;
    var t2 := [MINUS] + (Spaces(sp2) + t3);
    var t1 := Spaces(sp1) + t2;
    SetLetter(from, t1);
    SpacesAhead(sp1, t2);
    Ahead(MINUS, Spaces(sp2) + t3);
    SpacesAhead(sp2, t3);
    BracketLetter(to, rest);
  }

  lemma BracketLetter(to: Letter, rest: Word)
    requires Meant(to) == RBRA && (to.Plain? ==> to.c == RBRA)
    ensures var t := LetterText(to) + rest; CharAt(Peek(t), After(t)) == RBRA
  {
    match to
    case Plain(c) => Ahead(c, rest);
    case Escaped(c) =>
      assert LetterText(to) + rest == [BSLASH] + ([c] + rest);
      Ahead(BSLASH, [c] + rest);
  }

  /** What the rest of the set starts with. */
  lemma RestStarts(rs: seq<Range>, l: Letter, t: Word)
    requires RangesOk(rs) && InSet(l)
    ensures var first, u := if rs == [] then l else FirstLetter(rs[0]), RangesText(rs) + (LetterText(l) + t);
      Skip(u) == u && (Peek(u) == MINUS <==> first == Plain(MINUS)) && (Peek(u) == CARET <==> first == Plain(CARET))
  {
    hide Skip, Peek, After, CharAt, CharRest, InSet, Meant;
    var u := RangesText(rs) + (LetterText(l) + t);
    if rs == [] {
      assert u == LetterText(l) + t;
      SetLetter(l, t);
    } else {
      var first := FirstLetter(rs[0]);
      var v := RangesText(rs[1..]) + (LetterText(l) + t);
      Assoc(RangeText(rs[0]), RangesText(rs[1..]), LetterText(l) + t);
      var tail := FirstText(rs[0], v);
      SetLetter(first, tail);
    }
  }

  lemma {:induction false} SetFails(rs: seq<Range>, from: Letter, sp1: nat, sp2: nat, to: Letter, rest: Word,
                                    f: seq<Char32>, t: seq<Char32>)
    requires MayFollow(rs, from) && Meant(to) == RBRA && (to.Plain? ==> to.c == RBRA) && |f| == |t|
    ensures ParseSet(RangesText(rs) + BadRangeText(from, sp1, sp2, to, rest), f, t).FailedSet?
    decreases |rs|
  {
    hide Skip, Peek, After, RangeText, NextItem, BadRangeText;
    var bad := BadRangeText(from, sp1, sp2, to, rest);
    BadItem(from, sp1, sp2, to, rest);
    if rs == [] {
      assert RangesText(rs) + bad == bad;
    } else {
      var r, more := rs[0], rs[1..];
      var u := RangesText(more) + bad;
      Assoc(RangeText(r), RangesText(more), bad);
      BadStarts(more, from, sp1, sp2, to, rest);
      RangeBack(r, u);
      SetSkip(NextItem(RangeText(r) + u).1, f + [Lower(r)], t + [Upper(r)]);
      SetSkip(u, f + [Lower(r)], t + [Upper(r)]);
      SetFails(more, from, sp1, sp2, to, rest, f + [Lower(r)], t + [Upper(r)]);
    }
  }

  lemma BadStarts(rs: seq<Range>, from: Letter, sp1: nat, sp2: nat, to: Letter, rest: Word)
    requires RangesOk(rs) && InSet(from)
    ensures var first, u := if rs == [] then from else FirstLetter(rs[0]),
            RangesText(rs) + BadRangeText(from, sp1, sp2, to, rest);
      Skip(u) == u && (Peek(u) == MINUS <==> first == Plain(MINUS)) && (Peek(u) == CARET <==> first == Plain(CARET))
  {
    RestStarts(rs, from, Spaces(sp1) + ([MINUS] + (Spaces(sp2) + (LetterText(to) + rest))));
  }

  /** A set, negated or not, that contains such a range behind any others. */
  function BadSetText(sp: nat, neg: Option<nat>, rs: seq<Range>, bad: Word): Word {
    [LBRA] + (Spaces(sp) + (NegText(neg) + (RangesText(rs) + bad)))
  }

  lemma SetAtomFails(sp: nat, neg: Option<nat>, rs: seq<Range>, from: Letter, sp1: nat, sp2: nat, to: Letter,
                     rest: Word)
    requires MayFollow(rs, from) && Meant(to) == RBRA && (to.Plain? ==> to.c == RBRA)
    requires neg == None ==> (if rs == [] then from else FirstLetter(rs[0])) != Plain(CARET)
    ensures ParseAtom(BadSetText(sp, neg, rs, BadRangeText(from, sp1, sp2, to, rest))).Failed?
  {
    hide Skip, Peek, After, RangesText, ParseSet, Spaces, BadRangeText;
    var t2 := RangesText(rs) + BadRangeText(from, sp1, sp2, to, rest);
    var t1 := NegText(neg) + t2;
    Ahead(LBRA, Spaces(sp) + t1);
    SpacesAhead(sp, t1);
    BadStarts(rs, from, sp1, sp2, to, rest);
    SetFails(rs, from, sp1, sp2, to, rest, [], []);
    match neg
    case None =>
      assert t1 == t2;
      SetSkip(Spaces(sp) + t2, [], []);
      SetSkip(t2, [], []);
    case Some(n) =>
      Assoc([CARET], Spaces(n), t2);
      Ahead(CARET, Spaces(n) + t2);
      SpacesAhead(n, t2);
      SetSkip(Spaces(n) + t2, [], []);
      SetSkip(t2, [], []);
  }

  /** What stands in front of an atom within its parentheses: spaces, operands with an operator, factors
      of the same sequence, and '!'. */
  datatype Place = Place(lead: nat, before: Option<Operands>, op: Operator, sp: nat,
                         q: Option<Sequence>, nots: seq<nat>)

  function PlaceText(p: Place): Word {
    BeforeOp(p.before, p.op, p.sp) + (Before(p.q) + NotsText(p.nots))
  }

  predicate PlaceOk(p: Place) {
    && (p.before.Some? ==> Ok(p.before.value, false)) && (p.before.Some? <==> p.op != First)
    && (p.q.Some? ==> SequenceOk(p.q.value, false))
    && (p.op == OpAnd && p.sp == 0 ==>
          if p.q.Some? then SequenceText(p.q.value) != [] && SequenceText(p.q.value)[0] != BANG else p.nots == [])
  }

  /** An atom that is not the empty one. */
  predicate StartsAtom(s: Word) {
    s != [] && s[0] != SPACE && s[0] != BANG && !NoAtom(s[0])
  }

  lemma FactorFails(nots: seq<nat>, s: Word)
    requires StartsAtom(s) && ParseAtom(s).Failed?
    ensures var t := NotsText(nots) + s;
      ParseFactor(t).Failed? && t != [] && Skip(t) == t && !IsMul(Peek(t)) && !EndsSequence(Peek(t))
  {
    hide ParseAtom;
    assert Skip(s) == s && Peek(s) == s[0];
    NotsBack(nots, s);
    if nots == [] {
      assert NotsText(nots) + s == s;
    } else {
      assert NotsText(nots) + s == [BANG] + (Spaces(nots[0]) + NotsText(nots[1..]) + s);
      Ahead(BANG, Spaces(nots[0]) + NotsText(nots[1..]) + s);
    }
  }

  lemma SequenceFails(q: Option<Sequence>, t: Word)
    requires ParseFactor(t).Failed? && t != [] && Skip(t) == t && !IsMul(Peek(t)) && !EndsSequence(Peek(t))
    requires q.Some? ==> SequenceOk(q.value, false)
    ensures var u := Before(q) + t; ParseOperand(u).Failed? && Skip(u) == u && u != []
  {
    hide ParseFactor, Skip, Peek;
    if q.Some? {
      SequenceBack(q.value, t);
      SequenceStarts(q.value, t);
    } else {
      assert Before(q) + t == t;
    }
  }

  /** An error in an atom is one of the text in which it stands. */
  lemma PlaceFails(p: Place, s: Word)
    requires PlaceOk(p) && StartsAtom(s) && ParseAtom(s).Failed?
    ensures ParseOperands(PlaceText(p) + s, None, First).Failed?
  {
    hide ParseAtom, ParseFactor, ParseOperand, Skip, Peek, Ok, SequenceOk, Text, ParseOperands, NextOperator;
    var t := NotsText(p.nots) + s;
    var u := Before(p.q) + t;
    FactorFails(p.nots, s);
    SequenceFails(p.q, t);
    assert PlaceText(p) + s == BeforeOp(p.before, p.op, p.sp) + u;
    if p.before.Some? {
      if p.op == OpAnd && p.sp == 0 { NoBang(p, s); }
      BeforeNext(p.before.value, p.op, p.sp, u);
      OperatorBack(p.op, p.sp, u);
      OperandsBack(p.before.value, OperatorText(p.op) + (Spaces(p.sp) + u));
      OperandFails(u, Some(Means(p.before.value)), p.op);
    } else {
      assert BeforeOp(p.before, p.op, p.sp) + u == u;
      OperandFails(u, None, First);
    }
  }

  lemma OperandFails(u: Word, acc: Option<Re>, op: Operator)
    requires ParseOperand(u).Failed?
    ensures ParseOperands(u, acc, op).Failed?
  {
    hide ParseOperand;
  }

  lemma NoBang(p: Place, s: Word)
    requires PlaceOk(p) && StartsAtom(s) && p.op == OpAnd && p.sp == 0
    ensures var t := Before(p.q) + (NotsText(p.nots) + s); t != [] && t[0] != BANG
  {
    if p.q.None? {
      assert Before(p.q) + (NotsText(p.nots) + s) == s;
    }
  }

  /** The text s, in front of which the places of `ps` stand, each one but the first behind an
      opening parenthesis. */
  function Opened(ps: seq<Place>, s: Word): Word {
    if ps == [] then s
    else Spaces(ps[0].lead) + (PlaceText(ps[0]) + if |ps| == 1 then s else [LPAR] + Opened(ps[1..], s))
  }

  lemma {:induction false} OpenedFails(ps: seq<Place>, s: Word)
    requires ps != [] && (forall i :: 0 <= i < |ps| ==> PlaceOk(ps[i])) && StartsAtom(s) && ParseAtom(s).Failed?
    ensures ParseRe(Opened(ps, s)).Failed?
    decreases |ps|
  {
    hide ParseAtom, ParseOperands, ParseRe, PlaceOk, PlaceText;
    if |ps| == 1 {
      PlaceFails(ps[0], s);
      SkipSpaces(ps[0].lead, PlaceText(ps[0]) + s);
    } else {
      var t := Opened(ps[1..], s);
      OpenedFails(ps[1..], s);
      GroupFails(t);
      PlaceFails(ps[0], [LPAR] + t);
      SkipSpaces(ps[0].lead, PlaceText(ps[0]) + ([LPAR] + t));
    }
  }

  lemma GroupFails(t: Word)
    requires ParseRe(t).Failed?
    ensures ParseAtom([LPAR] + t).Failed? && StartsAtom([LPAR] + t)
  {
    hide ParseRe;
    Ahead(LPAR, t);
  }

  /** The error in any text that contains such a range in a set at a place where an atom may stand. */
  lemma EscapedBracketFails(ps: seq<Place>, sp: nat, neg: Option<nat>, rs: seq<Range>, from: Letter, sp1: nat, sp2: nat,
                            to: Letter, rest: Word)
    requires ps != [] && forall i :: 0 <= i < |ps| ==> PlaceOk(ps[i])
    requires MayFollow(rs, from) && Meant(to) == RBRA && (to.Plain? ==> to.c == RBRA)
    requires neg == None ==> (if rs == [] then from else FirstLetter(rs[0])) != Plain(CARET)
    ensures ParseAll(Opened(ps, BadSetText(sp, neg, rs, BadRangeText(from, sp1, sp2, to, rest)))).Failed?
  {
    hide ParseAtom, ParseRe, PlaceOk, MayFollow, Opened;
    SetAtomFails(sp, neg, rs, from, sp1, sp2, to, rest);
    OpenedFails(ps, BadSetText(sp, neg, rs, BadRangeText(from, sp1, sp2, to, rest)));
  }
}
