/** The parser reads nothing but texts of the grammar. */
module RegexSound {
  import opened Graphs
  import opened Languages
  import opened RegexSyntax
  import opened RegexGrammar
  import opened RegexComplete

  lemma {:induction false} SkipForth(s: Word) returns (n: nat)
    ensures s == Spaces(n) + Skip(s)
    decreases |s|
  {
    if s != [] && s[0] == SPACE {
      var m := SkipForth(s[1..]);
      n := m + 1;
      assert s == [SPACE] + s[1..];
      assert Spaces(n) == [SPACE] + Spaces(m);
    } else {
      n := 0;
    }
  }

  lemma FirstOf(s: Word)
    requires s != [] && Skip(s) == s
    ensures s[0] != SPACE && Peek(s) == s[0] && After(s) == s[1..] && s == [s[0]] + s[1..]
  {
  }

  /** A character of a set, unless the text ends there. */
  lemma LetterForth(s: Word) returns (l: Letter)
    requires s != [] && Skip(s) == s && s[0] != RBRA
    ensures var rest := CharRest(Peek(s), After(s));
      && Meant(l) == CharAt(Peek(s), After(s)) && (rest != [] ==> InSet(l)) && s == LetterText(l) + rest
  {
    FirstOf(s);
    if s[0] == BSLASH && |s| > 1 {
      l := Escaped(s[1]);
      assert s == [BSLASH, s[1]] + s[2..];
    } else {
      l := Plain(s[0]);
    }
  }

  lemma ItemForth(s: Word) returns (r: Range)
    requires s != [] && Skip(s) == s && NextItem(s).0.Item? && Skip(NextItem(s).1) != []
    ensures RangeOk(r) && NextItem(s).0 == Item(Lower(r), Upper(r)) && s == RangeText(r) + Skip(NextItem(s).1)
    ensures r.One? ==> Peek(NextItem(s).1) != MINUS
  {
    hide Skip, Peek, After, CharAt, CharRest, LetterText;
    PeekFacts(s);
    var l := LetterForth(s);
    var s2 := CharRest(Peek(s), After(s));
    var n := SkipForth(s2);
    PeekFacts(s2);
    SkipTwice(s2);
    if Peek(s2) == MINUS {
      var s3 := After(s2);
      var n2 := SkipForth(s3);
      PeekFacts(s3);
      MinusForth(s3);
      SkippedPeek(s3);
      var to := LetterForth(Skip(s3));
      var s4 := CharRest(Peek(s3), After(s3));
      var n3 := SkipForth(s4);
      NotEmptyLater(s4);
      NotEmptyLater(s2);
      r := Span(l, n, n2, to, n3);
      assert s == LetterText(l) + (Spaces(n) + ([MINUS] + (Spaces(n2) + (LetterText(to) + (Spaces(n3) + Skip(s4))))));
      assert s == RangeText(r) + Skip(s4);
    } else {
      NotEmptyLater(s2);
      r := One(l, n);
      Assoc(LetterText(l), Spaces(n), Skip(s2));
      SkippedPeek(s2);
    }
  }

  lemma PeekFacts(s: Word)
    ensures Skip(s) == [] <==> Peek(s) == SPACE
    ensures Skip(s) != [] ==> Peek(s) == Skip(s)[0] && Skip(s) == [Peek(s)] + After(s)
    ensures Skip(s) == [] ==> After(s) == []
  {
  }

  lemma SkippedPeek(s: Word)
    ensures Peek(Skip(s)) == Peek(s) && After(Skip(s)) == After(s) && Skip(Skip(s)) == Skip(s)
  {
    SkipTwice(s);
  }

  lemma NotEmptyLater(s: Word)
    ensures Skip(s) != [] ==> s != []
  {
  }

  /** Behind '-' the text does not end if something follows the range. */
  lemma MinusForth(s: Word)
    requires CharAt(Peek(s), After(s)) != RBRA && Skip(CharRest(Peek(s), After(s))) != []
    ensures Skip(s) != [] && Skip(s)[0] != RBRA
  {
  }

  lemma {:induction false} SetForth(s: Word, from: seq<Char32>, to: seq<Char32>) returns (rs: seq<Range>)
    requires Skip(s) == s && |from| == |to| && ParseSet(s, from, to).ParsedSet?
    ensures var p := ParseSet(s, from, to);
      && RangesOk(rs) && s == RangesText(rs) + ([RBRA] + p.rest)
      && p.from == from + Lowers(rs) && p.to == to + Uppers(rs)
    decreases |s|
  {
    hide Skip, Peek, After, NextItem, RangeText, RangeOk;
    var (item, rest) := NextItem(s);
    match item
    case Closing =>
      rs := [];
      ClosingForth(s);
      assert from + Lowers([]) == from && to + Uppers([]) == to;
    case Item(c, d) =>
      SetSkip(rest, from + [c], to + [d]);
      SetNotEmpty(Skip(rest), from + [c], to + [d]);
      ItemNotEmpty(s);
      SkippedPeek(rest);
      var r := ItemForth(s);
      SkipShorter(rest);
      var rs1 := SetForth(Skip(rest), from + [c], to + [d]);
      rs := [r] + rs1;
      var p := ParseSet(s, from, to);
      RangesStart(rs1, p.rest);
      RangesMore(r, rs1);
      assert rs[1..] == rs1;
      Assoc(RangeText(r), RangesText(rs1), [RBRA] + p.rest);
      assert from + [c] + Lowers(rs1) == from + Lowers(rs);
      assert to + [d] + Uppers(rs1) == to + Uppers(rs);
  }

  lemma RangesMore(r: Range, rs: seq<Range>)
    requires RangeOk(r) && RangesOk(rs) && (r.One? && rs != [] ==> FirstLetter(rs[0]) != Plain(MINUS))
    ensures RangesOk([r] + rs)
  {
    hide RangeOk;
    var all := [r] + rs;
    forall i | 0 <= i < |all|
      ensures RangeOk(all[i]) && (all[i].One? && i + 1 < |all| ==> FirstLetter(all[i + 1]) != Plain(MINUS))
    {
      if i > 0 { assert all[i] == rs[i - 1]; }
    }
  }

  lemma SkipShorter(s: Word)
    ensures |Skip(s)| <= |s|
  {
  }

  lemma ClosingForth(s: Word)
    requires Skip(s) == s && NextItem(s).0 == Closing
    ensures s == [] + ([RBRA] + NextItem(s).1)
  {
    FirstOf(s);
  }

  lemma SetNotEmpty(s: Word, from: seq<Char32>, to: seq<Char32>)
    requires |from| == |to| && ParseSet(s, from, to).ParsedSet?
    ensures s != []
  {
  }

  lemma ItemNotEmpty(s: Word)
    requires NextItem(s).0.Item?
    ensures s != []
  {
  }

  lemma BracketsForth(s: Word) returns (sp: nat, neg: Option<nat>, rs: seq<Range>)
    requires ParseBrackets(s).Parsed?
    ensures var p := ParseBrackets(s);
      && SetOk(neg, rs) && AtomMeans(Set(sp, neg, rs)) == p.e
      && s == Spaces(sp) + (NegText(neg) + (RangesText(rs) + ([RBRA] + p.rest)))
  {
    hide Skip, Peek, After, ParseSet, RangesText;
    sp := SkipForth(s);
    PeekFacts(s);
    SkippedPeek(s);
    var p := ParseBrackets(s);
    if Peek(s) == CARET {
      var t := After(s);
      SetSkip(t, [], []);
      SkippedPeek(t);
      rs := SetForth(Skip(t), [], []);
      var n := SkipForth(t);
      neg := Some(n);
      Assoc([CARET], Spaces(n), Skip(t));
    } else {
      neg := None;
      rs := SetForth(Skip(s), [], []);
      RangesStart(rs, p.rest);
      assert NegText(None) + Skip(s) == Skip(s);
    }
    assert [] + Lowers(rs) == Lowers(rs) && [] + Uppers(rs) == Uppers(rs);
  }

  lemma {:induction false} AtomForth(s: Word) returns (a: Atom)
    requires s != [] && Skip(s) == s && s[0] != BANG && !NoAtom(s[0]) && ParseAtom(s).Parsed?
    ensures var p := ParseAtom(s); AtomOk(a, p.rest == []) && AtomMeans(a) == p.e && s == AtomText(a) + p.rest
    decreases |s|, 0
  {
    hide Skip, Peek, After, ParseRe, ParseBrackets, RangesText, SetOk;
    FirstOf(s);
    var next, s1 := Peek(s), After(s);
    if next == LPAR {
      var p := ParseRe(s1);
      var sp, re := ReForth(s1);
      PeekFacts(p.rest);
      a := Group(sp, re);
      assert s == [LPAR] + (Spaces(sp) + (Text(re) + ([RPAR] + After(p.rest))));
      assert s == AtomText(a) + After(p.rest);
    } else if next == LBRA {
      var sp, neg, rs := BracketsForth(s1);
      a := Set(sp, neg, rs);
      var rest := ParseBrackets(s1).rest;
      assert s == AtomText(a) + rest;
    } else if next == DOT {
      a := Dot;
    } else {
      var l := SingleForth(s);
      a := Single(l);
    }
  }

  lemma SingleForth(s: Word) returns (l: Letter)
    requires s != [] && Skip(s) == s && s[0] != BANG && !NoAtom(s[0]) && s[0] != LPAR && s[0] != LBRA && s[0] != DOT
    ensures var rest := CharRest(Peek(s), After(s));
      && Meant(l) == CharAt(Peek(s), After(s)) && LetterOk(l, rest == []) && s == LetterText(l) + rest
  {
    FirstOf(s);
    if s[0] == BSLASH && |s| > 1 {
      l := Escaped(s[1]);
      assert s == [BSLASH, s[1]] + s[2..];
    } else {
      l := Plain(s[0]);
    }
  }

  /** What stands in parentheses, or the whole text. */
  lemma {:induction false} ReForth(s: Word) returns (sp: nat, re: Operands)
    requires ParseRe(s).Parsed?
    ensures var p := ParseRe(s);
      Ok(re, p.rest == []) && Means(re) == p.e && s == Spaces(sp) + (Text(re) + p.rest) && Skip(p.rest) == p.rest
    decreases |s|, 5
  {
    sp := SkipForth(s);
    SkipShorter(s);
    ReSkip(s);
    SkippedPeek(s);
    re := OperandsForth(Skip(s), None, First, 0);
    assert BeforeOp(None, First, 0) + Skip(s) == Skip(s);
  }

  lemma {:induction false} NotsForth(s: Word) returns (nots: seq<nat>)
    requires Skip(s) == s
    ensures Nots(s).0 == (|nots| % 2 == 1) && s == NotsText(nots) + Nots(s).1
    decreases |s|
  {
    hide Skip, Peek, After;
    PeekFacts(s);
    if Peek(s) == BANG {
      var s1 := After(s);
      var n := SkipForth(s1);
      NotsSkip(s1);
      SkippedPeek(s1);
      SkipShorter(s1);
      var nots1 := NotsForth(Skip(s1));
      nots := [n] + nots1;
      assert nots[1..] == nots1;
      assert s == [BANG] + (Spaces(n) + (NotsText(nots1) + Nots(s).1));
    } else {
      nots := [];
    }
  }

  lemma MulForth(s: Word) returns (sp: nat, m: Mul)
    ensures var next := Peek(s);
      var rest := Skip(if next == STAR || next == PLUS || next == QUEST then After(s) else s);
      && s == Spaces(sp) + (MulText(m) + rest)
      && (if m.Mul? then IsMul(m.c) && m.c == next else !IsMul(next) && !IsMul(Peek(rest)))
      && (s == [] <==> sp == 0 && m == NoMul && rest == [])
  {
    sp := SkipForth(s);
    PeekFacts(s);
    if IsMul(Peek(s)) {
      var n := SkipForth(After(s));
      m := Mul(Peek(s), n);
      Assoc([Peek(s)], Spaces(n), Skip(After(s)));
    } else {
      m := NoMul;
      SkippedPeek(s);
    }
  }

  lemma OkBefore(a: Atom)
    requires AtomOk(a, false)
    ensures AtomOk(a, true)
  {
  }

  lemma MulMeans(e: Re, next: Char32, m: Mul)
    requires if m.Mul? then IsMul(m.c) && m.c == next else !IsMul(next)
    ensures RegexSyntax.Repeated(e, next) == RegexSyntax.Repeated(e, if m.Mul? then m.c else SPACE)
  {
  }

  lemma {:induction false} FactorForth(s: Word) returns (f: Factor)
    requires s != [] && Skip(s) == s && ParseFactor(s).Parsed?
    ensures var p := ParseFactor(s);
      && FactorOk(f, p.rest == []) && FactorMeans(f) == p.e && s == FactorText(f) + p.rest
    decreases |s|, 1
  {
    hide Skip, Peek, After, ParseAtom, AtomText, AtomOk, AtomMeans, NotsText, MulText, RegexSyntax.Repeated;
    var s1 := Nots(s).1;
    var nots := NotsForth(s);
    PeekFacts(s1);
    if s1 == [] {
      Nothing2();
      NoneNeeded(s, nots);
      f := Dangling(nots);
      NothingRepeated();
    } else {
      var pa := ParseAtom(s1);
      var a := AtomForth(s1);
      var sp, m := MulForth(pa.rest);
      var p := ParseFactor(s);
      if pa.rest != [] && p.rest == [] && sp == 0 && m == NoMul { OkBefore(a); }
      if pa.rest != [] { AtomAny(a); }
      MulMeans(pa.e, Peek(pa.rest), m);
      f := Factor(nots, a, sp, m);
      assert s == NotsText(nots) + (AtomText(a) + (Spaces(sp) + (MulText(m) + p.rest)));
      assert s == FactorText(f) + p.rest;
    }
  }

  lemma AtomAny(a: Atom)
    requires AtomOk(a, false)
    ensures forall last :: AtomOk(a, last)
  {
    OkBefore(a);
  }

  lemma NothingRepeated()
    ensures RegexSyntax.Repeated(Nothing, SPACE) == Nothing
  {
  }

  lemma NoneNeeded(s: Word, nots: seq<nat>)
    requires s != [] && s == NotsText(nots) + []
    ensures nots != []
  {
  }

  /** The text read so far. */
  function Before(q0: Option<Sequence>): Word {
    if q0.Some? then SequenceText(q0.value) else []
  }

  lemma {:induction false} SequenceForth(s: Word, acc: Option<Re>, q0: Option<Sequence>) returns (q: Sequence)
    requires s != [] && Skip(s) == s && ParseSequence(s, acc).Parsed?
    requires acc.Some? <==> q0.Some?
    requires q0.Some? ==> acc.value == SequenceMeans(q0.value) && SequenceOk(q0.value, false)
    ensures var p := ParseSequence(s, acc);
      && SequenceOk(q, p.rest == []) && SequenceMeans(q) == p.e && Before(q0) + s == SequenceText(q) + p.rest
    decreases |s|, 2
  {
    hide Skip, Peek, ParseFactor, FactorText, FactorOk, FactorMeans;
    var p := ParseFactor(s);
    var f := FactorForth(s);
    var q1 := if q0.Some? then More(q0.value, f) else Once(f);
    assert Before(q0) + s == SequenceText(q1) + p.rest by {
      if q0.Some? { Assoc(SequenceText(q0.value), FactorText(f), p.rest); }
    }
    if EndsSequence(Peek(p.rest)) {
      q := q1;
    } else {
      PeekFacts(p.rest);
      q := SequenceForth(p.rest, Some(InSequence(acc, p.e)), Some(q1));
    }
  }

  lemma {:induction false} OperandForth(s: Word) returns (o: Operand)
    requires Skip(s) == s && ParseOperand(s).Parsed?
    ensures var p := ParseOperand(s);
      OperandOk(o, p.rest == []) && OperandMeans(o) == p.e && s == OperandText(o) + p.rest
    decreases |s|, 3
  {
    hide Skip, Peek, ParseSequence, SequenceText, SequenceOk;
    PeekFacts(s);
    if s == [] {
      NothingLeft();
      o := Empty;
    } else if Peek(s) == BAR || Peek(s) == AMP || Peek(s) == RPAR {
      o := Empty;
    } else {
      var q := SequenceForth(s, None, None);
      o := Factors(q);
    }
  }

  lemma OperatorForth(s: Word) returns (sp: nat)
    requires Skip(s) == s && NextOperator(s).0 != First
    ensures var (op, rest) := NextOperator(s);
      && s == OperatorText(op) + (Spaces(sp) + rest) && Skip(rest) == rest && s != []
      && (op == OpAnd && sp == 0 ==> rest == [] || rest[0] != BANG)
  {
    FirstOf(s);
    var s1 := s[1..];
    if s[0] == AMP && s1 != [] && s1[0] == BANG {
      sp := SkipForth(s1[1..]);
      SkippedPeek(s1[1..]);
      assert s == [AMP, BANG] + s1[1..];
    } else {
      sp := SkipForth(s1);
      SkippedPeek(s1);
    }
  }

  /** The operands and the operator read so far. */
  function BeforeOp(re0: Option<Operands>, op: Operator, sp: nat): Word {
    if re0.Some? then Text(re0.value) + (OperatorText(op) + Spaces(sp)) else []
  }

  lemma {:induction false} OperandsForth(s: Word, re0: Option<Operands>, op: Operator, sp: nat) returns (re: Operands)
    requires Skip(s) == s && (re0.Some? ==> Ok(re0.value, false)) && (re0.Some? <==> op != First)
    requires op == OpAnd && sp == 0 ==> s == [] || s[0] != BANG
    requires ParseOperands(s, if re0.Some? then Some(Means(re0.value)) else None, op).Parsed?
    ensures var p := ParseOperands(s, if re0.Some? then Some(Means(re0.value)) else None, op);
      && Ok(re, p.rest == []) && Means(re) == p.e && Skip(p.rest) == p.rest
      && BeforeOp(re0, op, sp) + s == Text(re) + p.rest
    decreases |s|, 4
  {
    hide Skip, Peek, ParseOperand, OperandText, OperandOk, OperandMeans, NextOperator, ParseOperands, Ok, Means, Text,
      BeforeOp;
    var acc := if re0.Some? then Some(Means(re0.value)) else None;
    var p := ParseOperand(s);
    OperandsStep2(s, acc, op);
    var o := OperandForth(s);
    var (next, s2) := NextOperator(p.rest);
    var re1 := OneMore(re0, op, sp, o);
    MoreOk(re0, op, sp, o, p.rest, s);
    if next == First {
      re := re1;
    } else {
      var n := OperatorForth(p.rest);
      re := OperandsForth(s2, Some(re1), next, n);
      BeforeNext(re1, next, n, s2);
    }
  }

  function OneMore(re0: Option<Operands>, op: Operator, sp: nat, o: Operand): Operands {
    if re0.Some? then Next(re0.value, op, sp, o) else Just(o)
  }

  lemma MoreOk(re0: Option<Operands>, op: Operator, sp: nat, o: Operand, rest: Word, s: Word)
    requires s == OperandText(o) + rest && OperandOk(o, rest == [])
    requires (re0.Some? ==> Ok(re0.value, false)) && (re0.Some? <==> op != First)
    requires op == OpAnd && sp == 0 ==> s == [] || s[0] != BANG
    ensures var re := OneMore(re0, op, sp, o);
      && Ok(re, rest == []) && BeforeOp(re0, op, sp) + s == Text(re) + rest
      && Means(re) == Combined(if re0.Some? then Some(Means(re0.value)) else None, op, OperandMeans(o))
  {
    hide OperandText, OperandOk, OperandMeans;
    StartsWith(OperandText(o), rest, s);
    if re0.Some? {
      var a, b, c, d := Text(re0.value), OperatorText(op), Spaces(sp), OperandText(o);
      assert (a + (b + c)) + (d + rest) == (a + (b + (c + d))) + rest;
    }
  }

  lemma BeforeNext(re: Operands, op: Operator, sp: nat, s: Word)
    ensures BeforeOp(Some(re), op, sp) + s == Text(re) + (OperatorText(op) + (Spaces(sp) + s))
  {
    var a, b, c := Text(re), OperatorText(op), Spaces(sp);
    assert (a + (b + c)) + s == a + (b + (c + s));
  }

  lemma StartsWith(a: Word, b: Word, s: Word)
    requires s == a + b
    ensures a != [] ==> s != [] && s[0] == a[0]
  {
  }

  lemma OperandsStep2(s: Word, acc: Option<Re>, op: Operator)
    requires ParseOperands(s, acc, op).Parsed?
    ensures var p := ParseOperand(s);
      && p.Parsed? && Skip(p.rest) == p.rest && |p.rest| <= |s|
      && var (next, s2) := NextOperator(p.rest);
         && (next != First ==> |s2| < |s|)
         && ParseOperands(s, acc, op) ==
            if next == First then Parsed(Combined(acc, op, p.e), p.rest)
            else ParseOperands(s2, Some(Combined(acc, op, p.e)), next)
  {
    hide Skip, Peek, ParseOperand, NextOperator;
  }

  /** What is read is a text of the grammar, and stands for the result. */
  lemma Sound(s: Word)
    requires ParseAll(s).Parsed?
    ensures Derives(s, ParseAll(s).e)
  {
    hide Text, Means, Ok, ParseRe;
    var sp, re := ReForth(s);
    PeekFacts(ParseRe(s).rest);
    assert Text(re) + [] == Text(re);
  }

  /** The parser accepts exactly the texts of the grammar, with exactly their meaning. */
  lemma ParsesGrammar(s: Word, e: Re)
    ensures ParseAll(s) == Parsed(e, []) <==> Derives(s, e)
  {
    hide ParseAll, Derives;
    if ParseAll(s) == Parsed(e, []) { Sound(s); }
    if Derives(s, e) { Complete(s, e); }
  }
}
