/** The parser reads every text of the grammar, and gives it its meaning. */
module RegexComplete {
  import opened Graphs
  import opened RegexSyntax
  import opened RegexGrammar

  lemma {:induction false} SpacesAhead(n: nat, s: Word)
    ensures Skip(Spaces(n) + s) == Skip(s) && Peek(Spaces(n) + s) == Peek(s) && After(Spaces(n) + s) == After(s)
    decreases n
  {
    if n == 0 {
      assert Spaces(0) + s == s;
    } else {
      SpacesAhead(n - 1, s);
      assert (Spaces(n) + s)[1..] == Spaces(n - 1) + s;
    }
  }

  lemma Assoc(a: Word, b: Word, c: Word)
    ensures (a + b) + c == a + (b + c)
  {
  }

  /** A character at the front of the input. */
  lemma Ahead(c: Char32, s: Word)
    requires c != SPACE
    ensures Skip([c] + s) == [c] + s && Peek([c] + s) == c && After([c] + s) == s
  {
    assert ([c] + s)[1..] == s;
  }

  /** A character of a set. */
  lemma SetLetter(l: Letter, s: Word)
    requires InSet(l)
    ensures var t := LetterText(l) + s;
      && Skip(t) == t && Peek(t) != SPACE && Peek(t) != RBRA
      && CharAt(Peek(t), After(t)) == Meant(l) && CharRest(Peek(t), After(t)) == s
      && (Peek(t) == MINUS <==> l == Plain(MINUS)) && (Peek(t) == CARET <==> l == Plain(CARET))
  {
    match l
    case Plain(c) => Ahead(c, s);
    case Escaped(c) =>
      assert LetterText(l) + s == [BSLASH] + ([c] + s);
      Ahead(BSLASH, [c] + s);
      assert ([c] + s)[1..] == s;
  }

  lemma RangeBack(r: Range, s: Word)
    requires RangeOk(r) && (r.One? ==> Peek(s) != MINUS)
    ensures var t := RangeText(r) + s;
      NextItem(t).0 == Item(Lower(r), Upper(r)) && Skip(NextItem(t).1) == Skip(s) && |NextItem(t).1| < |t|
  {
    hide Skip, Peek, After, LetterText, CharAt, CharRest, Meant;
    match r
    case One(l, sp) =>
      Assoc(LetterText(l), Spaces(sp), s);
      SetLetter(l, Spaces(sp) + s);
      SpacesAhead(sp, s);
      SkipTwice(s);
    case Span(from, sp1, sp2, to, sp) =>
      var t3 := LetterText(to) + (Spaces(sp) + s);
      var t2 := [MINUS] + (Spaces(sp2) + t3);
      var t1 := Spaces(sp1) + t2;
      assert RangeText(r) + s == LetterText(from) + t1;
      SetLetter(from, t1);
      SpacesAhead(sp1, t2);
      Ahead(MINUS, Spaces(sp2) + t3);
      SpacesAhead(sp2, t3);
      SetLetter(to, Spaces(sp) + s);
      SpacesAhead(sp, s);
  }

  lemma ItemSkip(s: Word)
    ensures NextItem(Skip(s)) == NextItem(s)
  {
    SkipTwice(s);
    assert Peek(Skip(s)) == Peek(s) && After(Skip(s)) == After(s);
    hide Skip, Peek, After;
  }

  lemma SetSkip(s: Word, from: seq<Char32>, to: seq<Char32>)
    requires |from| == |to|
    ensures ParseSet(Skip(s), from, to) == ParseSet(s, from, to)
  {
    ItemSkip(s);
    hide Skip, NextItem;
  }

  lemma FirstText(r: Range, s: Word) returns (tail: Word)
    ensures RangeText(r) + s == LetterText(FirstLetter(r)) + tail
  {
    hide LetterText, Spaces;
    match r
    case One(l, sp) =>
      tail := Spaces(sp) + s;
      Assoc(LetterText(l), Spaces(sp), s);
    case Span(from, sp1, sp2, to, sp) =>
      var more := Spaces(sp1) + ([MINUS] + (Spaces(sp2) + (LetterText(to) + Spaces(sp))));
      tail := more + s;
      Assoc(LetterText(from), more, s);
  }

  lemma RangesStart(rs: seq<Range>, s: Word)
    requires RangesOk(rs)
    ensures var t := RangesText(rs) + ([RBRA] + s);
      && Skip(t) == t && (Peek(t) == MINUS <==> rs != [] && FirstLetter(rs[0]) == Plain(MINUS))
      && (Peek(t) == CARET <==> rs != [] && FirstLetter(rs[0]) == Plain(CARET))
  {
    hide Skip, Peek, After, CharAt, CharRest, InSet, Meant;
    var end := [RBRA] + s;
    if rs == [] {
      assert RangesText(rs) + end == end;
      Ahead(RBRA, s);
    } else {
      Assoc(RangeText(rs[0]), RangesText(rs[1..]), end);
      var tail := FirstText(rs[0], RangesText(rs[1..]) + end);
      SetLetter(FirstLetter(rs[0]), tail);
    }
  }

  lemma {:induction false} SetBack(rs: seq<Range>, s: Word, from: seq<Char32>, to: seq<Char32>)
    requires RangesOk(rs) && |from| == |to|
    ensures ParseSet(RangesText(rs) + ([RBRA] + s), from, to) == ParsedSet(from + Lowers(rs), to + Uppers(rs), s)
    decreases |rs|
  {
    hide Skip, Peek, After, RangeText, LetterText, NextItem;
    var end := [RBRA] + s;
    if rs == [] {
      assert RangesText(rs) + end == end;
      ClosingBack(s);
      assert from + Lowers(rs) == from && to + Uppers(rs) == to;
    } else {
      var r, rest := rs[0], rs[1..];
      var t := RangesText(rest) + end;
      Assoc(RangeText(r), RangesText(rest), end);
      RangesStart(rest, s);
      RangeBack(r, t);
      SetSkip(NextItem(RangeText(r) + t).1, from + [Lower(r)], to + [Upper(r)]);
      SetSkip(t, from + [Lower(r)], to + [Upper(r)]);
      SetBack(rest, s, from + [Lower(r)], to + [Upper(r)]);
      assert from + [Lower(r)] + Lowers(rest) == from + Lowers(rs);
      assert to + [Upper(r)] + Uppers(rest) == to + Uppers(rs);
    }
  }

  lemma ClosingBack(s: Word)
    ensures NextItem([RBRA] + s) == (Closing, s)
  {
    Ahead(RBRA, s);
  }

  lemma BracketsBack(sp: nat, neg: Option<nat>, rs: seq<Range>, s: Word)
    requires SetOk(neg, rs)
    ensures ParseBrackets(Spaces(sp) + (NegText(neg) + (RangesText(rs) + ([RBRA] + s)))) ==
      Parsed(AtomMeans(Set(sp, neg, rs)), s)
  {
    hide Skip, Peek, After, RangesText, ParseSet, Spaces;
    var t2 := RangesText(rs) + ([RBRA] + s);
    var t1 := NegText(neg) + t2;
    SpacesAhead(sp, t1);
    RangesStart(rs, s);
    SetBack(rs, s, [], []);
    assert [] + Lowers(rs) == Lowers(rs) && [] + Uppers(rs) == Uppers(rs);
    match neg
    case None =>
      assert t1 == t2;
      SetSkip(Spaces(sp) + t2, [], []);
      SetSkip(t2, [], []);
    case Some(n) =>
      Assoc([CARET], Spaces(n), t2);
      Ahead(CARET, Spaces(n) + t2);
      SpacesAhead(n, t2);
      SetSkip(Spaces(n) + t2, [], []);
      SetSkip(t2, [], []);
  }

  /** What an atom starts with. */
  lemma AtomStarts(a: Atom, s: Word)
    requires AtomOk(a, s == [])
    ensures var t := AtomText(a) + s;
      t != [] && Skip(t) == t && Peek(t) == t[0] && t[0] != SPACE && t[0] != BANG && !NoAtom(t[0])
  {
  }

  lemma LetterBack(l: Letter, s: Word)
    requires LetterOk(l, s == [])
    ensures ParseAtom(LetterText(l) + s) == Parsed(Chars([Meant(l)], [Meant(l)]), s)
  {
    match l
    case Plain(c) => Ahead(c, s);
    case Escaped(c) =>
      assert LetterText(l) + s == [BSLASH] + ([c] + s);
      Ahead(BSLASH, [c] + s);
      assert ([c] + s)[1..] == s;
  }

  lemma {:induction false} AtomBack(a: Atom, s: Word)
    requires AtomOk(a, s == [])
    ensures ParseAtom(AtomText(a) + s) == Parsed(AtomMeans(a), s)
    decreases a
  {
    hide Skip, Peek, After, ParseRe, ParseBrackets, Text, RangesText, NegText;
    match a
    case Group(sp, re) =>
      var t2 := Text(re) + ([RPAR] + s);
      var t1 := Spaces(sp) + t2;
      assert AtomText(a) + s == [LPAR] + t1;
      Ahead(LPAR, t1);
      SkipSpaces(sp, t2);
      Ahead(RPAR, s);
      OperandsBack(re, [RPAR] + s);
      ClosedBack(s);
    case Single(l) => LetterBack(l, s);
    case Dot => Ahead(DOT, s);
    case Set(sp, neg, rs) =>
      var t1 := Spaces(sp) + (NegText(neg) + (RangesText(rs) + ([RBRA] + s)));
      assert AtomText(a) + s == [LBRA] + t1;
      Ahead(LBRA, t1);
      BracketsBack(sp, neg, rs, s);
  }

  lemma SkipSpaces(sp: nat, s: Word)
    ensures ParseRe(Spaces(sp) + s) == ParseOperands(s, None, First)
  {
    SpacesAhead(sp, s);
    ReSkip(Spaces(sp) + s);
    ReSkip(s);
  }

  lemma ClosedBack(s: Word)
    ensures NextOperator([RPAR] + s) == (First, [RPAR] + s) && EndsSequence(RPAR)
  {
    Ahead(RPAR, s);
  }

  lemma {:induction false} NotsBack(nots: seq<nat>, s: Word)
    requires Skip(s) == s && Peek(s) != BANG
    ensures Nots(NotsText(nots) + s) == (|nots| % 2 == 1, s)
    decreases |nots|
  {
    hide Skip, Peek, After;
    if nots == [] {
      assert NotsText(nots) + s == s;
    } else {
      var t2 := NotsText(nots[1..]) + s;
      var t1 := Spaces(nots[0]) + t2;
      assert NotsText(nots) + s == [BANG] + t1;
      Ahead(BANG, t1);
      SpacesAhead(nots[0], t2);
      NotsBack(nots[1..], s);
      NotsSkip(t1);
      NotsSkip(t2);
    }
  }

  lemma MulBack(m: Mul, s: Word)
    requires Skip(s) == s && (if m.Mul? then IsMul(m.c) else !IsMul(Peek(s)))
    ensures var t := MulText(m) + s;
      && Skip(t) == t && (IsMul(Peek(t)) <==> m.Mul?) && (m.Mul? ==> Peek(t) == m.c)
      && Skip(if IsMul(Peek(t)) then After(t) else t) == s
  {
    match m
    case NoMul => assert MulText(m) + s == s;
    case Mul(c, sp) =>
      assert MulText(m) + s == [c] + (Spaces(sp) + s);
      Ahead(c, Spaces(sp) + s);
      SpacesAhead(sp, s);
  }

  lemma {:induction false} FactorBack(f: Factor, s: Word)
    requires Skip(s) == s && FactorOk(f, s == []) && (f.Factor? && f.mul == NoMul ==> !IsMul(Peek(s)))
    ensures ParseFactor(FactorText(f) + s) == Parsed(FactorMeans(f), s)
    decreases f
  {
    hide Skip, Peek, After, ParseAtom, AtomText, NotsText, Nots, AtomOk, AtomMeans;
    match f
    case Factor(nots, a, sp, m) =>
      var t3 := MulText(m) + s;
      var t2 := Spaces(sp) + t3;
      var t1 := AtomText(a) + t2;
      assert FactorText(f) + s == NotsText(nots) + t1;
      LastAtom(a, sp, m, s);
      AtomStarts(a, t2);
      NotsBack(nots, t1);
      AtomBack(a, t2);
      SpacesAhead(sp, t3);
      MulBack(m, s);
      MulAhead(AtomMeans(a), t2, m, s);
    case Dangling(nots) =>
      Nothing2();
      NotsBack(nots, []);
  }

  /** Whether anything follows the atom. */
  lemma LastAtom(a: Atom, sp: nat, m: Mul, s: Word)
    requires AtomOk(a, s == [] && sp == 0 && m == NoMul)
    ensures AtomOk(a, Spaces(sp) + (MulText(m) + s) == [])
  {
    var t := Spaces(sp) + (MulText(m) + s);
    assert |t| == sp + |MulText(m)| + |s|;
  }

  lemma MulAhead(e: Re, t: Word, m: Mul, s: Word)
    requires Peek(t) == Peek(MulText(m) + s) && After(t) == After(MulText(m) + s) && Skip(t) == Skip(MulText(m) + s)
    requires var u := MulText(m) + s;
      && Skip(u) == u && (IsMul(Peek(u)) <==> m.Mul?) && (m.Mul? ==> Peek(u) == m.c)
      && Skip(if IsMul(Peek(u)) then After(u) else u) == s
    ensures RegexSyntax.Repeated(e, Peek(t)) == RegexSyntax.Repeated(e, if m.Mul? then m.c else SPACE)
    ensures Skip(if Peek(t) == STAR || Peek(t) == PLUS || Peek(t) == QUEST then After(t) else t) == s
  {
  }

  lemma Nothing2()
    ensures Skip([]) == [] && Peek([]) == SPACE && After([]) == [] && ParseAtom([]) == Parsed(Nothing, [])
  {
  }

  /** What a factor starts with. */
  lemma FactorStarts(f: Factor, s: Word)
    requires FactorOk(f, s == [])
    ensures FactorText(f) != []
    ensures var t := FactorText(f) + s; Skip(t) == t && Peek(t) != SPACE && !IsMul(Peek(t)) && !EndsSequence(Peek(t))
  {
    hide AtomText, AtomOk;
    match f
    case Factor(nots, a, sp, m) =>
      var t2 := Spaces(sp) + (MulText(m) + s);
      assert FactorText(f) + s == NotsText(nots) + (AtomText(a) + t2);
      LastAtom(a, sp, m, s);
      AtomStarts(a, t2);
      AtomNotEmpty(a);
      if nots != [] {
        Ahead(BANG, Spaces(nots[0]) + NotsText(nots[1..]) + (AtomText(a) + t2));
      } else {
        assert FactorText(f) + s == AtomText(a) + t2;
      }
    case Dangling(nots) =>
      assert FactorText(f) + s == [BANG] + (Spaces(nots[0]) + NotsText(nots[1..]) + s);
      Ahead(BANG, Spaces(nots[0]) + NotsText(nots[1..]) + s);
  }

  lemma AtomNotEmpty(a: Atom)
    ensures AtomText(a) != []
  {
  }

  lemma {:induction false} SequenceBack(q: Sequence, s: Word)
    requires Skip(s) == s && SequenceOk(q, s == []) && !IsMul(Peek(s))
    ensures ParseSequence(SequenceText(q) + s, None) ==
      if EndsSequence(Peek(s)) then Parsed(SequenceMeans(q), s) else ParseSequence(s, Some(SequenceMeans(q)))
    decreases q
  {
    hide Skip, Peek, After, ParseFactor, FactorText, FactorOk, FactorMeans;
    match q
    case Once(f) => FactorBack(f, s);
    case More(q1, f) =>
      var t := FactorText(f) + s;
      Assoc(SequenceText(q1), FactorText(f), s);
      FactorStarts(f, s);
      SequenceBack(q1, t);
      FactorBack(f, s);
  }

  /** What a sequence starts with. */
  lemma {:induction false} SequenceStarts(q: Sequence, s: Word)
    requires SequenceOk(q, s == [])
    ensures SequenceText(q) != []
    ensures var t := SequenceText(q) + s; Skip(t) == t && Peek(t) != SPACE && !EndsSequence(Peek(t))
    decreases q
  {
    hide Skip, Peek, FactorText, FactorOk;
    match q
    case Once(f) => FactorStarts(f, s);
    case More(q1, f) =>
      FactorStarts(f, s);
      Assoc(SequenceText(q1), FactorText(f), s);
      SequenceStarts(q1, FactorText(f) + s);
  }

  lemma {:induction false} OperandBack(o: Operand, s: Word)
    requires Skip(s) == s && EndsSequence(Peek(s)) && OperandOk(o, s == [])
    ensures ParseOperand(OperandText(o) + s) == Parsed(OperandMeans(o), s)
    decreases o
  {
    match o
    case Empty =>
      assert OperandText(o) + s == s;
      if s == [] { NothingLeft(); }
    case Factors(q) =>
      hide Skip, Peek, ParseSequence, SequenceText, SequenceOk;
      SequenceStarts(q, s);
      SequenceBack(q, s);
  }

  lemma NothingLeft()
    ensures ParseOperand([]) == Parsed(Nothing, [])
  {
    assert Nots([]) == (false, []);
    assert ParseFactor([]) == Parsed(Nothing, []);
    assert ParseSequence([], None) == Parsed(Nothing, []);
  }

  /** What an operand starts with. */
  lemma OperandStarts(o: Operand, s: Word)
    requires Skip(s) == s && OperandOk(o, s == [])
    ensures Skip(OperandText(o) + s) == OperandText(o) + s
  {
    match o
    case Empty => assert OperandText(o) + s == s;
    case Factors(q) => SequenceStarts(q, s);
  }

  /** An operator and what follows. */
  lemma OperatorBack(op: Operator, sp: nat, t: Word)
    requires op != First && Skip(t) == t && (op == OpAnd && sp == 0 ==> t == [] || t[0] != BANG)
    ensures var u := OperatorText(op) + (Spaces(sp) + t);
      NextOperator(u) == (op, t) && Skip(u) == u && EndsSequence(Peek(u)) && !IsMul(Peek(u)) && u != []
  {
    hide Skip, Peek, After, Spaces;
    var v := Spaces(sp) + t;
    SpacesAhead(sp, t);
    match op
    case OpOr => Ahead(BAR, v);
    case OpAnd =>
      Ahead(AMP, v);
      NoBangAhead(sp, t);
    case OpAndNot =>
      Assoc([AMP], [BANG], v);
      assert OperatorText(op) == [AMP] + [BANG];
      Ahead(AMP, [BANG] + v);
      assert ([BANG] + v)[1..] == v;
  }

  lemma NoBangAhead(sp: nat, t: Word)
    requires sp == 0 ==> t == [] || t[0] != BANG
    ensures var v := Spaces(sp) + t; v == [] || v[0] != BANG
  {
  }

  lemma {:induction false} OperandsBack(re: Operands, s: Word)
    requires Skip(s) == s && EndsSequence(Peek(s)) && Ok(re, s == [])
    ensures var (next, s2) := NextOperator(s);
      ParseOperands(Text(re) + s, None, First) ==
        if next == First then Parsed(Means(re), s) else ParseOperands(s2, Some(Means(re)), next)
    decreases re
  {
    hide Skip, Peek, ParseOperand, OperandText, OperandOk, NextOperator, ParseOperands;
    match re
    case Just(o) =>
      OperandBack(o, s);
      OperandsStep(Text(re) + s, None, First);
    case Next(os, op, sp, o) =>
      var t := OperandText(o) + s;
      var u := OperatorText(op) + (Spaces(sp) + t);
      assert Text(re) + s == Text(os) + u;
      OperandStarts(o, s);
      AfterAnd(o, s);
      OperatorBack(op, sp, t);
      OperandsBack(os, u);
      OperandBack(o, s);
      OperandsStep(t, Some(Means(os)), op);
  }

  lemma AfterAnd(o: Operand, s: Word)
    requires EndsSequence(Peek(s)) && Skip(s) == s
    ensures OperandText(o) == [] || OperandText(o)[0] != BANG ==>
      OperandText(o) + s == [] || (OperandText(o) + s)[0] != BANG
  {
  }

  /** Every text of the grammar is read as what it stands for. */
  lemma Complete(s: Word, e: Re)
    requires Derives(s, e)
    ensures ParseAll(s) == Parsed(e, [])
  {
    hide Text, Means, Ok, ParseOperands;
    var sp: nat, re: Operands :| s == Spaces(sp) + Text(re) && Ok(re, true) && Means(re) == e;
    SkipSpaces(sp, Text(re));
    OperandsBack(re, []);
    assert Text(re) + [] == Text(re);
  }
}
