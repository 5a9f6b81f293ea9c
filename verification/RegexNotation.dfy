/** What the characters of a definition mean, given by their codes: the laws hold for any texts as operands. */
module RegexNotation {
  import opened Graphs
  import opened Languages
  import opened RegexSyntax
  import opened RegexGrammar
  import opened RegexComplete
  import opened RegexSound

  /** The text s stands for e if it is put in parentheses. */
  ghost predicate Enclosed(s: Word, e: Re) {
    ParseRe(s + [41]) == Parsed(e, [41])
  }

  /** The text s stands for e, alone and in parentheses. */
  ghost predicate Stands(s: Word, e: Re) {
    Enclosed(s, e) && ParseAll(s) == Parsed(e, [])
  }

  lemma TreeStands(re: Operands)
    requires Ok(re, false) && Ok(re, true)
    ensures Stands(Text(re), Means(re))
  {
    hide Text, Means, Ok, ParseOperands, ParseAll;
    assert Spaces(0) + Text(re) == Text(re);
    Complete(Text(re), Means(re));
    SkipSpaces(0, Text(re) + [RPAR]);
    assert Spaces(0) + (Text(re) + [RPAR]) == Text(re) + [RPAR];
    ClosedBack([]);
    assert [RPAR] + [] == [RPAR];
    Ahead(RPAR, []);
    OperandsBack(re, [RPAR]);
  }

  lemma EnclosedTree(s: Word, e: Re) returns (a: Atom)
    requires Enclosed(s, e)
    ensures AtomOk(a, false) && AtomOk(a, true) && AtomMeans(a) == e && AtomText(a) == [40] + s + [41]
  {
    hide Text, Means, Ok, ParseRe;
    var sp, re := ReForth(s + [41]);
    a := Group(sp, re);
    assert s + [41] == Spaces(sp) + (Text(re) + [41]);
    assert AtomText(a) == [40] + (s + [41]);
  }

  /** One factor, without spaces. */
  function Plainly(nots: seq<nat>, a: Atom, m: Mul): Factor {
    Factor(nots, a, 0, m)
  }

  lemma PlainText(nots: seq<nat>, a: Atom, m: Mul)
    requires AtomOk(a, false) && AtomOk(a, true) && (m.Mul? ==> IsMul(m.c))
    ensures var f := Plainly(nots, a, m);
      && Whole(f) && FactorText(f) == NotsText(nots) + (AtomText(a) + MulText(m))
      && FactorMeans(f) == Negated(nots, RegexSyntax.Repeated(AtomMeans(a), if m.Mul? then m.c else SPACE))
  {
    hide AtomOk, AtomText, AtomMeans;
    assert Spaces(0) + MulText(m) == MulText(m);
  }

  /** The factor may stand anywhere. */
  predicate Whole(f: Factor) {
    FactorOk(f, false) && FactorOk(f, true)
  }

  predicate WholeOperand(o: Operand) {
    OperandOk(o, false) && OperandOk(o, true)
  }

  lemma OneFactor(f: Factor)
    requires Whole(f)
    ensures var o := Factors(Once(f));
      WholeOperand(o) && OperandText(o) == FactorText(f) && OperandMeans(o) == FactorMeans(f)
  {
    hide FactorOk, FactorText, FactorMeans;
    assert SequenceOk(Once(f), false) && SequenceOk(Once(f), true) && SequenceText(Once(f)) == FactorText(f);
  }

  lemma TwoFactors(f: Factor, g: Factor)
    requires Whole(f) && Whole(g)
    ensures var o := Factors(More(Once(f), g));
      && WholeOperand(o) && OperandText(o) == FactorText(f) + FactorText(g)
      && OperandMeans(o) == Seq(FactorMeans(f), FactorMeans(g))
  {
    hide FactorOk, FactorText, FactorMeans;
    assert SequenceOk(Once(f), false) && SequenceText(Once(f)) == FactorText(f);
    assert SequenceMeans(Once(f)) == FactorMeans(f);
    var q := More(Once(f), g);
    assert SequenceOk(q, false) && SequenceOk(q, true) && SequenceText(q) == FactorText(f) + FactorText(g);
    assert SequenceMeans(q) == Seq(FactorMeans(f), FactorMeans(g));
  }

  lemma OneOperand(o: Operand)
    requires WholeOperand(o)
    ensures Stands(OperandText(o), OperandMeans(o))
  {
    hide OperandOk, OperandText, OperandMeans, Stands;
    TreeStands(Just(o));
  }

  lemma TwoOperands(o: Operand, op: Operator, sp: nat, o1: Operand)
    requires WholeOperand(o) && WholeOperand(o1) && op != First
    requires op == OpAnd && sp == 0 ==> OperandText(o1) == [] || OperandText(o1)[0] != BANG
    ensures Stands(OperandText(o) + (OperatorText(op) + (Spaces(sp) + OperandText(o1))),
      Combined(Some(OperandMeans(o)), op, OperandMeans(o1)))
  {
    hide OperandOk, OperandText, OperandMeans, Stands, OperatorText;
    TreeStands(Next(Just(o), op, sp, o1));
  }

  lemma ThreeOperands(o: Operand, op: Operator, o1: Operand, op2: Operator, o2: Operand)
    requires WholeOperand(o) && WholeOperand(o1) && WholeOperand(o2) && op != First && op2 != First
    requires OperandText(o1) == [] || OperandText(o1)[0] != BANG
    requires OperandText(o2) == [] || OperandText(o2)[0] != BANG
    ensures Stands(OperandText(o) + (OperatorText(op) + OperandText(o1)) + (OperatorText(op2) + OperandText(o2)),
      Combined(Some(Combined(Some(OperandMeans(o)), op, OperandMeans(o1))), op2, OperandMeans(o2)))
  {
    hide OperandOk, OperandText, OperandMeans, Stands, OperatorText, Spaces;
    var re := Next(Just(o), op, 0, o1);
    NoSpaces(OperandText(o1));
    NoSpaces(OperandText(o2));
    assert Ok(Just(o), false) && Text(Just(o)) == OperandText(o) && Means(Just(o)) == OperandMeans(o);
    assert Ok(re, false) && Text(re) == OperandText(o) + (OperatorText(op) + OperandText(o1));
    assert Means(re) == Combined(Some(OperandMeans(o)), op, OperandMeans(o1));
    TreeStands(Next(re, op2, 0, o2));
  }

  lemma NoSpaces(s: Word)
    ensures Spaces(0) + s == s
  {
  }

  lemma FactorStands(nots: seq<nat>, a: Atom, m: Mul)
    requires AtomOk(a, false) && AtomOk(a, true) && (m.Mul? ==> IsMul(m.c))
    ensures Stands(NotsText(nots) + (AtomText(a) + MulText(m)),
      Negated(nots, RegexSyntax.Repeated(AtomMeans(a), if m.Mul? then m.c else SPACE)))
  {
    hide Stands, AtomOk, AtomText, AtomMeans, NotsText, MulText, FactorText, FactorMeans, FactorOk, OperandText,
      OperandMeans, OperandOk;
    PlainText(nots, a, m);
    OneFactor(Plainly(nots, a, m));
    OneOperand(Factors(Once(Plainly(nots, a, m))));
  }

  lemma AtomStands(a: Atom)
    requires AtomOk(a, false) && AtomOk(a, true)
    ensures Stands(AtomText(a), AtomMeans(a))
  {
    FactorStands([], a, NoMul);
    assert NotsText([]) + (AtomText(a) + MulText(NoMul)) == AtomText(a);
  }

  /** Parentheses: 40 and 41. */
  lemma GroupLaw(s: Word, e: Re)
    requires Enclosed(s, e)
    ensures Stands([40] + s + [41], e)
  {
    hide Enclosed, Stands, AtomOk, AtomText, AtomMeans;
    var a := EnclosedTree(s, e);
    AtomStands(a);
  }

  /** The repeat operators: 42 '*', 43 '+' and 63 '?'. */
  lemma RepeatLaw(s: Word, e: Re)
    requires Enclosed(s, e)
    ensures Stands([40] + s + [41, 42], Repeat(e, false))
    ensures Stands([40] + s + [41, 43], Repeat(e, true))
    ensures Stands([40] + s + [41, 63], Optional(e))
  {
    RepeatBy(s, e, 42);
    RepeatBy(s, e, 43);
    RepeatBy(s, e, 63);
  }

  lemma RepeatBy(s: Word, e: Re, c: Char32)
    requires Enclosed(s, e) && IsMul(c)
    ensures Stands([40] + s + [41, c], RegexSyntax.Repeated(e, c))
  {
    hide Enclosed, Stands, AtomOk, AtomText, AtomMeans;
    var a := EnclosedTree(s, e);
    FactorStands([], a, Mul(c, 0));
    assert NotsText([]) + (AtomText(a) + MulText(Mul(c, 0))) == [40] + s + [41, c];
  }

  /** The not operator: 33 '!'; it is applied after a repeat operator, and two of them cancel out. */
  lemma NotLaw(s: Word, e: Re)
    requires Enclosed(s, e)
    ensures Stands([33, 40] + s + [41], Not(e))
    ensures Stands([33, 33, 40] + s + [41], e)
    ensures Stands([33, 40] + s + [41, 42], Not(Repeat(e, false)))
  {
    hide Enclosed, Stands, AtomOk, AtomText, AtomMeans;
    var a := EnclosedTree(s, e);
    NotsTexts();
    FactorStands([0], a, NoMul);
    assert NotsText([0]) + (AtomText(a) + MulText(NoMul)) == [33, 40] + s + [41];
    FactorStands([0, 0], a, NoMul);
    assert NotsText([0, 0]) + (AtomText(a) + MulText(NoMul)) == [33, 33, 40] + s + [41];
    FactorStands([0], a, Mul(42, 0));
    assert NotsText([0]) + (AtomText(a) + MulText(Mul(42, 0))) == [33, 40] + s + [41, 42];
  }

  lemma NotsTexts()
    ensures NotsText([0]) == [33] && NotsText([0, 0]) == [33, 33]
  {
    assert [0 as nat][1..] == [] && [0 as nat, 0][1..] == [0];
    assert Spaces(0) == [];
  }

  /** The text in parentheses as one factor. */
  lemma EnclosedFactor(nots: seq<nat>, s: Word, e: Re) returns (f: Factor)
    requires Enclosed(s, e)
    ensures Whole(f) && FactorText(f) == NotsText(nots) + ([40] + s + [41]) && FactorMeans(f) == Negated(nots, e)
  {
    hide Enclosed, AtomOk, AtomText, AtomMeans, FactorText, FactorMeans, FactorOk, NotsText;
    var a := EnclosedTree(s, e);
    f := Plainly(nots, a, NoMul);
    PlainText(nots, a, NoMul);
    assert AtomText(a) + MulText(NoMul) == [40] + s + [41];
  }

  lemma OneEnclosed(s: Word, e: Re) returns (f: Factor)
    requires Enclosed(s, e)
    ensures Whole(f) && FactorText(f) == [40] + s + [41] && FactorMeans(f) == e
  {
    hide Enclosed, FactorText, FactorMeans, FactorOk;
    f := EnclosedFactor([], s, e);
    assert NotsText([]) + ([40] + s + [41]) == [40] + s + [41];
  }

  /** What stands side by side is a sequence. */
  lemma SequenceLaw(s: Word, e: Re, t: Word, f: Re)
    requires Enclosed(s, e) && Enclosed(t, f)
    ensures Stands([40] + s + [41, 40] + t + [41], Seq(e, f))
  {
    hide Enclosed, Stands, AtomOk, AtomText, AtomMeans, FactorText, FactorMeans, FactorOk, OperandText, OperandMeans,
      OperandOk;
    var x := OneEnclosed(s, e);
    var y := OneEnclosed(t, f);
    TwoFactors(x, y);
    OneOperand(Factors(More(Once(x), y)));
    assert ([40] + s + [41]) + ([40] + t + [41]) == [40] + s + [41, 40] + t + [41];
  }

  /** 124 '|' */
  lemma OrLaw(s: Word, e: Re, t: Word, f: Re)
    requires Enclosed(s, e) && Enclosed(t, f)
    ensures Stands([40] + s + [41, 124, 40] + t + [41], Or(e, f))
  {
    hide Enclosed, Stands;
    OperatorBy(s, e, OpOr, 0, [], t, f);
    NotsTexts();
    NoneText();
    assert Spaces(0) == [] && Spaces(1) == [32];
    assert ([40] + s + [41]) + ([124] + ([] + ([] + ([40] + t + [41])))) ==
      [40] + s + [41, 124, 40] + t + [41];
  }

  /** 38 '&' */
  lemma AndLaw(s: Word, e: Re, t: Word, f: Re)
    requires Enclosed(s, e) && Enclosed(t, f)
    ensures Stands([40] + s + [41, 38, 40] + t + [41], And(e, f))
  {
    hide Enclosed, Stands;
    OperatorBy(s, e, OpAnd, 0, [], t, f);
    NotsTexts();
    NoneText();
    assert Spaces(0) == [] && Spaces(1) == [32];
    assert ([40] + s + [41]) + ([38] + ([] + ([] + ([40] + t + [41])))) ==
      [40] + s + [41, 38, 40] + t + [41];
  }

  /** 38 33 '&!' is one operator. */
  lemma AndNotLaw(s: Word, e: Re, t: Word, f: Re)
    requires Enclosed(s, e) && Enclosed(t, f)
    ensures Stands([40] + s + [41, 38, 33, 40] + t + [41], AndNot(e, f))
  {
    hide Enclosed, Stands;
    OperatorBy(s, e, OpAndNot, 0, [], t, f);
    NotsTexts();
    NoneText();
    assert Spaces(0) == [] && Spaces(1) == [32];
    assert ([40] + s + [41]) + ([38, 33] + ([] + ([] + ([40] + t + [41])))) ==
      [40] + s + [41, 38, 33, 40] + t + [41];
  }

  /** '& !' are two. */
  lemma AndOfNotLaw(s: Word, e: Re, t: Word, f: Re)
    requires Enclosed(s, e) && Enclosed(t, f)
    ensures Stands([40] + s + [41, 38, 32, 33, 40] + t + [41], And(e, Not(f)))
  {
    hide Enclosed, Stands;
    OperatorBy(s, e, OpAnd, 1, [0], t, f);
    NotsTexts();
    NoneText();
    assert Spaces(0) == [] && Spaces(1) == [32];
    assert ([40] + s + [41]) + ([38] + ([32] + ([33] + ([40] + t + [41])))) ==
      [40] + s + [41, 38, 32, 33, 40] + t + [41];
  }

  lemma OperatorBy(s: Word, e: Re, op: Operator, sp: nat, nots: seq<nat>, t: Word, f: Re)
    requires Enclosed(s, e) && Enclosed(t, f) && op != First && (op == OpAnd && sp == 0 ==> nots == [])
    ensures Stands(([40] + s + [41]) + (OperatorText(op) + (Spaces(sp) + (NotsText(nots) + ([40] + t + [41])))),
      Combined(Some(e), op, Negated(nots, f)))
  {
    hide Enclosed, Stands, AtomOk, AtomText, AtomMeans, FactorText, FactorMeans, FactorOk, OperandText, OperandMeans,
      OperandOk, NotsText, OperatorText, Spaces;
    var x := OneEnclosed(s, e);
    var y := EnclosedFactor(nots, t, f);
    OneFactor(x);
    OneFactor(y);
    if nots == [] { NoneText(); }
    TwoOperands(Factors(Once(x)), op, sp, Factors(Once(y)));
  }

  lemma NoneText()
    ensures NotsText([]) == []
  {
  }

  /** All operators have one precedence and are read from the left. */
  lemma LeftLaw(s: Word, e: Re, t: Word, f: Re, u: Word, g: Re, c: Char32, d: Char32)
    requires Enclosed(s, e) && Enclosed(t, f) && Enclosed(u, g) && c in {124, 38} && d in {124, 38}
    ensures Stands([40] + s + [41, c, 40] + t + [41, d, 40] + u + [41], Operated(Operated(e, c, f), d, g))
  {
    hide Enclosed, Stands, AtomOk, AtomText, AtomMeans, FactorText, FactorMeans, FactorOk, OperandText, OperandMeans,
      OperandOk, NotsText, OperatorText, Spaces, Operated;
    var x := OneEnclosed(s, e);
    var y := OneEnclosed(t, f);
    var z := OneEnclosed(u, g);
    OneFactor(x);
    OneFactor(y);
    OneFactor(z);
    OperatorCode(c, e, f);
    OperatorCode(d, Operated(e, c, f), g);
    ThreeOperands(Factors(Once(x)), CodedBy(c), Factors(Once(y)), CodedBy(d), Factors(Once(z)));
    assert ([40] + s + [41]) + ([c] + ([40] + t + [41])) + ([d] + ([40] + u + [41])) ==
      [40] + s + [41, c, 40] + t + [41, d, 40] + u + [41];
  }

  /** A sequence binds stronger than the operator in front of it. */
  lemma SequenceBehind(s: Word, e: Re, t: Word, f: Re, u: Word, g: Re, c: Char32)
    requires Enclosed(s, e) && Enclosed(t, f) && Enclosed(u, g) && c in {124, 38}
    ensures Stands([40] + s + [41, c, 40] + t + [41, 40] + u + [41], Operated(e, c, Seq(f, g)))
  {
    hide Enclosed, Stands, AtomOk, AtomText, AtomMeans, FactorText, FactorMeans, FactorOk, OperandText, OperandMeans,
      OperandOk, NotsText, OperatorText, Spaces, Operated;
    var x := OneEnclosed(s, e);
    var y := OneEnclosed(t, f);
    var z := OneEnclosed(u, g);
    OneFactor(x);
    TwoFactors(y, z);
    OperatorCode(c, e, Seq(f, g));
    NoSpaces(([40] + t + [41]) + ([40] + u + [41]));
    TwoOperands(Factors(Once(x)), CodedBy(c), 0, Factors(More(Once(y), z)));
    assert ([40] + s + [41]) + ([c] + (([40] + t + [41]) + ([40] + u + [41]))) ==
      [40] + s + [41, c, 40] + t + [41, 40] + u + [41];
  }

  /** And than the one behind it. */
  lemma SequenceBefore(s: Word, e: Re, t: Word, f: Re, u: Word, g: Re, c: Char32)
    requires Enclosed(s, e) && Enclosed(t, f) && Enclosed(u, g) && c in {124, 38}
    ensures Stands([40] + s + [41, 40] + t + [41, c, 40] + u + [41], Operated(Seq(e, f), c, g))
  {
    hide Enclosed, Stands, AtomOk, AtomText, AtomMeans, FactorText, FactorMeans, FactorOk, OperandText, OperandMeans,
      OperandOk, NotsText, OperatorText, Spaces, Operated;
    var x := OneEnclosed(s, e);
    var y := OneEnclosed(t, f);
    var z := OneEnclosed(u, g);
    TwoFactors(x, y);
    OneFactor(z);
    OperatorCode(c, Seq(e, f), g);
    NoSpaces([40] + u + [41]);
    TwoOperands(Factors(More(Once(x), y)), CodedBy(c), 0, Factors(Once(z)));
    assert (([40] + s + [41]) + ([40] + t + [41])) + ([c] + ([40] + u + [41])) ==
      [40] + s + [41, 40] + t + [41, c, 40] + u + [41];
  }

  function Operated(e: Re, c: Char32, f: Re): Re {
    if c == 124 then Or(e, f) else And(e, f)
  }

  function CodedBy(c: Char32): Operator {
    if c == 124 then OpOr else OpAnd
  }

  lemma OperatorCode(c: Char32, e: Re, f: Re)
    requires c in {124, 38}
    ensures OperatorText(CodedBy(c)) == [c] && Combined(Some(e), CodedBy(c), f) == Operated(e, c, f)
  {
  }

  // ---- characters

  /** The characters that stand for themselves. */
  predicate Ordinary(c: Char32) {
    c !in {32, 33, 38, 40, 41, 42, 43, 46, 63, 91, 92, 93, 124}
  }

  lemma OrdinaryLaw(c: Char32)
    requires Ordinary(c)
    ensures Stands([c], Chars([c], [c]))
  {
    hide Stands;
    AtomStands(Single(Plain(c)));
  }

  /** Behind a backslash n, r and t stand for a newline, a carriage return and a tabulator, every other character
      stands for itself. */
  lemma EscapeLaw(c: Char32)
    ensures c == 110 ==> Stands([92, c], Chars([10], [10]))
    ensures c == 114 ==> Stands([92, c], Chars([13], [13]))
    ensures c == 116 ==> Stands([92, c], Chars([9], [9]))
    ensures c != 110 && c != 114 && c != 116 ==> Stands([92, c], Chars([c], [c]))
  {
    hide Stands;
    AtomStands(Single(Escaped(c)));
  }

  /** '.' is any character. */
  lemma DotLaw()
    ensures Stands([46], Chars([0], [0x7fff_ffff]))
  {
    hide Stands;
    AtomStands(Dot);
  }

  /** The characters of a set that stand for themselves. */
  predicate Member(c: Char32) {
    c !in {32, 45, 92, 93, 94}
  }

  /** Sets: 91 '[' and 93 ']'; a leading 94 '^' negates it, 45 '-' makes a range. */
  lemma SetLaw(c: Char32, d: Char32)
    requires Member(c) && Member(d)
    ensures Stands([91, 93], Nothing)
    ensures Stands([91, 94, 93], NotChars([], []))
    ensures Stands([91, c, 93], Chars([c], [c]))
    ensures Stands([91, c, d, 93], Chars([c, d], [c, d]))
    ensures Stands([91, c, 45, d, 93], Chars([c], [d]))
    ensures Stands([91, 94, c, d, 93], NotChars([c, d], [c, d]))
    ensures Stands([91, 94, c, 45, d, 93], NotChars([c], [d]))
  {
    hide Stands;
    SetStands(None, []);
    SetStands(Some(0), []);
    var x, y, z := One(Plain(c), 0), One(Plain(d), 0), Span(Plain(c), 0, 0, Plain(d), 0);
    Texts(x, y);
    Texts(z, z);
    Bounds(x, y);
    Bounds(z, z);
    assert Spaces(0) == [] && RangeText(x) == [c] && RangeText(y) == [d] && RangeText(z) == [c, 45, d];
    hide RangesText, RangeText, Lowers, Uppers;
    assert [91] + ([] + [93]) == [91, 93] && [91, 94] + ([] + [93]) == [91, 94, 93];
    SetStands(None, [x]);
    assert [91] + ([c] + [93]) == [91, c, 93];
    SetStands(None, [x, y]);
    assert [91] + (([c] + [d]) + [93]) == [91, c, d, 93];
    SetStands(None, [z]);
    assert [91] + ([c, 45, d] + [93]) == [91, c, 45, d, 93];
    SetStands(Some(0), [x, y]);
    assert [91, 94] + (([c] + [d]) + [93]) == [91, 94, c, d, 93];
    SetStands(Some(0), [z]);
    assert [91, 94] + ([c, 45, d] + [93]) == [91, 94, c, 45, d, 93];
  }

  lemma Texts(x: Range, y: Range)
    ensures RangesText([]) == [] && RangesText([x]) == RangeText(x) && RangesText([x, y]) == RangeText(x) + RangeText(y)
  {
    assert [x][1..] == [] && [x, y][1..] == [y] && [y][1..] == [];
  }

  lemma Bounds(x: Range, y: Range)
    ensures Lowers([]) == [] && Lowers([x]) == [Lower(x)] && Lowers([x, y]) == [Lower(x), Lower(y)]
    ensures Uppers([]) == [] && Uppers([x]) == [Upper(x)] && Uppers([x, y]) == [Upper(x), Upper(y)]
  {
  }

  lemma SetStands(neg: Option<nat>, rs: seq<Range>)
    requires SetOk(neg, rs) && neg in {None, Some(0)}
    ensures Stands((if neg.Some? then [91, 94] else [91]) + (RangesText(rs) + [93]),
      if neg.Some? then NotChars(Lowers(rs), Uppers(rs))
      else if rs == [] then Nothing else Chars(Lowers(rs), Uppers(rs)))
  {
    hide Stands, RangesText, SetOk;
    AtomStands(Set(0, neg, rs));
    assert AtomText(Set(0, neg, rs)) == (if neg.Some? then [91, 94] else [91]) + (RangesText(rs) + [93]);
  }

  /** A backslash in a set. */
  lemma SetEscapeLaw(c: Char32)
    ensures c == 110 ==> Stands([91, 92, c, 93], Chars([10], [10]))
    ensures c == 114 ==> Stands([91, 92, c, 93], Chars([13], [13]))
    ensures c == 116 ==> Stands([91, 92, c, 93], Chars([9], [9]))
    ensures c !in {110, 114, 116} ==> Stands([91, 92, c, 93], Chars([c], [c]))
  {
    var x := One(Escaped(c), 0);
    Texts(x, x);
    Bounds(x, x);
    assert Spaces(0) == [] && RangeText(x) == [92, c];
    hide Stands, RangesText, RangeText, Lowers, Uppers;
    SetStands(None, [x]);
    assert [91] + ([92, c] + [93]) == [91, 92, c, 93];
  }

  /** At both ends of a range. */
  lemma RangeEscapeLaw(c: Char32, d: Char32)
    requires c !in {110, 114, 116} && d !in {93, 110, 114, 116}
    ensures Stands([91, 92, c, 45, 92, d, 93], Chars([c], [d]))
    ensures Stands([91, 94, 92, c, 45, 92, d, 93], NotChars([c], [d]))
  {
    var z := Span(Escaped(c), 0, 0, Escaped(d), 0);
    Texts(z, z);
    Bounds(z, z);
    assert Spaces(0) == [] && RangeText(z) == [92, c, 45, 92, d];
    hide Stands, RangesText, RangeText, Lowers, Uppers;
    SetStands(None, [z]);
    assert [91] + ([92, c, 45, 92, d] + [93]) == [91, 92, c, 45, 92, d, 93];
    SetStands(Some(0), [z]);
    assert [91, 94] + ([92, c, 45, 92, d] + [93]) == [91, 94, 92, c, 45, 92, d, 93];
  }

  /** Definitions of a single character that has a meaning of its own. */
  lemma AloneLaw(c: Char32)
    requires !Ordinary(c)
    ensures c == 32 ==> ParseAll([c]) == Parsed(Nothing, [])
    ensures c == 33 ==> ParseAll([c]) == Parsed(Not(Nothing), [])
    ensures c == 38 ==> ParseAll([c]) == Parsed(And(Nothing, Nothing), [])
    ensures c == 92 ==> ParseAll([c]) == Parsed(Chars([92], [92]), [])
    ensures c == 124 ==> ParseAll([c]) == Parsed(Or(Nothing, Nothing), [])
    ensures c in {40, 41, 42, 43, 63, 91, 93} ==> ParseAll([c]) == Failed(false)
  {
    hide ParseAll;
    if c in {32, 33, 38, 92, 124} {
      AloneTree(c);
    } else if c in {40, 41, 42, 43, 63, 91, 93} {
      AloneFails(c);
    }
  }

  lemma AloneTree(c: Char32)
    requires c in {32, 33, 38, 92, 124}
    ensures ParseAll([c]) == Parsed(match c
      case 32 => Nothing
      case 33 => Not(Nothing)
      case 38 => And(Nothing, Nothing)
      case 92 => Chars([92], [92])
      case _ => Or(Nothing, Nothing), [])
  {
    hide ParseAll;
    NotsTexts();
    assert Spaces(0) == [] && Spaces(1) == [32];
    var sp, re := if c == 32 then 1 else 0, match c
      case 32 => Just(Empty)
      case 33 => Just(Factors(Once(Dangling([0]))))
      case 38 => Next(Just(Empty), OpAnd, 0, Empty)
      case 92 => Just(Factors(Once(Plainly([], Single(Plain(92)), NoMul))))
      case _ => Next(Just(Empty), OpOr, 0, Empty);
    assert [c] == Spaces(sp) + Text(re) && Ok(re, true);
    Complete([c], Means(re));
  }

  lemma AloneFails(c: Char32)
    requires c in {40, 41, 42, 43, 63, 91, 93}
    ensures ParseAll([c]) == Failed(false)
  {
    Ahead(c, []);
    assert [c] + [] == [c];
    Nothing2();
    NothingLeft();
    if c == 40 {
      assert ParseRe([]) == Parsed(Nothing, []);
      assert ParseAtom([c]) == Failed(false);
    } else if c == 91 {
      assert ParseSet([], [], []) == FailedSet;
      assert ParseAtom([c]) == Failed(false);
    }
    if c == 41 {
      assert ParseOperand([c]) == Parsed(Nothing, [c]);
      assert ParseRe([c]) == Parsed(Nothing, [c]);
    } else {
      assert Nots([c]) == (false, [c]);
      assert ParseFactor([c]) == Failed(false);
      assert ParseOperand([c]) == Failed(false);
      assert ParseOperands([c], None, First) == Failed(false);
    }
  }

  /** Behind '!' no operator may follow: 38, 41, 42, 43, 63, 93, 124. */
  lemma NotFollowed(c: Char32, s: Word)
    requires c in {38, 41, 42, 43, 63, 93, 124}
    ensures ParseAll([33, c] + s) == Failed(false)
  {
    var t := [33, c] + s;
    assert t == [33] + ([c] + s);
    Ahead(33, [c] + s);
    Ahead(c, s);
    assert Nots([c] + s) == (false, [c] + s);
    assert Nots(t) == (true, [c] + s);
    assert ParseFactor(t) == Failed(false);
    assert ParseOperand(t) == Failed(false);
    assert ParseOperands(t, None, First) == Failed(false);
  }

  /** Nor may a second repeat operator: 42, 43, 63. */
  lemma RepeatedOnce(s: Word, e: Re, c: Char32, d: Char32, t: Word)
    requires Enclosed(s, e) && c in {42, 43, 63} && d in {42, 43, 63, 93}
    ensures ParseAll([40] + s + [41, c, d] + t).Failed?
  {
    hide Enclosed, AtomOk, AtomText, AtomMeans, ParseOperands, ParseOperand;
    var a := EnclosedTree(s, e);
    PlainText([], a, Mul(c, 0));
    NoneText();
    var f, u := Plainly([], a, Mul(c, 0)), [d] + t;
    assert FactorText(f) == [40] + s + [41, c];
    assert FactorText(f) + u == [40] + s + [41, c, d] + t;
    FactorThenFails(f, d, t);
  }

  lemma FactorThenFails(f: Factor, d: Char32, t: Word)
    requires Whole(f) && f.Factor? && f.mul.Mul? && d in {42, 43, 63, 93}
    ensures ParseAll(FactorText(f) + ([d] + t)).Failed?
  {
    hide FactorText, FactorMeans, FactorOk;
    var u, v := [d] + t, FactorText(f) + ([d] + t);
    Ahead(d, t);
    FactorBack(f, u);
    FactorStarts(f, u);
    assert Nots(u) == (false, u) && ParseFactor(u) == Failed(false);
    assert ParseSequence(v, None) == ParseSequence(u, Some(FactorMeans(f)));
    assert ParseOperand(v) == ParseSequence(v, None);
    assert ParseOperands(v, None, First) == Failed(RejectedBefore(Some(FactorMeans(f))));
  }

  /** Spaces in front do not matter: 32. */
  lemma SpaceLaw(s: Word)
    ensures ParseAll([32] + s) == ParseAll(s)
  {
    hide ParseOperands, Skip;
    assert Skip([32] + s) == Skip(s) by { SkipsFirst(s); }
    ReSkip([32] + s);
    ReSkip(s);
  }

  lemma SkipsFirst(s: Word)
    ensures Skip([32] + s) == Skip(s)
  {
    assert ([32] + s)[1..] == s;
  }

  // ---- words

  /** What the operators do with the words. */
  lemma Words(e: Re, f: Re, w: Word)
    ensures w in Denote(Nothing) <==> w == []
    ensures w in Denote(Or(e, f)) <==> w in Denote(e) || w in Denote(f)
    ensures w in Denote(And(e, f)) <==> w in Denote(e) && w in Denote(f)
    ensures w in Denote(AndNot(e, f)) <==> w in Denote(e) && w !in Denote(f)
    ensures w in Denote(Not(e)) <==> w !in Denote(e) && forall i :: 0 <= i < |w| ==> w[i] <= 0x7fff_ffff
    ensures w in Denote(Optional(e)) <==> w == [] || w in Denote(e)
  {
    hide Concat, Star, Plus;
    assert Denote(Nothing) == iset{[]};
  }

  lemma SequenceWords(e: Re, f: Re, w: Word)
    ensures w in Denote(Seq(e, f)) <==> exists u: Word, v: Word :: u in Denote(e) && v in Denote(f) && w == u + v
  {
    if w in Denote(Seq(e, f)) {
      var k: nat :| Splits(Denote(e), Denote(f), w, k);
      assert w == w[..k] + w[k..];
    }
    if u: Word, v: Word :| u in Denote(e) && v in Denote(f) && w == u + v {
      assert w[..|u|] == u && w[|u|..] == v;
      assert Splits(Denote(e), Denote(f), w, |u|);
    }
  }

  function Flatten(ws: seq<Word>): Word {
    if ws == [] then [] else ws[0] + Flatten(ws[1..])
  }

  /** The words ws, none of them empty, one after the other. */
  ghost predicate Pieces(e: Re, ws: seq<Word>, w: Word) {
    w == Flatten(ws) && forall k :: 0 <= k < |ws| ==> ws[k] != [] && ws[k] in Denote(e)
  }

  /** What the repeat operators do with the words. */
  lemma RepeatedWords(e: Re, w: Word)
    ensures w in Denote(Repeat(e, false)) <==> exists ws: seq<Word> :: Pieces(e, ws, w)
    ensures w in Denote(Repeat(e, true)) <==>
      exists ws: seq<Word> :: Pieces(e, ws, w) && (ws == [] ==> [] in Denote(e))
  {
    hide Denote;
    Repeats(e);
    var L := Denote(e);
    if InStar(L, w) {
      var ws := Cut(e, w);
    }
    if ws: seq<Word> :| Pieces(e, ws, w) {
      Assembled(e, ws, w);
    }
    if w in Plus(L) {
      var k: nat :| Splits(L, Star(L), w, k);
      var ws := Cut(e, w[k..]);
      if k > 0 {
        assert w == w[..k] + w[k..] && ([w[..k]] + ws)[1..] == ws;
        assert Pieces(e, [w[..k]] + ws, w);
      } else {
        assert w[k..] == w && w[..0] == [];
        assert Pieces(e, ws, w);
      }
    }
    if ws: seq<Word> :| Pieces(e, ws, w) && (ws == [] ==> [] in L) {
      if ws == [] {
        assert Splits(L, Star(L), w, 0);
      } else {
        Assembled(e, ws[1..], Flatten(ws[1..]));
        assert w[..|ws[0]|] == ws[0] && w[|ws[0]|..] == Flatten(ws[1..]);
        assert Splits(L, Star(L), w, |ws[0]|);
      }
    }
  }

  lemma Repeats(e: Re)
    ensures Denote(Repeat(e, false)) == Star(Denote(e)) && Denote(Repeat(e, true)) == Plus(Denote(e))
  {
  }

  lemma {:induction false} Cut(e: Re, w: Word) returns (ws: seq<Word>)
    requires InStar(Denote(e), w)
    ensures Pieces(e, ws, w)
    decreases |w|
  {
    ws := [];
    if w != [] {
      var k: nat :| 0 < k <= |w| && w[..k] in Denote(e) && InStar(Denote(e), w[k..]);
      var rest := Cut(e, w[k..]);
      ws := [w[..k]] + rest;
      assert ws[1..] == rest && w == w[..k] + w[k..];
    }
  }

  lemma {:induction false} Assembled(e: Re, ws: seq<Word>, w: Word)
    requires Pieces(e, ws, w)
    ensures InStar(Denote(e), w)
    decreases |ws|
  {
    if ws != [] {
      Assembled(e, ws[1..], Flatten(ws[1..]));
      StarStep(Denote(e), ws[0], Flatten(ws[1..]));
    }
  }

  /** What sets do: one character, within some range. */
  lemma SetWords(from: seq<Char32>, to: seq<Char32>, w: Word)
    requires |from| == |to|
    ensures w in Denote(Chars(from, to)) <==> |w| == 1 && exists i :: 0 <= i < |from| && from[i] <= w[0] <= to[i]
    ensures w in Denote(NotChars(from, to)) <==>
      |w| == 1 && w[0] <= 0x7fff_ffff && forall i :: 0 <= i < |from| ==> !(from[i] <= w[0] <= to[i])
  {
    if |w| == 1 {
      assert InRanges(w[0], [0], [MAXCHAR]) <==> [0 as Char32][0] <= w[0] <= [MAXCHAR][0];
    }
  }

  /** The definition of a backslash and one character has one word, of one character. */
  lemma EscapeWords(c: Char32)
    ensures ParseAll([92, c]).Parsed?
    ensures Denote(ParseAll([92, c]).e) ==
      iset{[match c case 110 => 10 case 114 => 13 case 116 => 9 case _ => c]}
  {
    hide ParseAll, Enclosed, Denote;
    EscapeLaw(c);
    var d: Char32 := match c case 110 => 10 case 114 => 13 case 116 => 9 case _ => c;
    forall w: Word ensures w in Denote(Chars([d], [d])) <==> w == [d] {
      SetWords([d], [d], w);
      assert |w| == 1 ==> w == [w[0]];
    }
  }
}
