/** Every regular expression can be written down: the parser reads back what is written.
    Parentheses are only written where the precedence of the operators needs them. */
module RegexText {
  import opened Graphs
  import opened RegexSyntax

  /** 0: atom, 1: with a repeat operator, 2: with a not operator, 3: sequence, 4: with '|', '&' or '&!' */
  function Level(e: Re): nat {
    match e
    case Nothing => 0
    case Chars(_, _) => 0
    case NotChars(_, _) => 0
    case Repeat(_, _) => 1
    case Optional(_) => 1
    case Not(_) => 2
    case Seq(_, _) => 3
    case Or(_, _) => 4
    case And(_, _) => 4
    case AndNot(_, _) => 4
  }

  /** A set can be written if no range of more than one character ends with ']'. */
  predicate WritableSet(from: seq<Char32>, to: seq<Char32>) {
    |from| == |to| && forall i :: 0 <= i < |to| ==> to[i] != RBRA || from[i] == to[i]
  }

  predicate Writable(e: Re) {
    match e
    case Nothing => true
    case Chars(from, to) => from != [] && WritableSet(from, to)
    case NotChars(from, to) => WritableSet(from, to)
    case Repeat(e1, _) => Writable(e1)
    case Optional(e1) => Writable(e1)
    case Not(e1) => Writable(e1)
    case Seq(e1, e2) => Writable(e1) && Writable(e2)
    case Or(e1, e2) => Writable(e1) && Writable(e2)
    case And(e1, e2) => Writable(e1) && Writable(e2)
    case AndNot(e1, e2) => Writable(e1) && Writable(e2)
  }

  /** Any character may be escaped, but escaped letters n, r and t are control codes. */
  function WriteChar(c: Char32): Word {
    if c == 110 || c == 114 || c == 116 then [c] else [BSLASH, c]
  }

  function WriteRange(from: Char32, to: Char32): Word {
    if from == to then WriteChar(from) else WriteChar(from) + [MINUS] + WriteChar(to)
  }

  /** The ranges of a set and the closing bracket. */
  function WriteSet(from: seq<Char32>, to: seq<Char32>): Word
    requires |from| == |to|
  {
    if from == [] then [RBRA] else WriteRange(from[0], to[0]) + WriteSet(from[1..], to[1..])
  }

  /** The expression as an operand that may have the given level at most. */
  function Write(e: Re, level: nat): Word
    requires Writable(e)
    decreases e, 1
  {
    if Level(e) <= level then Body(e) else [LPAR] + Body(e) + [RPAR]
  }

  function Body(e: Re): Word
    requires Writable(e)
    decreases e, 0
  {
    match e
    case Nothing => [LPAR, RPAR]
    case Chars(from, to) => [LBRA] + WriteSet(from, to)
    case NotChars(from, to) => [LBRA, CARET] + WriteSet(from, to)
    case Repeat(e1, one) => Write(e1, 0) + [if one then PLUS else STAR]
    case Optional(e1) => Write(e1, 0) + [QUEST]
    case Not(e1) => [BANG] + Write(e1, 1)
    case Seq(e1, e2) => Write(e1, 3) + Write(e2, 2)
    case Or(e1, e2) => Write(e1, 4) + [BAR] + Write(e2, 3)
    case And(e1, e2) => Write(e1, 4) + [AMP, SPACE] + Write(e2, 3)
    case AndNot(e1, e2) => Write(e1, 4) + [AMP, BANG] + Write(e2, 3)
  }

  predicate StartsAtom(s: Word) {
    s != [] && (s[0] == LPAR || s[0] == LBRA)
  }

  predicate StartsFactor(s: Word) {
    StartsAtom(s) || (s != [] && s[0] == BANG)
  }

  lemma {:induction false} WriteStarts(e: Re, level: nat)
    requires Writable(e)
    ensures StartsFactor(Write(e, level)) && (level <= 1 ==> StartsAtom(Write(e, level)))
    decreases e
  {
    if Level(e) <= level {
      match e
      case Repeat(e1, _) => WriteStarts(e1, 0);
      case Optional(e1) => WriteStarts(e1, 0);
      case Seq(e1, e2) => WriteStarts(e1, 3);
      case Or(e1, e2) => WriteStarts(e1, 4);
      case And(e1, e2) => WriteStarts(e1, 4);
      case AndNot(e1, e2) => WriteStarts(e1, 4);
      case _ =>
    }
  }

  // ---- sets

  lemma CharBack(c: Char32, rest: Word)
    ensures var s := WriteChar(c) + rest;
      && Peek(s) != SPACE && Peek(s) != RBRA && Peek(s) != MINUS && Peek(s) != CARET
      && Skip(s) == s && CharAt(Peek(s), After(s)) == c && CharRest(Peek(s), After(s)) == rest
  {
    var s := WriteChar(c) + rest;
    assert s[0] == (if c == 110 || c == 114 || c == 116 then c else BSLASH);
    assert s[1..] == if c == 110 || c == 114 || c == 116 then rest else [c] + rest;
    assert ([c] + rest)[1..] == rest;
  }

  lemma RangeBack(from: Char32, to: Char32, rest: Word)
    requires to != RBRA || from == to
    requires Skip(rest) == rest && Peek(rest) != MINUS
    ensures NextItem(WriteRange(from, to) + rest) == (Item(from, to), rest)
  {
    var s := WriteRange(from, to) + rest;
    if from == to {
      CharBack(from, rest);
    } else {
      var s3 := WriteChar(to) + rest;
      var s2 := [MINUS] + s3;
      assert s == WriteChar(from) + s2;
      CharBack(from, s2);
      CharBack(to, rest);
      assert s2[1..] == s3;
    }
  }

  lemma Assoc(a: Word, b: Word, c: Word)
    ensures (a + b) + c == a + (b + c)
  {
  }

  lemma SetSplit(from: seq<Char32>, to: seq<Char32>, rest: Word)
    requires |from| == |to| && from != []
    ensures WriteSet(from, to) + rest == WriteRange(from[0], to[0]) + (WriteSet(from[1..], to[1..]) + rest)
  {
    Assoc(WriteRange(from[0], to[0]), WriteSet(from[1..], to[1..]), rest);
  }

  lemma RangeStarts(from: Char32, to: Char32, rest: Word)
    ensures var s := WriteRange(from, to) + rest; Skip(s) == s && Peek(s) != MINUS && Peek(s) != CARET
  {
    hide Skip, Peek, After;
    if from == to {
      CharBack(from, rest);
    } else {
      Assoc(WriteChar(from) + [MINUS], WriteChar(to), rest);
      Assoc(WriteChar(from), [MINUS], WriteChar(to) + rest);
      CharBack(from, [MINUS] + (WriteChar(to) + rest));
    }
  }

  lemma SetStarts(from: seq<Char32>, to: seq<Char32>, rest: Word)
    requires |from| == |to|
    ensures var s := WriteSet(from, to) + rest; Skip(s) == s && Peek(s) != MINUS && Peek(s) != CARET
  {
    if from == [] {
      PeekFirst(RBRA, rest);
    } else {
      hide Skip, Peek, WriteSet, WriteRange;
      SetSplit(from, to, rest);
      RangeStarts(from[0], to[0], WriteSet(from[1..], to[1..]) + rest);
    }
  }

  lemma SetEnd(rest: Word, f: seq<Char32>, t: seq<Char32>)
    requires |f| == |t|
    ensures ParseSet([RBRA] + rest, f, t) == ParsedSet(f, t, rest)
  {
    PeekFirst(RBRA, rest);
  }

  lemma {:induction false} SetBack(from: seq<Char32>, to: seq<Char32>, rest: Word, f: seq<Char32>, t: seq<Char32>)
    requires WritableSet(from, to) && |f| == |t|
    ensures ParseSet(WriteSet(from, to) + rest, f, t) == ParsedSet(f + from, t + to, rest)
    decreases |from|
  {
    hide Skip, Peek, After, WriteRange, ParseSet, NextItem;
    if from == [] {
      SetEnd(rest, f, t);
      assert f + from == f && t + to == t;
    } else {
      SetNext(from, to, rest, f, t);
      SetBack(from[1..], to[1..], rest, f + [from[0]], t + [to[0]]);
      assert f + [from[0]] + from[1..] == f + from && t + [to[0]] + to[1..] == t + to;
    }
  }

  lemma SetNext(from: seq<Char32>, to: seq<Char32>, rest: Word, f: seq<Char32>, t: seq<Char32>)
    requires WritableSet(from, to) && |f| == |t| && from != []
    ensures ParseSet(WriteSet(from, to) + rest, f, t) ==
      ParseSet(WriteSet(from[1..], to[1..]) + rest, f + [from[0]], t + [to[0]])
  {
    hide Skip, Peek, WriteSet, WriteRange, NextItem;
    SetSplit(from, to, rest);
    SetStarts(from[1..], to[1..], rest);
    RangeBack(from[0], to[0], WriteSet(from[1..], to[1..]) + rest);
  }

  lemma BracketsBack(from: seq<Char32>, to: seq<Char32>, rest: Word)
    requires WritableSet(from, to)
    ensures ParseBrackets(WriteSet(from, to) + rest) == Parsed(if from == [] then Nothing else Chars(from, to), rest)
    ensures ParseBrackets([CARET] + (WriteSet(from, to) + rest)) == Parsed(NotChars(from, to), rest)
  {
    hide Skip, Peek, After, WriteSet, ParseSet;
    var s := WriteSet(from, to) + rest;
    SetStarts(from, to, rest);
    SetBack(from, to, rest, [], []);
    assert [] + from == from && [] + to == to;
    PeekFirst(CARET, s);
  }

  // ---- expressions

  /** No repeat operator follows. */
  predicate NoRepeat(rest: Word) {
    Peek(rest) != STAR && Peek(rest) != PLUS && Peek(rest) != QUEST
  }

  lemma PeekFirst(c: Char32, rest: Word)
    requires c != SPACE
    ensures Peek([c] + rest) == c && Skip([c] + rest) == [c] + rest && After([c] + rest) == rest
  {
    assert ([c] + rest)[1..] == rest;
  }

  lemma SkipFirst(s: Word)
    requires s != [] && s[0] != SPACE
    ensures Skip(s) == s && Peek(s) == s[0]
  {
  }

  lemma NothingBack(rest: Word)
    ensures ParseRe([RPAR] + rest) == Parsed(Nothing, [RPAR] + rest)
  {
    PeekFirst(RPAR, rest);
    OperandsStep([RPAR] + rest, None, First);
  }

  lemma NothingAtom(rest: Word)
    ensures ParseAtom([LPAR] + [RPAR] + rest) == Parsed(Nothing, rest)
  {
    hide ParseRe, Skip, Peek, After;
    Assoc([LPAR], [RPAR], rest);
    PeekFirst(LPAR, [RPAR] + rest);
    NothingBack(rest);
    PeekFirst(RPAR, rest);
  }

  lemma CharsAtom(from: seq<Char32>, to: seq<Char32>, rest: Word)
    requires Writable(Chars(from, to))
    ensures ParseAtom(Body(Chars(from, to)) + rest) == Parsed(Chars(from, to), rest)
  {
    hide ParseBrackets, ParseRe, Skip, Peek, After;
    assert Body(Chars(from, to)) == [LBRA] + WriteSet(from, to);
    Assoc([LBRA], WriteSet(from, to), rest);
    PeekFirst(LBRA, WriteSet(from, to) + rest);
    BracketsBack(from, to, rest);
  }

  lemma NotCharsAtom(from: seq<Char32>, to: seq<Char32>, rest: Word)
    requires Writable(NotChars(from, to))
    ensures ParseAtom(Body(NotChars(from, to)) + rest) == Parsed(NotChars(from, to), rest)
  {
    hide ParseBrackets, ParseRe, Skip, Peek, After;
    assert Body(NotChars(from, to)) == [LBRA] + ([CARET] + WriteSet(from, to));
    Assoc([LBRA], [CARET] + WriteSet(from, to), rest);
    Assoc([CARET], WriteSet(from, to), rest);
    PeekFirst(LBRA, [CARET] + (WriteSet(from, to) + rest));
    BracketsBack(from, to, rest);
  }

  /** An expression without operands is read back. */
  lemma SimpleBack(e: Re, rest: Word)
    requires Writable(e) && Level(e) == 0
    ensures ParseAtom(Body(e) + rest) == Parsed(e, rest)
  {
    hide ParseAtom;
    match e
    case Nothing =>
      assert Body(e) == [LPAR] + [RPAR];
      NothingAtom(rest);
    case Chars(from, to) => CharsAtom(from, to, rest);
    case NotChars(from, to) => NotCharsAtom(from, to, rest);
  }

  /** An atom is read back. */
  lemma {:induction false} AtomBack(e: Re, rest: Word)
    requires Writable(e)
    ensures ParseAtom(Write(e, 0) + rest) == Parsed(e, rest)
    decreases e, 7
  {
    if Level(e) == 0 {
      SimpleBack(e, rest);
    } else {
      hide ParseRe, Skip, Peek, After, Body, Level;
      Assoc([LPAR] + Body(e), [RPAR], rest);
      Assoc([LPAR], Body(e), [RPAR] + rest);
      PeekFirst(LPAR, Body(e) + ([RPAR] + rest));
      PeekFirst(RPAR, rest);
      BodyBack(e, [RPAR] + rest);
    }
  }

  /** The content of parentheses is read back. */
  lemma {:induction false} BodyBack(e: Re, rest: Word)
    requires Writable(e) && Level(e) > 0 && rest != [] && rest[0] == RPAR
    ensures ParseRe(Body(e) + rest) == Parsed(e, rest)
    decreases e, 6
  {
    SkipFirst(rest);
    assert Write(e, 4) == Body(e);
    OperandsBack(e, rest);
  }

  /** The rank of the lemma about expressions of this level: those in parentheses come last. */
  function Rank(e: Re, level: nat): nat {
    if Level(e) > level then 9 + level else level
  }

  /** An atom with a repeat operator is read back. */
  lemma {:induction false} RepeatBack(e: Re, rest: Word)
    requires Writable(e) && NoRepeat(rest)
    ensures var p := ParseAtom(Write(e, 1) + rest);
      && p.Parsed?
      && var next := Peek(p.rest);
         RegexSyntax.Repeated(p.e, next) == e
         && Skip(if next == STAR || next == PLUS || next == QUEST then After(p.rest) else p.rest) == Skip(rest)
    decreases e, Rank(e, 1)
  {
    hide ParseAtom, Skip, Peek, After;
    match e
    case Repeat(e1, one) =>
      var c := if one then PLUS else STAR;
      assert Write(e, 1) == Write(e1, 0) + [c];
      Assoc(Write(e1, 0), [c], rest);
      PeekFirst(c, rest);
      AtomBack(e1, [c] + rest);
    case Optional(e1) =>
      assert Write(e, 1) == Write(e1, 0) + [QUEST];
      Assoc(Write(e1, 0), [QUEST], rest);
      PeekFirst(QUEST, rest);
      AtomBack(e1, [QUEST] + rest);
    case Nothing => SimpleBack(e, rest);
    case Chars(_, _) => SimpleBack(e, rest);
    case NotChars(_, _) => SimpleBack(e, rest);
    case _ => AtomBack(e, rest);
  }

  lemma NotsNone(s: Word)
    requires StartsAtom(s)
    ensures Nots(s) == (false, s) && Nots([BANG] + s) == (true, s)
    ensures !NoAtom(Peek(s)) && Peek(s) == s[0] && Skip(s) == s
  {
    SkipFirst(s);
    PeekFirst(BANG, s);
  }

  /** A factor is read back. */
  lemma {:induction false} FactorBack(e: Re, rest: Word)
    requires Writable(e) && NoRepeat(rest)
    ensures ParseFactor(Write(e, 2) + rest) == Parsed(e, Skip(rest))
    decreases e, Rank(e, 2)
  {
    hide ParseAtom, Skip, Peek, After, Nots, NoAtom, StartsFactor, Repeated;
    match e
    case Not(e1) =>
      assert Write(e, 2) == [BANG] + Write(e1, 1);
      Assoc([BANG], Write(e1, 1), rest);
      WriteStarts(e1, 1);
      NotsNone(Write(e1, 1) + rest);
      RepeatBack(e1, rest);
    case _ =>
      assert Write(e, 2) == Write(e, 1);
      WriteStarts(e, 1);
      NotsNone(Write(e, 1) + rest);
      RepeatBack(e, rest);
  }

  /** A sequence is read back, up to what ends it, or else as the first part of a longer one. */
  lemma {:induction false} SequenceBack(e: Re, rest: Word)
    requires Writable(e) && NoRepeat(rest)
    ensures ParseSequence(Write(e, 3) + rest, None) ==
      if EndsSequence(Peek(Skip(rest))) then Parsed(e, Skip(rest)) else ParseSequence(Skip(rest), Some(e))
    decreases e, Rank(e, 3)
  {
    hide ParseFactor, Skip, Peek, After, Nots, StartsFactor;
    match e
    case Seq(e1, e2) =>
      assert Write(e, 3) == Write(e1, 3) + Write(e2, 2);
      Assoc(Write(e1, 3), Write(e2, 2), rest);
      FactorStarts(e2, 2, rest);
      SequenceBack(e1, Write(e2, 2) + rest);
      FactorBack(e2, rest);
    case _ =>
      assert Write(e, 3) == Write(e, 2);
      FactorBack(e, rest);
  }

  lemma FactorStarts(e: Re, level: nat, rest: Word)
    requires Writable(e)
    ensures var s := Write(e, level) + rest;
      Skip(s) == s && NoRepeat(s) && !EndsSequence(Peek(s)) && Peek(s) != SPACE
  {
    WriteStarts(e, level);
    SkipFirst(Write(e, level) + rest);
  }

  /** An operand is read back. */
  lemma {:induction false} OperandBack(e: Re, rest: Word)
    requires Writable(e) && EndsSequence(Peek(rest))
    ensures ParseOperand(Write(e, 3) + rest) == Parsed(e, Skip(rest))
    decreases e, Rank(e, 3) + 1
  {
    hide ParseSequence, Skip, Peek, After;
    PeekSkip(rest);
    FactorStarts(e, 3, rest);
    SequenceBack(e, rest);
  }

  lemma PeekSkip(s: Word)
    ensures Peek(Skip(s)) == Peek(s)
  {
    SkipTwice(s);
  }

  /** The operands of one level are read back from left to right. */
  lemma {:induction false} OperandsBack(e: Re, rest: Word)
    requires Writable(e) && EndsSequence(Peek(rest))
    ensures var (next, s2) := NextOperator(Skip(rest));
      ParseOperands(Write(e, 4) + rest, None, First) ==
        if next == First then Parsed(e, Skip(rest)) else ParseOperands(s2, Some(e), next)
    decreases e, 5
  {
    hide ParseOperand, NextOperator, Skip, Peek, After, ParseOperands;
    match e
    case Or(e1, e2) =>
      assert Write(e, 4) == Write(e1, 4) + [BAR] + Write(e2, 3);
      TwoOperands(e1, OpOr, [BAR], e2, rest);
    case And(e1, e2) =>
      assert Write(e, 4) == Write(e1, 4) + [AMP, SPACE] + Write(e2, 3);
      TwoOperands(e1, OpAnd, [AMP, SPACE], e2, rest);
    case AndNot(e1, e2) =>
      assert Write(e, 4) == Write(e1, 4) + [AMP, BANG] + Write(e2, 3);
      TwoOperands(e1, OpAndNot, [AMP, BANG], e2, rest);
    case _ =>
      assert Write(e, 4) == Write(e, 3);
      OperandBack(e, rest);
      OperandsStep(Write(e, 3) + rest, None, First);
  }

  function WriteOperator(op: Operator): Word
    requires op != First
  {
    match op
    case OpOr => [BAR]
    case OpAnd => [AMP, SPACE]
    case OpAndNot => [AMP, BANG]
  }

  lemma OperatorBack(op: Operator, s: Word)
    requires op != First && s != [] && s[0] != SPACE
    ensures var t := WriteOperator(op) + s; NextOperator(Skip(t)) == (op, s) && EndsSequence(Peek(t))
  {
    var t := WriteOperator(op) + s;
    SkipFirst(t);
    SkipFirst(s);
    match op
    case OpOr => assert t[1..] == s;
    case OpAnd =>
      assert t[1..] == [SPACE] + s;
      assert ([SPACE] + s)[1..] == s;
    case OpAndNot =>
      assert t[1..] == [BANG] + s;
      assert ([BANG] + s)[1..] == s;
  }

  lemma {:induction false} TwoOperands(e1: Re, op: Operator, w: Word, e2: Re, rest: Word)
    requires Writable(e1) && Writable(e2) && EndsSequence(Peek(rest)) && op != First && w == WriteOperator(op)
    ensures var (next, s2) := NextOperator(Skip(rest));
      var e := Combined(Some(e1), op, e2);
      ParseOperands(Write(e1, 4) + w + Write(e2, 3) + rest, None, First) ==
        if next == First then Parsed(e, Skip(rest)) else ParseOperands(s2, Some(e), next)
    decreases Combined(Some(e1), op, e2), 0
  {
    hide ParseOperand, NextOperator, Skip, Peek, After, ParseOperands, WriteOperator;
    var s := Write(e2, 3) + rest;
    Assoc(Write(e1, 4) + w, Write(e2, 3), rest);
    Assoc(Write(e1, 4), w, s);
    WriteStarts(e2, 3);
    OperatorBack(op, s);
    OperandsBack(e1, w + s);
    OperandBack(e2, rest);
    OperandsStep(s, Some(e1), op);
  }

  /** What is written is read back as a whole. */
  lemma RoundTrip(e: Re)
    requires Writable(e)
    ensures ParseAll(Write(e, 4)) == Parsed(e, [])
  {
    hide ParseOperands;
    OperandsBack(e, []);
    assert Write(e, 4) + [] == Write(e, 4);
  }

  // ---- only writable expressions are read

  lemma {:induction false} SetWritable(s: Word, from: seq<Char32>, to: seq<Char32>)
    requires WritableSet(from, to)
    ensures var p := ParseSet(s, from, to); p.ParsedSet? ==> WritableSet(p.from, p.to)
    decreases |s|
  {
    var (item, rest) := NextItem(s);
    if item.Item? {
      SetWritable(rest, from + [item.from], to + [item.to]);
    }
  }

  lemma {:induction false} AtomWritable(s: Word)
    ensures var p := ParseAtom(s); p.Parsed? ==> Writable(p.e)
    decreases |s|, 0
  {
    if Peek(s) == LPAR {
      OperandsWritable(After(s), None, First);
    } else if Peek(s) == LBRA {
      var s1 := After(s);
      SetWritable(if Peek(s1) == CARET then After(s1) else Skip(s1), [], []);
    }
  }

  lemma {:induction false} FactorWritable(s: Word)
    ensures var p := ParseFactor(s); p.Parsed? ==> Writable(p.e)
    decreases |s|, 1
  {
    hide Skip, Peek, After, ParseAtom;
    var s1 := Nots(s).1;
    AtomWritable(s1);
    var p := ParseAtom(s1);
    if p.Parsed? {
      RepeatedWritable(p.e, Peek(p.rest));
    }
  }

  lemma RepeatedWritable(e: Re, next: Char32)
    requires Writable(e)
    ensures Writable(RegexSyntax.Repeated(e, next)) && Writable(Not(RegexSyntax.Repeated(e, next)))
  {
    assert Writable(RegexSyntax.Repeated(e, next));
  }

  lemma {:induction false} SequenceWritable(s: Word, acc: Option<Re>)
    requires acc.Some? ==> Writable(acc.value)
    ensures var p := ParseSequence(s, acc); p.Parsed? ==> Writable(p.e)
    decreases |s|, 2
  {
    hide ParseFactor;
    FactorWritable(s);
    var p := ParseFactor(s);
    if p.Parsed? && !EndsSequence(Peek(p.rest)) {
      SequenceWritable(p.rest, Some(InSequence(acc, p.e)));
    }
  }

  lemma {:induction false} OperandsWritable(s: Word, acc: Option<Re>, op: Operator)
    requires acc.Some? ==> Writable(acc.value)
    ensures var p := ParseOperands(s, acc, op); p.Parsed? ==> Writable(p.e)
    decreases |s|, 3
  {
    hide Skip, Peek, After, ParseSequence, NextOperator;
    SequenceWritable(s, None);
    var p := ParseOperand(s);
    if p.Parsed? {
      OperandsStep(s, acc, op);
      var (next, s2) := NextOperator(p.rest);
      if next != First {
        OperandsWritable(s2, Some(Combined(acc, op, p.e)), next);
      }
    }
  }

  /** The expressions that some text stands for are just the writable ones. */
  lemma TextExists(e: Re)
    ensures (exists s: Word :: ParseAll(s) == Parsed(e, [])) <==> Writable(e)
  {
    hide ParseAll;
    if s: Word :| ParseAll(s) == Parsed(e, []) {
      AllWritable(s);
    }
    if Writable(e) { RoundTrip(e); }
  }

  lemma AllWritable(s: Word)
    ensures ParseAll(s).Parsed? ==> Writable(ParseAll(s).e)
  {
    OperandsWritable(s, None, First);
  }
}
