/** The language of regular expressions: abstract syntax, meaning and concrete syntax. */
module RegexSyntax {
  import opened Graphs
  import opened Languages
  import opened Profiles

  /** Sets and characters are lists of inclusive ranges. */
  datatype Re =
    | Nothing
    | Chars(from: seq<Char32>, to: seq<Char32>)
    | NotChars(from: seq<Char32>, to: seq<Char32>)
    | Repeat(e: Re, atLeastOnce: bool)
    | Optional(e: Re)
    | Not(e: Re)
    | Seq(e1: Re, e2: Re)
    | Or(e1: Re, e2: Re)
    | And(e1: Re, e2: Re)
    | AndNot(e1: Re, e2: Re)

  /** The words a regular expression describes. */
  ghost function Denote(e: Re): Lang {
    match e
    case Nothing => iset{[]}
    case Chars(from, to) => if |from| == |to| then CharLang(from, to) else iset{}
    case NotChars(from, to) => CharLang([0], [MAXCHAR]) - if |from| == |to| then CharLang(from, to) else iset{}
    case Repeat(e1, one) => if one then Plus(Denote(e1)) else Star(Denote(e1))
    case Optional(e1) => Denote(e1) + iset{[]}
    case Not(e1) => WordsUpTo(MAXCHAR) - Denote(e1)
    case Seq(e1, e2) => Concat(Denote(e1), Denote(e2))
    case Or(e1, e2) => Denote(e1) + Denote(e2)
    case And(e1, e2) => Denote(e1) * Denote(e2)
    case AndNot(e1, e2) => Denote(e1) - Denote(e2)
  }

  /** !e stands for .* &! e */
  lemma NotIsAllBut(e: Re)
    ensures Denote(Not(e)) == Denote(AndNot(Repeat(Chars([0], [MAXCHAR]), false), e))
  {
    StarOfAll(MAXCHAR);
    var all := Chars([0], [MAXCHAR]);
    assert Denote(all) == CharLang([0], [MAXCHAR]);
    assert Denote(Repeat(all, false)) == Star(Denote(all));
    assert Denote(AndNot(Repeat(all, false), e)) == Denote(Repeat(all, false)) - Denote(e);
  }

  /** Some set contains a range from > to. */
  predicate Inverted(e: Re) {
    match e
    case Nothing => false
    case Chars(from, to) => RangesInverted(from, to)
    case NotChars(from, to) => RangesInverted(from, to)
    case Repeat(e1, _) => Inverted(e1)
    case Optional(e1) => Inverted(e1)
    case Not(e1) => Inverted(e1)
    case Seq(e1, e2) => Inverted(e1) || Inverted(e2)
    case Or(e1, e2) => Inverted(e1) || Inverted(e2)
    case And(e1, e2) => Inverted(e1) || Inverted(e2)
    case AndNot(e1, e2) => Inverted(e1) || Inverted(e2)
  }

  /** Where words lead to in the automaton of an expression. What opnot, opand and opandnot make has no range
      from > to any more. */
  ghost function ProfileFor(e: Re): Profile {
    match e
    case Nothing => NothingProfile()
    case Chars(from, to) => if |from| == |to| then SetProfile(from, to) else NothingProfile()
    case NotChars(from, to) => Profile(iset{[]} + CharLang([0], [MAXCHAR]), iset{}, false)
    case Repeat(e1, _) => LoopOfProfile(Denote(e1), ProfileFor(e1))
    case Optional(e1) => OrOfProfiles(ProfileFor(e1), NothingProfile())
    case Not(e1) => Profile(WordsUpTo(MAXCHAR), iset{}, false)
    case Seq(e1, e2) => SequenceOfProfiles(Denote(e1), ProfileFor(e1), Denote(e2), ProfileFor(e2))
    case Or(e1, e2) => OrOfProfiles(ProfileFor(e1), ProfileFor(e2))
    case And(e1, e2) => Profile(ProfileFor(e1).goes * ProfileFor(e2).goes, iset{}, false)
    case AndNot(e1, e2) => Profile(ProfileFor(e1).goes, iset{}, false)
  }

  /** An operation on the way to the automaton of e fails: of the words it has to follow one leads to a range
      from > to. */
  ghost predicate Rejects(e: Re) {
    match e
    case Nothing => false
    case Chars(from, to) => false
    case NotChars(from, to) => RangesInverted(from, to)
    case Repeat(e1, _) => Rejects(e1)
    case Optional(e1) => Rejects(e1)
    case Not(e1) => Rejects(e1) || Overlap(ProfileFor(e1).hots, WordsUpTo(MAXCHAR))
    case Seq(e1, e2) => Rejects(e1) || Rejects(e2)
    case Or(e1, e2) => Rejects(e1) || Rejects(e2)
    case And(e1, e2) => Rejects(e1) || Rejects(e2) || Overlap(ProfileFor(e1).hots + ProfileFor(e2).hots,
      ProfileFor(e1).goes * ProfileFor(e2).goes)
    case AndNot(e1, e2) => Rejects(e1) || Rejects(e2) || Overlap(ProfileFor(e1).hots + ProfileFor(e2).hots,
      ProfileFor(e1).goes)
  }

  /** There is no matcher for e: an operation fails, or the minimisation at the end. */
  ghost predicate NoMatcher(e: Re) {
    Rejects(e) || ProfileFor(e).tail
  }

  /** Without a range from > to nothing fails. */
  lemma {:induction false} OrderedHasMatcher(e: Re)
    requires !Inverted(e)
    ensures !NoMatcher(e) && ProfileFor(e).hots == iset{}
  {
    match e
    case Nothing =>
    case Chars(_, _) =>
    case NotChars(_, _) =>
    case Repeat(e1, _) => OrderedHasMatcher(e1);
    case Optional(e1) => OrderedHasMatcher(e1);
    case Not(e1) => OrderedHasMatcher(e1);
    case Seq(e1, e2) =>
      OrderedHasMatcher(e1);
      OrderedHasMatcher(e2);
    case Or(e1, e2) =>
      OrderedHasMatcher(e1);
      OrderedHasMatcher(e2);
    case And(e1, e2) =>
      OrderedHasMatcher(e1);
      OrderedHasMatcher(e2);
    case AndNot(e1, e2) =>
      OrderedHasMatcher(e1);
      OrderedHasMatcher(e2);
  }

  /** A range from > to need not be met: c & x[d-c] has a matcher unless x is the character c. */
  lemma NotAlwaysMet(c: Char32, x: Char32, d: Char32)
    requires d > c
    ensures NoMatcher(And(Chars([c], [c]), Seq(Chars([x], [x]), Chars([d], [c])))) <==> x == c
    ensures Inverted(And(Chars([c], [c]), Seq(Chars([x], [x]), Chars([d], [c]))))
  {
    var e1, e2, e3 := Chars([c], [c]), Chars([x], [x]), Chars([d], [c]);
    assert RangesInverted([d], [c]);
    assert !RangesInverted([x], [x]) && !RangesInverted([c], [c]);
    assert ProfileFor(e3) == SetProfile([d], [c]);
    assert ProfileFor(Seq(e2, e3)) == SequenceOfProfiles(Denote(e2), ProfileFor(e2), Denote(e3), ProfileFor(e3));
    var p, q := ProfileFor(e1), ProfileFor(Seq(e2, e3));
    forall u: Word ensures u in q.hots <==> u == [x] {
      OneThenNothing(x, u);
    }
    OneChar(c, [x]);
    assert [x][0] == x && [c][0] == c;
    assert [x] in p.goes <==> x == c;
    assert [x] in q.goes && q.hots == iset{[x]} && p.hots == iset{};
    MetOnce(p.hots + q.hots, [x], p.goes * q.goes);
    assert !Rejects(e1) && !Rejects(e2) && !Rejects(e3) && !Rejects(Seq(e2, e3));
    assert Rejects(And(e1, Seq(e2, e3))) <==> Overlap(p.hots + q.hots, p.goes * q.goes);
  }

  lemma MetOnce(hots: Lang, u: Word, goes: Lang)
    requires hots == iset{u}
    ensures Overlap(hots, goes) <==> u in goes
  {
  }

  lemma OneChar(c: Char32, u: Word)
    ensures u in CharLang([c], [c]) <==> u == [c]
  {
  }

  lemma OneThenNothing(x: Char32, u: Word)
    ensures u in Concat(CharLang([x], [x]), iset{[]}) <==> u == [x]
  {
    if u in Concat(CharLang([x], [x]), iset{[]}) {
      var k: nat :| Splits(CharLang([x], [x]), iset{[]}, u, k);
      OneChar(x, u[..k]);
      assert u == u[..k] + u[k..];
    }
    if u == [x] {
      OneChar(x, u[..1]);
      assert u[..1] == [x] && u[1..] == [];
      assert Splits(CharLang([x], [x]), iset{[]}, u, 1);
    }
  }

  const SPACE: Char32 := 32     // ' ', which also stands for the end of the input
  const BANG: Char32 := 33      // '!'
  const AMP: Char32 := 38       // '&'
  const LPAR: Char32 := 40      // '('
  const RPAR: Char32 := 41      // ')'
  const STAR: Char32 := 42      // '*'
  const PLUS: Char32 := 43      // '+'
  const MINUS: Char32 := 45     // '-'
  const DOT: Char32 := 46       // '.'
  const QUEST: Char32 := 63     // '?'
  const LBRA: Char32 := 91      // '['
  const BSLASH: Char32 := 92    // '\'
  const RBRA: Char32 := 93      // ']'
  const CARET: Char32 := 94     // '^'
  const BAR: Char32 := 124      // '|'

  /** The input without its leading spaces. */
  function Skip(s: Word): (r: Word)
    ensures |r| <= |s| && (r != [] ==> r[0] != SPACE)
  {
    if s != [] && s[0] == SPACE then Skip(s[1..]) else s
  }

  /** The next character that is not a space, or a space at the end of the input. */
  function Peek(s: Word): Char32 {
    var r := Skip(s);
    if r == [] then SPACE else r[0]
  }

  /** What follows the next character. */
  function After(s: Word): (r: Word)
    ensures |r| <= |s| && (Peek(s) != SPACE ==> |r| < |s|)
  {
    var r := Skip(s);
    if r == [] then [] else r[1..]
  }

  /** An expression has been read, or there is a syntax error; then `rejected` tells
      whether an operation has failed before. */
  datatype Parsed = Parsed(e: Re, rest: Word) | Failed(rejected: bool)

  /** An operation has failed. */
  ghost predicate Rejected(p: Parsed) {
    match p
    case Parsed(e, _) => Rejects(e)
    case Failed(rejected) => rejected
  }

  datatype ParsedSet = ParsedSet(from: seq<Char32>, to: seq<Char32>, rest: Word) | FailedSet

  /** A control code if the character is n, r or t. */
  function Control(c: Char32): Char32 {
    if c == 110 then 10 else if c == 114 then 13 else if c == 116 then 9 else c
  }

  /** The character that starts with `next`; a backslash takes away the special meaning of what follows. */
  function CharAt(next: Char32, s: Word): Char32 {
    if next == BSLASH && s != [] then Control(s[0]) else next
  }

  function CharRest(next: Char32, s: Word): (r: Word)
    ensures |r| <= |s|
  {
    if next == BSLASH && s != [] then s[1..] else s
  }

  /** What comes next in a set: nothing more, the closing bracket, or a range. A range may not end with ']'. */
  datatype SetItem = NoMore | Closing | BadRange | Item(from: Char32, to: Char32)

  function NextItem(s: Word): (r: (SetItem, Word))
    ensures |r.1| <= |s| && (r.0 != NoMore ==> |r.1| < |s|)
  {
    var next, s1 := Peek(s), After(s);
    if next == SPACE then (NoMore, s1)
    else if next == RBRA then (Closing, s1)
    else
      var c, s2 := CharAt(next, s1), CharRest(next, s1);
      if Peek(s2) == MINUS then
        var s3 := After(s2);
        var d, s4 := CharAt(Peek(s3), After(s3)), CharRest(Peek(s3), After(s3));
        (if d == RBRA then BadRange else Item(c, d), s4)
      else (Item(c, c), Skip(s2))
  }

  /** The ranges of a set up to the closing bracket. */
  function ParseSet(s: Word, from: seq<Char32>, to: seq<Char32>): (p: ParsedSet)
    requires |from| == |to|
    ensures p.ParsedSet? ==> |p.from| == |p.to| && |p.rest| < |s|
    decreases |s|
  {
    var (item, rest) := NextItem(s);
    match item
    case NoMore => FailedSet
    case Closing => ParsedSet(from, to, rest)
    case BadRange => FailedSet
    case Item(c, d) => ParseSet(rest, from + [c], to + [d])
  }

  /** A set in brackets, without its opening bracket. */
  function ParseBrackets(s: Word): (p: Parsed)
    ensures p.Parsed? ==> |p.rest| < |s|
  {
    var isNot := Peek(s) == CARET;
    match ParseSet(if isNot then After(s) else Skip(s), [], [])
    case FailedSet => Failed(false)
    case ParsedSet(from, to, rest) =>
      Parsed(if isNot then NotChars(from, to) else if from == [] then Nothing else Chars(from, to), rest)
  }

  /** atom = '(' re ')' | char | set */
  ghost function ParseAtom(s: Word): (p: Parsed)
    ensures p.Parsed? ==> |p.rest| <= |s| && (Peek(s) != SPACE ==> |p.rest| < |s|)
    decreases |s|, 0
  {
    var next, s1 := Peek(s), After(s);
    if next == SPACE then Parsed(Nothing, s1)
    else if next == LPAR then
      match ParseRe(s1)
      case Failed(rejected) => Failed(rejected)
      case Parsed(e, s2) => if Peek(s2) == RPAR then Parsed(e, After(s2)) else Failed(Rejects(e))
    else if next == LBRA then ParseBrackets(s1)
    else if next == DOT then Parsed(Chars([0], [MAXCHAR]), s1)
    else Parsed(Chars([CharAt(next, s1)], [CharAt(next, s1)]), CharRest(next, s1))
  }

  /** Any number of '!', of which only the parity matters. */
  function Nots(s: Word): (r: (bool, Word))
    ensures |r.1| <= |s| && Skip(r.1) == r.1 && Peek(r.1) != BANG
    ensures r.1 == [] || Peek(s) != SPACE
    decreases |s|
  {
    if Peek(s) == BANG then
      var r := Nots(After(s));
      (!r.0, r.1)
    else
      SkipTwice(s);
      (false, Skip(s))
  }

  lemma SkipTwice(s: Word)
    ensures Skip(Skip(s)) == Skip(s)
  {
  }

  predicate NoAtom(next: Char32) {
    next == STAR || next == PLUS || next == BAR || next == AMP || next == RPAR || next == RBRA || next == QUEST
  }

  /** What a repeat operator makes of the atom. */
  function Repeated(e: Re, next: Char32): Re {
    if next == STAR || next == PLUS then Repeat(e, next == PLUS) else if next == QUEST then Optional(e) else e
  }

  /** not? atom repeat? : the repeat operator is applied before the not operator. */
  ghost function ParseFactor(s: Word): (p: Parsed)
    ensures p.Parsed? ==> |p.rest| <= |s| && Skip(p.rest) == p.rest && (p.rest != [] ==> |p.rest| < |s|)
    decreases |s|, 1
  {
    var (isNot, s1) := Nots(s);
    if NoAtom(Peek(s1)) then Failed(false)
    else match ParseAtom(s1)
      case Failed(rejected) => Failed(rejected)
      case Parsed(e, s2) =>
        var next := Peek(s2);
        var e1 := Repeated(e, next);
        var s3 := if next == STAR || next == PLUS || next == QUEST then After(s2) else s2;
        SkipTwice(s3);
        Parsed(if isNot then Not(e1) else e1, Skip(s3))
  }

  datatype Option<T> = None | Some(value: T)

  function InSequence(acc: Option<Re>, e: Re): Re {
    match acc
    case None => e
    case Some(a) => Seq(a, e)
  }

  ghost predicate RejectedBefore(acc: Option<Re>) {
    acc.Some? && Rejects(acc.value)
  }

  predicate EndsSequence(next: Char32) {
    next == SPACE || next == BAR || next == AMP || next == RPAR
  }

  /** seq = ( not? atom repeat? )+ */
  ghost function ParseSequence(s: Word, acc: Option<Re>): (p: Parsed)
    ensures p.Parsed? ==> |p.rest| <= |s| && Skip(p.rest) == p.rest && EndsSequence(Peek(p.rest))
    decreases |s|, 2
  {
    match ParseFactor(s)
    case Failed(rejected) => Failed(rejected || RejectedBefore(acc))
    case Parsed(e, s1) =>
      if EndsSequence(Peek(s1)) then Parsed(InSequence(acc, e), s1)
      else ParseSequence(s1, Some(InSequence(acc, e)))
  }

  datatype Operator = First | OpOr | OpAnd | OpAndNot

  /** acc op e; for the first operand there is no acc. */
  function Combined(acc: Option<Re>, op: Operator, e: Re): Re {
    match acc
    case None => e
    case Some(a) => match op
      case First => e
      case OpOr => Or(a, e)
      case OpAnd => And(a, e)
      case OpAndNot => AndNot(a, e)
  }

  /** An operand: a sequence, which may be left out before an operator or a closing parenthesis. */
  ghost function ParseOperand(s: Word): (p: Parsed)
    ensures p.Parsed? ==> |p.rest| <= |s| && Skip(p.rest) == p.rest && EndsSequence(Peek(p.rest))
    decreases |s|, 3
  {
    var next := Peek(s);
    if next == BAR || next == AMP || next == RPAR then
      SkipTwice(s);
      Parsed(Nothing, Skip(s))
    else ParseSequence(s, None)
  }

  /** The operator that follows an operand, if there is one, and what comes after it. */
  function NextOperator(s: Word): (r: (Operator, Word))
    ensures |r.1| <= |s| && (r.0 != First ==> |r.1| < |s|) && (r.0 == First ==> r.1 == s)
  {
    var next, s1 := Peek(s), After(s);
    if next == BAR then (OpOr, Skip(s1))
    else if next == AMP then
      if s1 != [] && s1[0] == BANG then (OpAndNot, Skip(s1[1..])) else (OpAnd, Skip(s1))
    else (First, s)
  }

  /** re = seq? ( ( '|' | '&' | '&!' ) seq? )* : all three operators have one precedence. */
  ghost function ParseOperands(s: Word, acc: Option<Re>, op: Operator): (p: Parsed)
    ensures p.Parsed? ==> |p.rest| <= |s| && (p.rest == [] || Peek(p.rest) == RPAR)
    decreases |s|, 4
  {
    match ParseOperand(s)
    case Failed(rejected) => Failed(rejected || RejectedBefore(acc))
    case Parsed(e, s1) =>
      var (next, s2) := NextOperator(s1);
      if next == First then Parsed(Combined(acc, op, e), s1) else ParseOperands(s2, Some(Combined(acc, op, e)), next)
  }

  ghost function ParseRe(s: Word): (p: Parsed)
    ensures p.Parsed? ==> |p.rest| <= |s| && (p.rest == [] || Peek(p.rest) == RPAR)
    decreases |s|, 5
  {
    ParseOperands(s, None, First)
  }

  /** The whole input is one expression. */
  ghost function ParseAll(s: Word): Parsed {
    match ParseRe(s)
    case Failed(rejected) => Failed(rejected)
    case Parsed(e, rest) => if Peek(rest) == SPACE then Parsed(e, []) else Failed(Rejects(e))
  }

  /** That an operation has failed is not forgotten. */
  lemma {:induction false} SequenceRemembers(s: Word, acc: Option<Re>)
    ensures RejectedBefore(acc) ==> Rejected(ParseSequence(s, acc))
    ensures Rejected(ParseFactor(s)) ==> Rejected(ParseSequence(s, acc))
    decreases |s|
  {
    var p := ParseFactor(s);
    if p.Parsed? && !EndsSequence(Peek(p.rest)) {
      SequenceRemembers(p.rest, Some(InSequence(acc, p.e)));
    }
  }

  /** An operation has failed when the operand p has been combined with those before. */
  ghost predicate RejectedWith(acc: Option<Re>, op: Operator, p: Parsed) {
    match p
    case Parsed(e, _) => Rejects(Combined(acc, op, e))
    case Failed(rejected) => rejected
  }

  lemma {:induction false} OperandsRemember(s: Word, acc: Option<Re>, op: Operator)
    requires op == First <==> acc == None
    ensures RejectedBefore(acc) ==> Rejected(ParseOperands(s, acc, op))
    ensures Rejected(ParseOperand(s)) ==> RejectedWith(acc, op, ParseOperand(s))
    ensures RejectedWith(acc, op, ParseOperand(s)) ==> Rejected(ParseOperands(s, acc, op))
    decreases |s|
  {
    var p := ParseOperand(s);
    if p.Parsed? {
      var (next, s2) := NextOperator(p.rest);
      if next != First {
        OperandsRemember(s2, Some(Combined(acc, op, p.e)), next);
      }
    }
  }

  /** Leading spaces do not matter. */
  lemma OperandSkip(s: Word)
    ensures ParseOperand(Skip(s)) == ParseOperand(s)
  {
    SkipTwice(s);
    NotsSkip(s);
    assert ParseFactor(Skip(s)) == ParseFactor(s);
  }

  lemma NotsSkip(s: Word)
    ensures Nots(Skip(s)) == Nots(s)
  {
    SkipTwice(s);
  }

  lemma ReSkip(s: Word)
    ensures ParseOperands(Skip(s), None, First) == ParseRe(s)
  {
    OperandSkip(s);
  }

  lemma OperandsStep(s: Word, acc: Option<Re>, op: Operator)
    requires ParseOperand(s).Parsed?
    ensures var p := ParseOperand(s);
      var (next, s2) := NextOperator(p.rest);
      ParseOperands(s, acc, op) ==
        if next == First then Parsed(Combined(acc, op, p.e), p.rest)
        else ParseOperands(s2, Some(Combined(acc, op, p.e)), next)
  {
  }
}
