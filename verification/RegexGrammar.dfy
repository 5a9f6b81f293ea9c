/** The grammar of regular expressions as a language of texts: trees of tokens, what their text is, and
    which expression they stand for. Every token may be followed by spaces. */
module RegexGrammar {
  import opened Graphs
  import opened Languages
  import opened RegexSyntax

  /** char: a plain one, or one behind a backslash. */
  datatype Letter = Plain(c: Char32) | Escaped(c: Char32)

  /** One or two characters of a set. */
  datatype Range = One(l: Letter, sp: nat) | Span(from: Letter, sp1: nat, sp2: nat, to: Letter, sp: nat)

  datatype Atom =
    | Group(sp: nat, re: Operands)
    | Single(l: Letter)
    | Dot
    | Set(sp: nat, neg: Option<nat>, ranges: seq<Range>)

  datatype Mul = NoMul | Mul(c: Char32, sp: nat)

  /** not? atom repeat?; at the end of the text the atom behind '!' may be left out. */
  datatype Factor =
    | Factor(nots: seq<nat>, atom: Atom, sp: nat, mul: Mul)
    | Dangling(nots: seq<nat>)

  datatype Sequence = Once(f: Factor) | More(q: Sequence, f: Factor)

  datatype Operand = Empty | Factors(q: Sequence)

  datatype Operands = Just(o: Operand) | Next(os: Operands, op: Operator, sp: nat, o: Operand)

  // ---- texts

  function Spaces(n: nat): Word {
    seq(n, _ => SPACE)
  }

  function LetterText(l: Letter): Word {
    match l
    case Plain(c) => [c]
    case Escaped(c) => [BSLASH, c]
  }

  function RangeText(r: Range): Word {
    match r
    case One(l, sp) => LetterText(l) + Spaces(sp)
    case Span(from, sp1, sp2, to, sp) =>
      LetterText(from) + (Spaces(sp1) + ([MINUS] + (Spaces(sp2) + (LetterText(to) + Spaces(sp)))))
  }

  function RangesText(rs: seq<Range>): Word {
    if rs == [] then [] else RangeText(rs[0]) + RangesText(rs[1..])
  }

  function NotsText(nots: seq<nat>): Word {
    if nots == [] then [] else [BANG] + (Spaces(nots[0]) + NotsText(nots[1..]))
  }

  function NegText(neg: Option<nat>): Word {
    match neg
    case None => []
    case Some(sp) => [CARET] + Spaces(sp)
  }

  function MulText(m: Mul): Word {
    match m
    case NoMul => []
    case Mul(c, sp) => [c] + Spaces(sp)
  }

  function OperatorText(op: Operator): Word {
    match op
    case First => []
    case OpOr => [BAR]
    case OpAnd => [AMP]
    case OpAndNot => [AMP, BANG]
  }

  function AtomText(a: Atom): Word {
    match a
    case Group(sp, re) => [LPAR] + (Spaces(sp) + (Text(re) + [RPAR]))
    case Single(l) => LetterText(l)
    case Dot => [DOT]
    case Set(sp, neg, rs) => [LBRA] + (Spaces(sp) + (NegText(neg) + (RangesText(rs) + [RBRA])))
  }

  function FactorText(f: Factor): Word {
    match f
    case Factor(nots, a, sp, m) => NotsText(nots) + (AtomText(a) + (Spaces(sp) + MulText(m)))
    case Dangling(nots) => NotsText(nots)
  }

  function SequenceText(q: Sequence): Word {
    match q
    case Once(f) => FactorText(f)
    case More(q1, f) => SequenceText(q1) + FactorText(f)
  }

  function OperandText(o: Operand): Word {
    match o
    case Empty => []
    case Factors(q) => SequenceText(q)
  }

  function Text(re: Operands): Word {
    match re
    case Just(o) => OperandText(o)
    case Next(os, op, sp, o) => Text(os) + (OperatorText(op) + (Spaces(sp) + OperandText(o)))
  }

  // ---- what the texts stand for

  function Meant(l: Letter): Char32 {
    match l
    case Plain(c) => c
    case Escaped(c) => Control(c)
  }

  function Lower(r: Range): Char32 {
    match r
    case One(l, _) => Meant(l)
    case Span(from, _, _, _, _) => Meant(from)
  }

  function Upper(r: Range): Char32 {
    match r
    case One(l, _) => Meant(l)
    case Span(_, _, _, to, _) => Meant(to)
  }

  function Lowers(rs: seq<Range>): seq<Char32> {
    seq(|rs|, i requires 0 <= i < |rs| => Lower(rs[i]))
  }

  function Uppers(rs: seq<Range>): seq<Char32> {
    seq(|rs|, i requires 0 <= i < |rs| => Upper(rs[i]))
  }

  function AtomMeans(a: Atom): Re {
    match a
    case Group(_, re) => Means(re)
    case Single(l) => Chars([Meant(l)], [Meant(l)])
    case Dot => Chars([0], [MAXCHAR])
    case Set(_, neg, rs) =>
      if neg.Some? then NotChars(Lowers(rs), Uppers(rs))
      else if rs == [] then Nothing else Chars(Lowers(rs), Uppers(rs))
  }

  function Negated(nots: seq<nat>, e: Re): Re {
    if |nots| % 2 == 1 then Not(e) else e
  }

  function FactorMeans(f: Factor): Re {
    match f
    case Factor(nots, a, _, m) => Negated(nots, RegexSyntax.Repeated(AtomMeans(a), if m.Mul? then m.c else SPACE))
    case Dangling(nots) => Negated(nots, Nothing)
  }

  function SequenceMeans(q: Sequence): Re {
    match q
    case Once(f) => FactorMeans(f)
    case More(q1, f) => Seq(SequenceMeans(q1), FactorMeans(f))
  }

  function OperandMeans(o: Operand): Re {
    match o
    case Empty => Nothing
    case Factors(q) => SequenceMeans(q)
  }

  function Means(re: Operands): Re {
    match re
    case Just(o) => OperandMeans(o)
    case Next(os, op, _, o) => Combined(Some(Means(os)), op, OperandMeans(o))
  }

  // ---- which trees are allowed

  predicate IsMul(c: Char32) {
    c == STAR || c == PLUS || c == QUEST
  }

  /** A character outside of a set. Nothing follows a plain backslash, which would be an escape otherwise. */
  predicate LetterOk(l: Letter, last: bool) {
    l.Plain? ==>
      && l.c != SPACE && l.c != BANG && l.c != LPAR && l.c != LBRA && l.c != DOT && !NoAtom(l.c)
      && (l.c == BSLASH ==> last)
  }

  /** A character of a set. */
  predicate InSet(l: Letter) {
    l.Plain? ==> l.c != SPACE && l.c != BSLASH && l.c != RBRA
  }

  /** The upper bound of a range must not be ']', not even behind a backslash. */
  predicate RangeOk(r: Range) {
    match r
    case One(l, _) => InSet(l)
    case Span(from, _, _, to, _) => InSet(from) && InSet(to) && Meant(to) != RBRA
  }

  function FirstLetter(r: Range): Letter {
    match r
    case One(l, _) => l
    case Span(from, _, _, _, _) => from
  }

  /** A character that '-' follows is the lower bound of a range. */
  predicate RangesOk(rs: seq<Range>) {
    forall i :: 0 <= i < |rs| ==>
      RangeOk(rs[i]) && (rs[i].One? && i + 1 < |rs| ==> FirstLetter(rs[i + 1]) != Plain(MINUS))
  }

  predicate SetOk(neg: Option<nat>, rs: seq<Range>) {
    RangesOk(rs) && (neg == None && rs != [] ==> FirstLetter(rs[0]) != Plain(CARET))
  }

  predicate AtomOk(a: Atom, last: bool) {
    match a
    case Group(_, re) => Ok(re, false)
    case Single(l) => LetterOk(l, last)
    case Dot => true
    case Set(_, neg, rs) => SetOk(neg, rs)
  }

  /** `end` tells that the text ends with the tree. */
  predicate FactorOk(f: Factor, end: bool) {
    match f
    case Factor(_, a, sp, m) => AtomOk(a, end && sp == 0 && m == NoMul) && (m.Mul? ==> IsMul(m.c))
    case Dangling(nots) => end && nots != []
  }

  predicate SequenceOk(q: Sequence, end: bool) {
    match q
    case Once(f) => FactorOk(f, end)
    case More(q1, f) => SequenceOk(q1, false) && FactorOk(f, end)
  }

  predicate OperandOk(o: Operand, end: bool) {
    match o
    case Empty => true
    case Factors(q) => SequenceOk(q, end)
  }

  /** "&!" is one operator: a '!' that belongs to the operand stands behind a space. */
  predicate Ok(re: Operands, end: bool) {
    match re
    case Just(o) => OperandOk(o, end)
    case Next(os, op, sp, o) =>
      && Ok(os, false) && op != First && OperandOk(o, end)
      && (op == OpAnd && sp == 0 ==> OperandText(o) == [] || OperandText(o)[0] != BANG)
  }

  /** The text s is an expression that stands for e. */
  ghost predicate Derives(s: Word, e: Re) {
    exists sp: nat, re: Operands :: s == Spaces(sp) + Text(re) && Ok(re, true) && Means(re) == e
  }
}
