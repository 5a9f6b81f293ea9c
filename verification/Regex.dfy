/** regexpr_t: the compiler from regular expressions to automata. */
module Regex {
  import opened Graphs
  import opened Languages
  import opened Thompson
  import opened Chains
  import opened Glue
  import opened Profiles
  import opened Automata
  import opened Subset
  import opened DfaOps
  import opened Visiting
  import opened Brzozowski
  import opened RegexSyntax
  import RegexGrammar
  import RegexSound

  datatype Error = NoError | ESYNTAX | InvalidRange

  /** The automaton st, made since g0 out of new states only, accepts L. */
  ghost predicate Part(g0: Graph, g: Graph, st: seq<nat>, L: Lang) {
    var n := |st|;
    && n >= 2 && WellFormed(g, st) && LangOf(g, st) == L && Acyclic(g, st)
    && Untouched(g0, g, {}) && forall p :: p in st ==> p !in g0
  }

  /** The automaton accepts what the expression describes, and its words lead where those of the expression do;
      no operation has failed. */
  ghost predicate Compiled(g0: Graph, g: Graph, st: seq<nat>, e: Re) {
    && Part(g0, g, st, Denote(e)) && ProfileIs(g, st, ProfileFor(e)) && !Rejects(e)
  }

  ghost predicate ProfileIs(g: Graph, st: seq<nat>, p: Profile) {
    st != [] && ProfileOf(g, st) == p
  }

  /** An automaton is not touched while others are built out of new states. */
  lemma PartBeside(g0: Graph, g: Graph, st: seq<nat>, L: Lang, g': Graph)
    requires Part(g0, g, st, L) && Untouched(g, g', {})
    ensures Part(g0, g', st, L) && st != [] && ProfileOf(g', st) == ProfileOf(g, st)
  {
    hide LangOf, Ranked, BackRanked, ProfileOf;
    Lengths(g, st);
    assert Agree(g, g', States(st));
    LangFrame(g, g', st);
    RankFrame(g, g', st);
    ProfileFrame(g, g', st);
  }

  /** What is new since g1 is new since g0. */
  lemma PartSince(g0: Graph, g1: Graph, g: Graph, st: seq<nat>, L: Lang)
    requires Part(g1, g, st, L) && Untouched(g0, g1, {})
    ensures Part(g0, g, st, L)
  {
    hide LangOf, WellFormed, Acyclic;
  }

  lemma PartsDisjoint(g0: Graph, g1: Graph, st1: seq<nat>, L1: Lang, g2: Graph, st2: seq<nat>, L2: Lang)
    requires Part(g0, g1, st1, L1) && Part(g1, g2, st2, L2)
    ensures Disjoint(st1, st2) && Disjoint(st2, st1)
  {
    hide LangOf, Acyclic;
    Lengths(g1, st1);
    forall p | p in st1 ensures p !in st2 {
      assert p in States(st1);
    }
  }

  lemma PartOk(g0: Graph, g: Graph, st: seq<nat>, L: Lang)
    requires Part(g0, g, st, L)
    ensures |st| >= 2 && WellFormed(g, st) && Ranked(g, st)
    ensures Acyclic(g, st) && LangOf(g, st) == L && Untouched(g0, g, {})
    ensures forall p :: p in st ==> p !in g0
  {
    hide WellFormed, Ranked, BackRanked, LangOf;
  }

  lemma BuiltPart(g0: Graph, g: Graph, st: seq<nat>, L: Lang)
    requires Built(g0, g, {}, st, L) && Acyclic(g, st)
    ensures Part(g0, g, st, L)
  {
    WellFormedLength(g, st);
    hide LangOf, WellFormed, Acyclic;
  }

  /** An operation on automata made of new states makes one of new states. */
  lemma ConfinedPart(g0: Graph, g: Graph, own: set<nat>, g': Graph, st: seq<nat>)
    requires Untouched(g0, g, {}) && (forall p :: p in own ==> p !in g0) && Confined(g, g', own, st)
    ensures Untouched(g0, g', {}) && forall p :: p in st ==> p !in g0
  {
  }

  lemma GluedPart(g0: Graph, g: Graph, a: seq<nat>, La: Lang, b: seq<nat>, Lb: Lang, g': Graph, st: seq<nat>,
                  L: Lang)
    requires Part(g0, g, a, La) && (b == [] || Part(g0, g, b, Lb)) && GlueResult(g, g', a, b, st, L)
    ensures Part(g0, g', st, L)
  {
    BuiltFrom(g, g', States(a) + States(b), st, L);
    WellFormedLength(g', st);
    hide LangOf, WellFormed, Acyclic;
    ConfinedPart(g0, g, States(a) + States(b), g', st);
  }

  lemma PairPart(g0: Graph, g: Graph, a: seq<nat>, La: Lang, b: seq<nat>, Lb: Lang, g': Graph, st: seq<nat>,
                 L: Lang)
    requires Part(g0, g, a, La) && Part(g0, g, b, Lb) && GlueResult(g, g', a, b, st, L)
    ensures Part(g0, g', st, L)
  {
    hide Part, GlueResult;
    PartOk(g0, g, b, Lb);
    GluedPart(g0, g, a, La, b, Lb, g', st, L);
  }

  /** Two parts are ready for an operation on both of them. */
  lemma PartsOk(g0: Graph, g1: Graph, g: Graph, a: seq<nat>, La: Lang, b: seq<nat>, Lb: Lang)
    requires Part(g0, g, a, La) && Part(g1, g, b, Lb) && Untouched(g0, g1, {})
    ensures Part(g0, g, b, Lb) && |a| >= 2 && |b| >= 2
    ensures WellFormed(g, a) && WellFormed(g, b) && Ranked(g, a)
    ensures Ranked(g, b) && LangOf(g, a) == La && LangOf(g, b) == Lb
  {
    hide Part;
    PartSince(g0, g1, g, b, Lb);
    PartOk(g0, g, a, La);
    PartOk(g0, g, b, Lb);
  }

  lemma DfaPart(g0: Graph, g: Graph, op: Op, a: seq<nat>, La: Lang, b: seq<nat>, Lb: Lang, g': Graph, st: seq<nat>)
    requires op != ONE && Part(g0, g, a, La) && Part(g0, g, b, Lb) && DfaResult(g, op, a, b, g', st)
    ensures Part(g0, g', st, if op == AND then La * Lb else La - Lb) && a != [] && b != []
    ensures ProfileIs(g', st, Profile(Followed(op, ProfileOf(g, a), ProfileOf(g, b)), iset{}, false))
  {
    hide ProfileOf;
    BuiltFrom(g, g', States(a) + States(b), st, OpLang(g, op, a, b));
    WellFormedLength(g', st);
    hide LangOf, WellFormed, Acyclic, Deterministic;
    ConfinedPart(g0, g, States(a) + States(b), g', st);
  }

  lemma NotPart(g0: Graph, g: Graph, a: seq<nat>, La: Lang, g': Graph, st: seq<nat>, L: Lang)
    requires Part(g0, g, a, La) && Built(g, g', States(a), st, L) && Acyclic(g', st)
    ensures Part(g0, g', st, L)
  {
    BuiltFrom(g, g', States(a), st, L);
    WellFormedLength(g', st);
    hide LangOf, WellFormed, Acyclic;
    ConfinedPart(g0, g, States(a), g', st);
  }

  /** buffer_t: the input that is left, and the automaton of what has been read last. */
  class Buffer {
    const h: Heap
    const mman: Automaton      // provides the memory manager of all automata
    var input: Word
    const result: Automaton

    constructor (h: Heap, input: Word)
      requires h.Valid()
      modifies h
      ensures this.h == h && this.input == input && h.Valid() && Untouched(old(h.node), h.node, {})
      ensures h.Since(old(h.owner), old(h.mmans))
      ensures fresh(result) && fresh(mman) && Ready() && result.mman == 0
    {
      this.h, this.input := h, input;
      var m := new Automaton();
      var r := new Automaton();
      mman, result := m, r;
      new;
      m.InitEmpty(h, 0);
    }

    ghost predicate Ready()
      reads h, result, mman
    {
      h.Valid() && result.IsFree() && 0 < mman.mman <= h.mmans && result != mman
    }

    /** read_next */
    method ReadNext() returns (next: Char32)
      modifies this`input
      ensures next == Peek(old(input)) && input == After(old(input))
    {
      next := SPACE;
      while input != [] && next == SPACE
        invariant next == SPACE ==> Skip(input) == Skip(old(input))
        invariant next != SPACE ==> next == Peek(old(input)) && input == After(old(input))
        decreases |input|
      {
        next := input[0];
        input := input[1..];
      }
    }

    /** skip_next */
    method SkipNext()
      requires input != []
      modifies this`input
      ensures input == old(input)[1..]
    {
      input := input[1..];
    }

    /** peek_next */
    method PeekNext() returns (next: Char32)
      modifies this`input
      ensures next == Peek(old(input)) && input == Skip(old(input))
      ensures next == Peek(input) && Skip(input) == input && |input| <= |old(input)|
    {
      while input != [] && input[0] == SPACE
        invariant Skip(input) == Skip(old(input))
        decreases |input|
      {
        input := input[1..];
      }
      next := if input == [] then SPACE else input[0];
    }

    /** parse_char */
    method ParseChar(next: Char32) returns (chr: Char32)
      modifies this`input
      ensures if next == 92 && old(input) != [] then old(input) == [old(input)[0]] + input
          && chr == match old(input)[0] { case 110 => 10 case 114 => 13 case 116 => 9 case _ => old(input)[0] }
        else chr == next && input == old(input)
      ensures chr == CharAt(next, old(input)) && input == CharRest(next, old(input))
    {
      chr := next;
      if next == BSLASH && input != [] {
        chr := input[0];
        input := input[1..];
        if chr == 110 {
          chr := 10;
        } else if chr == 114 {
          chr := 13;
        } else if chr == 116 {
          chr := 9;
        }
      }
    }

    /** The automaton of the expression e has been made since g0. */
    ghost predicate Done(g0: Graph, e: Re)
      reads h, result, mman
    {
      && h.Valid() && 0 < mman.mman <= h.mmans && result != mman && h.Owned(result.states, result.mman)
      && Compiled(g0, h.node, result.states, e)
    }

    /** After an error only new states have been made. */
    ghost predicate Broken(g0: Graph)
      reads h, result, mman
    {
      h.Valid() && 0 < mman.mman <= h.mmans && result != mman && Untouched(g0, h.node, {})
    }

    /** initempty_automat(&buffer->result, &buffer->mman) */
    method InitNothing()
      requires Ready()
      modifies result, h
      ensures h.Since(old(h.owner), old(h.mmans))
      ensures Done(old(h.node), Nothing)
    {
      hide Built, Acyclic, Part, Stays, OwnedBy, ProfileOf;
      ghost var g := h.node;
      result.InitEmpty(h, mman.mman);
      BuiltPart(g, h.node, result.states, iset{[]});
    }

    /** initmatch_automat(&buffer->result, &buffer->mman, 1, { from }, { to }) */
    method InitRange(from: Char32, to: Char32)
      requires Ready()
      modifies result, h
      ensures h.Since(old(h.owner), old(h.mmans))
      ensures Done(old(h.node), Chars([from], [to])) && SetBuilt(h.node, result.states, [from], [to])
    {
      hide Built, Acyclic, Part, Matcher, CharLang, Stays, OwnedBy, ProfileOf;
      ghost var g := h.node;
      result.InitMatch(h, mman.mman, [from], [to]);
      BuiltFrom(g, h.node, {}, result.states, CharLang([from], [to]));
      WellFormedLength(h.node, result.states);
      SetProfiled(h.node, result.states, [from], [to]);
      BuiltPart(g, h.node, result.states, CharLang([from], [to]));
    }

    /** extendmatch_automat(&buffer->result, 1, { c }, { d }) */
    method ExtendRange(ghost g0: Graph, ghost from: seq<Char32>, ghost to: seq<Char32>, c: Char32, d: Char32)
      requires Done(g0, Chars(from, to)) && |from| == |to| && SetBuilt(h.node, result.states, from, to)
      modifies result, h
      ensures h.Since(old(h.owner), old(h.mmans))
      ensures Done(g0, Chars(from + [c], to + [d])) && SetBuilt(h.node, result.states, from + [c], to + [d])
    {
      hide Built, Acyclic, Part, Matcher, CharLang, LangOf, WellFormed, Stays, OwnedBy, ProfileOf;
      StaysSame(h.owner);
      ghost var g, L := h.node, CharLang(from, to);
      PartOk(g0, g, result.states, L);
      SetOk(g, result.states, from, to);
      var _ := result.ExtendMatch(h, [c], [d]);
      MoreRanges(from, to, c, d);
      SetMore(g, h.node, result.states, from, to, c, d);
      SetProfiled(h.node, result.states, from + [c], to + [d]);
      ExtendedPart(g0, g, h.node, result.states, L, CharLang(from + [c], to + [d]));
    }

    /** operator_not: all characters but those of the set. */
    method OperatorNot(ghost g0: Graph, ghost from: seq<Char32>, ghost to: seq<Char32>) returns (err: Error)
      requires |from| == |to| && Done(g0, if from == [] then Nothing else Chars(from, to))
      modifies result, h
      ensures h.Since(old(h.owner), old(h.mmans))
      ensures err != ESYNTAX && Broken(g0)
      ensures err == NoError ==> Done(g0, NotChars(from, to))
      ensures err == InvalidRange <==> RangesInverted(from, to)
    {
      hide Built, Acyclic, Part, Matcher, CharLang, LangOf, WellFormed, Ranked, DfaResult, Untouched, GlueResult,
        MeetsInverted, Stays, OwnedBy, ProfileOf, ProfileFor, Denote, Overlap, RangesInverted;
      ghost var g, st := h.node, result.states;
      ghost var e0 := if from == [] then Nothing else Chars(from, to);
      PartOk(g0, g, st, Denote(e0));
      var notchar := new Automaton();
      notchar.InitMatch(h, mman.mman, [0], [MAXCHAR]);
      ghost var o := h.owner;
      OwnedStays(old(h.owner), o, st, result.mman);
      ghost var g1, st1, L1 := h.node, notchar.states, CharLang([0], [MAXCHAR]);
      BuiltFrom(g, g1, {}, st1, L1);
      WellFormedLength(g1, st1);
      SetProfiled(g1, st1, [0], [MAXCHAR]);
      BuiltPart(g, g1, st1, L1);
      PartBoth(g0, g, st, Denote(e0), g1, st1, L1);
      MeetsProfile(g1, AND_NOT, st1, st);
      NotCharsMeets(from, to);
      var er := DfaOps.Combine(h, notchar, AND_NOT, result);
      StaysTwice(old(h.owner), o, h.owner);
      UntouchedBoth(g0, g1, st1, L1, st, Denote(e0), h.node);
      if er != OK {
        return InvalidRange;
      }
      DfaPart(g0, g1, AND_NOT, st1, L1, st, Denote(e0), h.node, notchar.states);
      NotCharsLang(from, to);
      result.InitMove(notchar);
      return NoError;
    }

    /** operator_optional */
    method OperatorOptional(ghost g0: Graph, ghost e: Re)
      requires Done(g0, e)
      modifies result, h
      ensures h.Since(old(h.owner), old(h.mmans))
      ensures Done(g0, Optional(e))
    {
      hide Built, Acyclic, Part, LangOf, WellFormed, Ranked, Untouched, GlueResult, Denote, ProfileFor, Rejects, Concat,
        Disjoint, Stays, OwnedBy, ProfileOf, OrOfProfiles, NothingProfile;
      ghost var g, st, L := h.node, result.states, Denote(e);
      PartOk(g0, g, st, L);
      var empty := new Automaton();
      empty.InitEmpty(h, mman.mman);
      ghost var o := h.owner;
      OwnedStays(old(h.owner), o, st, result.mman);
      ghost var g1, st1 := h.node, empty.states;
      BuiltPart(g, g1, st1, iset{[]});
      PartBoth(g0, g, st, L, g1, st1, iset{[]});
      var _ := result.OpOr(h, empty);
      StaysTwice(old(h.owner), o, h.owner);
      GluedPart(g0, g1, st, L, st1, iset{[]}, h.node, result.states, L + iset{[]});
      OptionalLang(e);
    }

    /** oprepeat_automat(&buffer->result, next == '+') */
    method Repeated(isAtLeastOneTime: bool, ghost g0: Graph, ghost e: Re)
      requires Done(g0, e)
      modifies result, h
      ensures h.Since(old(h.owner), old(h.mmans))
      ensures Done(g0, Repeat(e, isAtLeastOneTime))
    {
      hide Built, Acyclic, Part, LangOf, WellFormed, Ranked, Untouched, GlueResult, Denote, ProfileFor, Rejects, Concat,
        Disjoint, Stays, OwnedBy, ProfileOf, LoopOfProfile;
      ghost var g, st, L := h.node, result.states, Denote(e);
      PartOk(g0, g, st, L);
      var _ := result.OpRepeat(h, isAtLeastOneTime);
      RepeatLang(e, isAtLeastOneTime);
      GluedPart(g0, g, st, L, [], iset{}, h.node, result.states, Denote(Repeat(e, isAtLeastOneTime)));
    }

    /** opnot_automat(&buffer->result) */
    method Complement(ghost g0: Graph, ghost e: Re) returns (err: Error)
      requires Done(g0, e)
      modifies result, h
      ensures h.Since(old(h.owner), old(h.mmans))
      ensures err != ESYNTAX && Broken(g0)
      ensures err == NoError ==> Done(g0, Not(e))
      ensures err == InvalidRange ==> Rejects(Not(e))
    {
      hide Built, Acyclic, Part, LangOf, WellFormed, Ranked, Untouched, Deterministic, Denote, ProfileFor, Rejects,
        MeetsUpTo, Stays, OwnedBy, ProfileOf, Overlap, WordsUpTo;
      ghost var g, st, L := h.node, result.states, Denote(e);
      PartOk(g0, g, st, L);
      MeetsUpToProfile(g, st);
      NotLang(e);
      var er := OpNot(h, result);
      UntouchedOne(g0, g, st, L, h.node);
      if er != OK {
        return InvalidRange;
      }
      NotPart(g0, g, st, L, h.node, result.states, Denote(Not(e)));
      return NoError;
    }

    /** The automaton of the operands read so far; it is not the buffer's own one. */
    ghost predicate Pending(acc: Automaton, g0: Graph, e: Re)
      reads h, result, mman, acc
    {
      && acc != result && acc != mman && h.Owned(acc.states, acc.mman)
      && Compiled(g0, h.node, acc.states, e)
    }

    /** opsequence_automat(&seqresult, &buffer->result) */
    method Append(acc: Automaton, ghost g0: Graph, ghost e1: Re, ghost g1: Graph, ghost e2: Re)
      requires Done(g1, e2) && Pending(acc, g0, e1) && Disjoint(acc.states, result.states) && Untouched(g0, g1, {})
      modifies acc, result, h
      ensures h.Since(old(h.owner), old(h.mmans))
      ensures Ready() && Pending(acc, g0, Seq(e1, e2))
    {
      hide Compiled, LangOf, WellFormed, Untouched, GlueResult, Concat, Disjoint, Stays, OwnedBy, ProfileOf,
        SequenceOfProfiles;
      ghost var g, a, b := h.node, acc.states, result.states;
      CompiledOk(g0, g, a, e1);
      CompiledOk(g1, g, b, e2);
      var _ := acc.OpSequence(h, result);
      AppendDone(g0, g1, g, a, e1, b, e2, h.node, acc.states);
    }

    /** opor_automat(&regexresult, &buffer->result) */
    method Alternate(acc: Automaton, ghost g0: Graph, ghost e1: Re, ghost g1: Graph, ghost e2: Re)
      requires Done(g1, e2) && Pending(acc, g0, e1) && Disjoint(acc.states, result.states) && Untouched(g0, g1, {})
      modifies acc, result, h
      ensures h.Since(old(h.owner), old(h.mmans))
      ensures Ready() && Pending(acc, g0, Or(e1, e2))
    {
      hide Compiled, LangOf, WellFormed, Untouched, GlueResult, Disjoint, Stays, OwnedBy, ProfileOf, OrOfProfiles;
      ghost var g, a, b := h.node, acc.states, result.states;
      CompiledOk(g0, g, a, e1);
      CompiledOk(g1, g, b, e2);
      var _ := acc.OpOr(h, result);
      AlternateDone(g0, g1, g, a, e1, b, e2, h.node, acc.states);
    }

    /** opand_automat, opandnot_automat(&regexresult, &buffer->result) */
    method Intersect(acc: Automaton, op: Op, ghost g0: Graph, ghost e1: Re, ghost g1: Graph, ghost e2: Re)
      returns (err: Error)
      requires op != ONE && Done(g1, e2) && Pending(acc, g0, e1)
      requires Disjoint(acc.states, result.states) && Untouched(g0, g1, {})
      modifies acc, result, h
      ensures h.Since(old(h.owner), old(h.mmans))
      ensures err != ESYNTAX && Broken(g0)
      ensures err == NoError ==> Ready() && Pending(acc, g0, if op == AND then And(e1, e2) else AndNot(e1, e2))
      ensures err == InvalidRange ==> Rejects(if op == AND then And(e1, e2) else AndNot(e1, e2))
    {
      hide Built, Acyclic, Part, LangOf, WellFormed, Ranked, Untouched, DfaResult, Denote, ProfileFor, Rejects,
        MeetsInverted, Stays, OwnedBy, ProfileOf, Overlap;
      ghost var g, a, b := h.node, acc.states, result.states;
      PartsOk(g0, g1, g, a, Denote(e1), b, Denote(e2));
      MeetsProfile(g, op, a, b);
      AndLangs(e1, e2);
      var er := DfaOps.Combine(h, acc, op, result);
      UntouchedBoth(g0, g, a, Denote(e1), b, Denote(e2), h.node);
      if er != OK {
        return InvalidRange;
      }
      DfaPart(g0, g, op, a, Denote(e1), b, Denote(e2), h.node, acc.states);
      return NoError;
    }

    /** The parser has done what the grammar says; after an error only new states have been made. */
    ghost predicate Outcome(err: Error, p: Parsed, g0: Graph)
      reads this, h, result, mman
    {
      && Broken(g0)
      && (err == NoError ==> p.Parsed? && input == p.rest && Done(g0, p.e))
      && (err == ESYNTAX ==> p == Failed(false))
      && (err == InvalidRange ==> Rejected(p))
    }

    /** Reads the next range of a set. */
    method ParseItem() returns (item: SetItem)
      modifies this`input
      ensures (item, input) == NextItem(old(input))
    {
      var next := ReadNext();
      if next == SPACE {
        return NoMore;
      }
      if next == RBRA {
        return Closing;
      }
      var from := ParseChar(next);
      next := PeekNext();
      if next == MINUS {
        SkipNext();
        next := ReadNext();
        var to := ParseChar(next);
        return if to == RBRA then BadRange else Item(from, to);
      }
      return Item(from, from);
    }

    /** The part of parse_atom that reads a set. */
    method ParseBrackets() returns (err: Error)
      requires Ready()
      modifies this`input, result, h
      ensures h.Since(old(h.owner), old(h.mmans))
      ensures Outcome(err, RegexSyntax.ParseBrackets(old(input)), old(h.node))
    {
      hide ParseSet, RangesInverted, Buffer.Ready, Buffer.Done, Buffer.Broken, SetBuilt, Stays, OwnedBy;
      ghost var g0 := h.node;
      var next := PeekNext();
      var isNot := next == CARET;
      if isNot {
        SkipNext();
      }
      ghost var from, to;
      err, from, to := ParseRanges();
      ghost var o := h.owner;
      if err != NoError {
        return;
      }
      if isNot {
        err := OperatorNot(g0, from, to);
        StaysTwice(old(h.owner), o, h.owner);
      } else {
        DoneBroken(g0, if from == [] then Nothing else Chars(from, to));
      }
    }

    /** The ranges of a set; a set without ranges is the empty expression. */
    method ParseRanges() returns (err: Error, ghost from: seq<Char32>, ghost to: seq<Char32>)
      requires Ready()
      modifies this`input, result, h
      ensures h.Since(old(h.owner), old(h.mmans))
      ensures |from| == |to| && Broken(old(h.node)) && err != InvalidRange
      ensures err == NoError ==> ParseSet(old(input), [], []) == ParsedSet(from, to, input)
      ensures err == NoError ==> Done(old(h.node), if from == [] then Nothing else Chars(from, to))
      ensures err == ESYNTAX ==> ParseSet(old(input), [], []).FailedSet?
    {
      hide RangesInverted, Buffer.Ready, Buffer.Done, Buffer.Broken, SetBuilt, Stays, OwnedBy;
      ghost var g0 := h.node;
      StaysSame(h.owner);
      ReadyBroken();
      var isFirst, closed := true, false;
      from, to := [], [];
      while !closed
        invariant h.Since(old(h.owner), old(h.mmans))
        invariant |from| == |to| && Broken(g0) && (isFirst <==> from == [])
        invariant ParseSet(old(input), [], []) ==
          if closed then ParsedSet(from, to, input) else ParseSet(input, from, to)
        invariant isFirst ==> Ready() && h.node == g0
        invariant !isFirst ==> Done(g0, Chars(from, to)) && SetBuilt(h.node, result.states, from, to)
        decreases !closed, |input|
      {
        var item := ParseItem();
        if item == Closing {
          closed := true;
        } else if item.Item? {
          ghost var o := h.owner;
          AddRange(isFirst, g0, from, to, item.from, item.to);
          StaysTwice(old(h.owner), o, h.owner);
          isFirst := false;
          from, to := from + [item.from], to + [item.to];
        } else {
          return ESYNTAX, from, to;
        }
      }
      err := NoError;
      if isFirst {
        ghost var o := h.owner;
        InitNothing();
        StaysTwice(old(h.owner), o, h.owner);
        DoneBroken(g0, Nothing);
      }
    }

    method AddRange(isFirst: bool, ghost g0: Graph, ghost from: seq<Char32>, ghost to: seq<Char32>, c: Char32,
                    d: Char32)
      requires |from| == |to| && (isFirst <==> from == [])
      requires isFirst ==> Ready() && h.node == g0
      requires !isFirst ==> Done(g0, Chars(from, to)) && SetBuilt(h.node, result.states, from, to)
      modifies result, h
      ensures h.Since(old(h.owner), old(h.mmans))
      ensures Done(g0, Chars(from + [c], to + [d]))
      ensures SetBuilt(h.node, result.states, from + [c], to + [d]) && Broken(g0)
    {
      hide RangesInverted, Buffer.Ready, Buffer.Done, Buffer.Broken, SetBuilt, Stays, OwnedBy;
      if isFirst {
        assert from + [c] == [c] && to + [d] == [d];
        InitRange(c, d);
      } else {
        ExtendRange(g0, from, to, c, d);
      }
      DoneBroken(g0, Chars(from + [c], to + [d]));
    }

    lemma ReadyBroken()
      requires Ready()
      ensures Broken(h.node)
    {
    }

    lemma DoneBroken(g0: Graph, e: Re)
      requires Done(g0, e)
      ensures Broken(g0) && !Rejects(e)
    {
      hide Stays, OwnedBy, ProfileOf, ProfileFor, Rejects, Denote;
    }

    /** parse_sequence */
    method ParseSequence() returns (err: Error)
      requires Ready()
      modifies this`input, result, h
      ensures h.Since(old(h.owner), old(h.mmans))
      ensures Outcome(err, RegexSyntax.ParseSequence(old(input), None), old(h.node))
      decreases |input|, 3
    {
      hide Buffer.Ready, Buffer.Done, Buffer.Broken, Buffer.Pending, RegexSyntax.ParseFactor, Compiled, Rejected,
        Skip, Rejects, ProfileFor, Stays, OwnedBy;
      ghost var g0, acc := h.node, None;
      var seqresult := new Automaton();
      var isResult, next := false, BANG;
      StaysSame(h.owner);
      ReadyBroken();
      while !EndsSequence(next)
        invariant h.Since(old(h.owner), old(h.mmans))
        invariant Ready() && Broken(g0) && fresh(seqresult)
        invariant isResult <==> acc.Some?
        invariant isResult ==> Pending(seqresult, g0, acc.value)
        invariant EndsSequence(next) ==>
          isResult && RegexSyntax.ParseSequence(old(input), None) == Parsed(acc.value, input)
        invariant !EndsSequence(next) ==>
          RegexSyntax.ParseSequence(old(input), None) == RegexSyntax.ParseSequence(input, acc)
        invariant |input| <= |old(input)|
        decreases !EndsSequence(next), |input|
      {
        ghost var s, o := input, h.owner;
        SequenceRemembers(s, acc);
        if isResult { PendingParts(seqresult, g0, acc.value); }
        err, next := ParseOne(seqresult, isResult, g0, acc);
        StaysTwice(old(h.owner), o, h.owner);
        if err != NoError {
          return;
        }
        ghost var p := RegexSyntax.ParseFactor(s);
        isResult := true;
        acc := Some(InSequence(acc, p.e));
      }
      MoveBack(seqresult, g0, acc.value);
      err := NoError;
    }

    /** Reads one more factor and appends it to the sequence. */
    method ParseOne(seqresult: Automaton, isResult: bool, ghost g0: Graph, ghost acc: Option<Re>)
      returns (err: Error, next: Char32)
      requires Ready() && Broken(g0) && seqresult != result && seqresult != mman
      requires (isResult <==> acc.Some?) && (isResult ==> Pending(seqresult, g0, acc.value))
      modifies this`input, result, h, seqresult
      ensures h.Since(old(h.owner), old(h.mmans))
      ensures Broken(g0)
      ensures err == ESYNTAX ==> RegexSyntax.ParseFactor(old(input)) == Failed(false)
      ensures err == InvalidRange ==> Rejected(RegexSyntax.ParseFactor(old(input)))
      ensures err == NoError ==> RegexSyntax.ParseFactor(old(input)).Parsed?
      ensures err == NoError ==> input == RegexSyntax.ParseFactor(old(input)).rest
      ensures err == NoError ==> next == Peek(input)
      ensures err == NoError ==>
        Ready() && Pending(seqresult, g0, InSequence(acc, RegexSyntax.ParseFactor(old(input)).e))
      decreases |input|, 2
    {
      hide Buffer.Ready, Buffer.Done, Buffer.Broken, Buffer.Pending, RegexSyntax.ParseFactor, Compiled, Rejected,
        Skip, Rejects, ProfileFor, Stays, OwnedBy;
      ghost var g1, st := h.node, seqresult.states;
      ghost var p := RegexSyntax.ParseFactor(input);
      if isResult { PendingParts(seqresult, g0, acc.value); }
      BrokenParts(g0);
      err, next := ParseFactor();
      BrokenSince(g0, g1);
      ghost var o := h.owner;
      if err != NoError {
        return;
      }
      if isResult {
        PendingDisjoint(seqresult, g0, acc.value, g1, p.e);
        PendingBeside(seqresult, g0, acc.value, g1, st, old(h.owner));
        Append(seqresult, g0, acc.value, g1, p.e);
        StaysTwice(old(h.owner), o, h.owner);
      } else {
        MoveOut(seqresult, g0, g1, p.e);
      }
      PendingBroken(seqresult, g0, InSequence(acc, p.e));
    }

    lemma BrokenSince(g0: Graph, g1: Graph)
      requires Broken(g1) && Untouched(g0, g1, {})
      ensures Broken(g0)
    {
    }

    lemma BrokenParts(g0: Graph)
      requires Broken(g0)
      ensures Untouched(g0, h.node, {})
    {
    }

    lemma PendingParts(acc: Automaton, g0: Graph, e: Re)
      requires Pending(acc, g0, e)
      ensures h.Owned(acc.states, acc.mman) && Compiled(g0, h.node, acc.states, e) && !Rejects(e)
    {
      hide Part, ProfileOf, ProfileFor, Rejects, Denote;
    }

    lemma PendingBroken(acc: Automaton, g0: Graph, e: Re)
      requires Pending(acc, g0, e) && Ready()
      ensures Broken(g0)
    {
      hide Acyclic, Stays, OwnedBy;
    }

    /** initmove_automat(&seqresult, &buffer->result) */
    method MoveOut(acc: Automaton, ghost g0: Graph, ghost g1: Graph, ghost e: Re)
      requires Done(g1, e) && acc != result && acc != mman && Untouched(g0, g1, {})
      modifies result, acc
      ensures Ready() && Pending(acc, g0, e)
    {
      hide Part, Untouched, Stays, OwnedBy;
      PartSince(g0, g1, h.node, result.states, Denote(e));
      acc.InitMove(result);
    }

    method MoveBack(acc: Automaton, ghost g0: Graph, ghost e: Re)
      requires Ready() && Pending(acc, g0, e)
      modifies result, acc
      ensures Done(g0, e) && Broken(g0)
    {
      hide Compiled, Untouched, Stays, OwnedBy;
      result.InitMove(acc);
      DoneBroken(g0, e);
    }

    /** parse_regexpr */
    method ParseRegexpr() returns (err: Error)
      requires Ready()
      modifies this`input, result, h
      ensures h.Since(old(h.owner), old(h.mmans))
      ensures Outcome(err, ParseRe(old(input)), old(h.node))
      decreases |input|, 6
    {
      hide Buffer.Ready, Buffer.Done, Buffer.Broken, Buffer.Pending, ParseOperand, NextOperator, Compiled,
        Rejected, Skip, Rejects, ProfileFor, Stays, OwnedBy;
      ghost var g0, acc := h.node, None;
      var regexresult := new Automaton();
      var op, more := First, true;
      StaysSame(h.owner);
      ReadyBroken();
      ReSkip(input);
      var next := PeekNext();
      while more
        invariant h.Since(old(h.owner), old(h.mmans))
        invariant Ready() && Broken(g0) && fresh(regexresult) && |input| <= |old(input)|
        invariant op == First <==> acc == None
        invariant acc.Some? ==> Pending(regexresult, g0, acc.value)
        invariant !more ==> acc.Some? && ParseRe(old(input)) == Parsed(acc.value, input)
        invariant more ==> ParseRe(old(input)) == ParseOperands(input, acc, op) && next == Peek(input)
        decreases more, |input|
      {
        ghost var s, o := input, h.owner;
        OperandsRemember(s, acc, op);
        if acc.Some? { PendingParts(regexresult, g0, acc.value); }
        if ParseOperand(s).Parsed? { OperandsStep(s, acc, op); }
        err := ReadOperand(regexresult, op, next, g0, acc);
        StaysTwice(old(h.owner), o, h.owner);
        if err != NoError {
          return;
        }
        acc := Some(Combined(acc, op, ParseOperand(s).e));
        var following;
        following, next := ReadOperator();
        more := following != First;
        op := if more then following else OpOr;
      }
      MoveBack(regexresult, g0, acc.value);
      err := NoError;
    }

    /** Reads the operator between two operands. */
    method ReadOperator() returns (op: Operator, next: Char32)
      requires Skip(input) == input
      modifies this`input
      ensures (op, input) == NextOperator(old(input))
      ensures op != First ==> next == Peek(input)
    {
      next := PeekNext();
      op := First;
      if next == BAR {
        SkipNext();
        SkipTwice(input);
        next := PeekNext();
        op := OpOr;
      } else if next == AMP {
        SkipNext();
        op := OpAnd;
        if input != [] && input[0] == BANG {
          op := OpAndNot;
          SkipNext();
        }
        SkipTwice(input);
        next := PeekNext();
      }
    }

    /** Reads one more operand and combines it with those before. */
    method ReadOperand(acc: Automaton, op: Operator, next: Char32, ghost g0: Graph, ghost e: Option<Re>)
      returns (err: Error)
      requires Ready() && Broken(g0) && acc != result && acc != mman && next == Peek(input)
      requires (op == First <==> e == None) && (e.Some? ==> Pending(acc, g0, e.value))
      modifies this`input, result, h, acc
      ensures h.Since(old(h.owner), old(h.mmans))
      ensures Broken(g0)
      ensures err == ESYNTAX ==> ParseOperand(old(input)) == Failed(false)
      ensures err == InvalidRange ==> RejectedWith(e, op, ParseOperand(old(input)))
      ensures err == NoError ==> ParseOperand(old(input)).Parsed? && input == ParseOperand(old(input)).rest
      ensures err == NoError ==> Ready() && Pending(acc, g0, Combined(e, op, ParseOperand(old(input)).e))
      decreases |input|, 5
    {
      hide Buffer.Ready, Buffer.Done, Buffer.Broken, Buffer.Pending, Compiled, Skip, Stays, OwnedBy;
      ghost var g1, st, p := h.node, acc.states, ParseOperand(input);
      if e.Some? { PendingParts(acc, g0, e.value); }
      BrokenParts(g0);
      err := ParseOperandOf(next);
      BrokenSince(g0, g1);
      ghost var o := h.owner;
      if err != NoError {
        return;
      }
      if op == First {
        MoveOut(acc, g0, g1, p.e);
      } else {
        PendingDisjoint(acc, g0, e.value, g1, p.e);
        PendingBeside(acc, g0, e.value, g1, st, old(h.owner));
        err := Combine(acc, op, g0, e.value, g1, p.e);
        StaysTwice(old(h.owner), o, h.owner);
      }
      if err == NoError {
        PendingBroken(acc, g0, Combined(e, op, p.e));
      }
    }

    /** An operand before an operator or a closing parenthesis may be left out. */
    method ParseOperandOf(next: Char32) returns (err: Error)
      requires Ready() && next == Peek(input)
      modifies this`input, result, h
      ensures h.Since(old(h.owner), old(h.mmans))
      ensures Outcome(err, ParseOperand(old(input)), old(h.node))
      decreases |input|, 4
    {
      hide Buffer.Ready, Buffer.Done, Buffer.Broken, RegexSyntax.ParseSequence, Stays, OwnedBy;
      if next == BAR || next == AMP || next == RPAR {
        ghost var g0 := h.node;
        InitNothing();
        DoneBroken(g0, Nothing);
        var _ := PeekNext();
        err := NoError;
      } else {
        err := ParseSequence();
      }
    }

    /** Applies the operator. */
    method Combine(acc: Automaton, op: Operator, ghost g0: Graph, ghost e1: Re, ghost g1: Graph, ghost e2: Re)
      returns (err: Error)
      requires op != First && Done(g1, e2) && Pending(acc, g0, e1)
      requires Disjoint(acc.states, result.states) && Untouched(g0, g1, {})
      modifies acc, result, h
      ensures h.Since(old(h.owner), old(h.mmans))
      ensures err != ESYNTAX && Broken(g0)
      ensures err == NoError ==> Ready() && Pending(acc, g0, Combined(Some(e1), op, e2))
      ensures err == InvalidRange ==> Rejects(Combined(Some(e1), op, e2))
    {
      hide Buffer.Ready, Buffer.Done, Buffer.Broken, Buffer.Pending, Disjoint, Untouched, Stays, OwnedBy;
      err := NoError;
      match op {
        case OpAndNot => err := Intersect(acc, AND_NOT, g0, e1, g1, e2);
        case OpAnd => err := Intersect(acc, AND, g0, e1, g1, e2);
        case OpOr =>
          Alternate(acc, g0, e1, g1, e2);
          PendingBroken(acc, g0, Or(e1, e2));
      }
    }

    /** parse_atom */
    method ParseAtom() returns (err: Error)
      requires Ready()
      modifies this`input, result, h
      ensures h.Since(old(h.owner), old(h.mmans))
      ensures Outcome(err, RegexSyntax.ParseAtom(old(input)), old(h.node))
      decreases |input|, 0
    {
      hide Buffer.Ready, Buffer.Done, Buffer.Broken, SetBuilt, RegexSyntax.ParseBrackets, RangesInverted,
        Stays, OwnedBy;
      ghost var g0, s := h.node, input;
      err := NoError;
      var next := ReadNext();
      if next == SPACE {
        InitNothing();
        DoneBroken(g0, Nothing);
      } else if next == LPAR {
        err := ParseRegexpr();
        if err != NoError {
          return;
        }
        DoneBroken(g0, ParseRe(After(s)).e);
        next := ReadNext();
        if next != RPAR {
          return ESYNTAX;
        }
      } else if next == LBRA {
        err := ParseBrackets();
      } else {
        var from, to := 0, MAXCHAR;
        if next != DOT {
          from := ParseChar(next);
          to := from;
        }
        InitRange(from, to);
        DoneBroken(g0, Chars([from], [to]));
      }
    }

    /** The prefix operators of parse_sequence. */
    method ParseNots() returns (isNot: bool, next: Char32)
      modifies this`input
      ensures (isNot, input) == Nots(old(input)) && next == Peek(input)
    {
      isNot := false;
      next := PeekNext();
      SkipTwice(old(input));
      while next == BANG
        invariant next == Peek(input) && Skip(input) == input
        invariant Nots(old(input)) == (if isNot then !Nots(input).0 else Nots(input).0, Nots(input).1)
        decreases |input|
      {
        ghost var s := input;
        SkipNext();
        isNot := !isNot;
        next := PeekNext();
        SkipTwice(After(s));
        NotsSkip(After(s));
      }
    }

    /** The postfix operators of parse_sequence. */
    method ParseRepeat(ghost g0: Graph, ghost e: Re) returns (next: Char32)
      requires Done(g0, e)
      modifies this`input, result, h
      ensures h.Since(old(h.owner), old(h.mmans))
      ensures Done(g0, RegexSyntax.Repeated(e, Peek(old(input)))) && Broken(g0)
      ensures next == Peek(input)
      ensures input == var c := Peek(old(input));
        Skip(if c == STAR || c == PLUS || c == QUEST then After(old(input)) else old(input))
    {
      hide Buffer.Done, Buffer.Broken, Stays, OwnedBy;
      StaysSame(h.owner);
      SkipTwice(input);
      next := PeekNext();
      if next == STAR || next == PLUS {
        SkipNext();
        Repeated(next == PLUS, g0, e);
        SkipTwice(input);
        next := PeekNext();
        DoneBroken(g0, Repeat(e, Peek(old(input)) == PLUS));
      } else if next == QUEST {
        SkipNext();
        OperatorOptional(g0, e);
        SkipTwice(input);
        next := PeekNext();
        DoneBroken(g0, Optional(e));
      } else {
        DoneBroken(g0, e);
      }
    }

    /** One round of parse_sequence. */
    method ParseFactor() returns (err: Error, next: Char32)
      requires Ready()
      modifies this`input, result, h
      ensures h.Since(old(h.owner), old(h.mmans))
      ensures Outcome(err, RegexSyntax.ParseFactor(old(input)), old(h.node))
      ensures err == NoError ==> next == Peek(input)
      decreases |input|, 1
    {
      hide Buffer.Ready, Buffer.Done, Buffer.Broken, RegexSyntax.ParseAtom, Nots, Stays, OwnedBy;
      ghost var g0, s := h.node, input;
      StaysSame(h.owner);
      ReadyBroken();
      var isNot;
      isNot, next := ParseNots();
      NotsShorter(s);
      if NoAtom(next) {
        return ESYNTAX, next;
      }
      ghost var p := RegexSyntax.ParseAtom(input);
      err := ParseAtom();
      if err != NoError {
        RepeatedRejects(p, Peek(if p.Parsed? then p.rest else []));
        return;
      }
      ghost var e := RegexSyntax.Repeated(p.e, Peek(p.rest));
      ghost var o := h.owner;
      next := ParseRepeat(g0, p.e);
      StaysTwice(old(h.owner), o, h.owner);
      o := h.owner;
      if isNot {
        err := Complement(g0, e);
        StaysTwice(old(h.owner), o, h.owner);
      }
    }

    lemma PendingBeside(acc: Automaton, g0: Graph, e: Re, g1: Graph, st: seq<nat>, o: Owners)
      requires Broken(g1) && acc != result && acc != mman && 0 < acc.mman <= h.mmans
      requires OwnedBy(o, st, acc.mman) && Stays(o, h.owner)
      requires acc.states == st && Compiled(g0, g1, st, e)
      ensures Pending(acc, g0, e)
    {
      hide Part;
      hide Untouched;
      OwnedStays(o, h.owner, st, acc.mman);
      PartBeside(g0, g1, st, Denote(e), h.node);
    }

    lemma PendingDisjoint(acc: Automaton, g0: Graph, e1: Re, g1: Graph, e2: Re)
      requires Done(g1, e2) && Compiled(g0, g1, acc.states, e1)
      ensures Disjoint(acc.states, result.states) && Untouched(g0, g1, {})
    {
      hide Part, Untouched, Disjoint;
      PartsDisjoint(g0, g1, acc.states, Denote(e1), h.node, result.states, Denote(e2));
      UntouchedPart(g0, g1, acc.states, Denote(e1));
    }
  }

  lemma NotsShorter(s: Word)
    ensures |Nots(s).1| <= |s|
  {
  }

  lemma CompiledOk(g0: Graph, g: Graph, st: seq<nat>, e: Re)
    requires Compiled(g0, g, st, e)
    ensures |st| >= 2 && WellFormed(g, st) && Acyclic(g, st) && !Rejects(e)
    ensures InvertedToEnd(g, st) == ProfileFor(e).tail
  {
  }

  lemma AppendDone(g0: Graph, g1: Graph, g: Graph, a: seq<nat>, e1: Re, b: seq<nat>, e2: Re, g': Graph, st: seq<nat>)
    requires Compiled(g0, g, a, e1) && Compiled(g1, g, b, e2) && Untouched(g0, g1, {}) && a != [] && b != []
    requires GlueResult(g, g', a, b, st, Concat(LangOf(g, a), LangOf(g, b)))
    requires ProfileIs(g', st, SequenceOfProfiles(LangOf(g, a), ProfileOf(g, a), LangOf(g, b), ProfileOf(g, b)))
    ensures Compiled(g0, g', st, Seq(e1, e2))
  {
    hide Part, LangOf, WellFormed, Ranked, Untouched, GlueResult, Denote, Rejects, ProfileFor, ProfileOf,
      SequenceOfProfiles, Concat;
    PartsOk(g0, g1, g, a, Denote(e1), b, Denote(e2));
    SeqLang(e1, e2);
    PairPart(g0, g, a, Denote(e1), b, Denote(e2), g', st, Denote(Seq(e1, e2)));
  }

  lemma AlternateDone(g0: Graph, g1: Graph, g: Graph, a: seq<nat>, e1: Re, b: seq<nat>, e2: Re, g': Graph, st: seq<nat>)
    requires Compiled(g0, g, a, e1) && Compiled(g1, g, b, e2) && Untouched(g0, g1, {}) && a != [] && b != []
    requires GlueResult(g, g', a, b, st, LangOf(g, a) + LangOf(g, b))
    requires ProfileIs(g', st, OrOfProfiles(ProfileOf(g, a), ProfileOf(g, b)))
    ensures Compiled(g0, g', st, Or(e1, e2))
  {
    hide Part, LangOf, WellFormed, Ranked, Untouched, GlueResult, Denote, Rejects, ProfileFor, ProfileOf, OrOfProfiles;
    PartsOk(g0, g1, g, a, Denote(e1), b, Denote(e2));
    OrLangs(e1, e2);
    PairPart(g0, g, a, Denote(e1), b, Denote(e2), g', st, Denote(Or(e1, e2)));
  }

  lemma RepeatedRejects(p: Parsed, next: Char32)
    ensures p.Parsed? ==> Rejects(RegexSyntax.Repeated(p.e, next)) == Rejects(p.e)
    ensures p.Parsed? && Rejects(p.e) ==> Rejects(Not(RegexSyntax.Repeated(p.e, next)))
  {
  }

  lemma OptionalLang(e: Re)
    ensures Denote(Optional(e)) == Denote(e) + iset{[]} && Rejects(Optional(e)) == Rejects(e)
    ensures ProfileFor(Optional(e)) == OrOfProfiles(ProfileFor(e), NothingProfile())
  {
  }

  lemma RepeatLang(e: Re, one: bool)
    ensures Denote(Repeat(e, one)) == (if one then Plus(Denote(e)) else Star(Denote(e)))
    ensures ProfileFor(Repeat(e, one)) == LoopOfProfile(Denote(e), ProfileFor(e))
    ensures Rejects(Repeat(e, one)) == Rejects(e)
  {
  }

  lemma NotLang(e: Re)
    ensures Denote(Not(e)) == WordsUpTo(MAXCHAR) - Denote(e)
    ensures ProfileFor(Not(e)) == Profile(WordsUpTo(MAXCHAR), iset{}, false)
    ensures Rejects(Not(e)) == (Rejects(e) || Overlap(ProfileFor(e).hots, WordsUpTo(MAXCHAR)))
  {
  }

  lemma SeqLang(e1: Re, e2: Re)
    ensures Denote(Seq(e1, e2)) == Concat(Denote(e1), Denote(e2))
    ensures ProfileFor(Seq(e1, e2)) == SequenceOfProfiles(Denote(e1), ProfileFor(e1), Denote(e2), ProfileFor(e2))
    ensures Rejects(Seq(e1, e2)) == (Rejects(e1) || Rejects(e2))
  {
  }

  lemma OrLangs(e1: Re, e2: Re)
    ensures Denote(Or(e1, e2)) == Denote(e1) + Denote(e2) && Rejects(Or(e1, e2)) == (Rejects(e1) || Rejects(e2))
    ensures ProfileFor(Or(e1, e2)) == OrOfProfiles(ProfileFor(e1), ProfileFor(e2))
  {
  }

  lemma AndLangs(e1: Re, e2: Re)
    ensures Denote(And(e1, e2)) == Denote(e1) * Denote(e2) && Denote(AndNot(e1, e2)) == Denote(e1) - Denote(e2)
    ensures var p1, p2 := ProfileFor(e1), ProfileFor(e2);
      && ProfileFor(And(e1, e2)) == Profile(Followed(AND, p1, p2), iset{}, false)
      && ProfileFor(AndNot(e1, e2)) == Profile(Followed(AND_NOT, p1, p2), iset{}, false)
      && (Rejects(And(e1, e2)) <==> Rejects(e1) || Rejects(e2) || Overlap(p1.hots + p2.hots, Followed(AND, p1, p2)))
      && (Rejects(AndNot(e1, e2)) <==>
          Rejects(e1) || Rejects(e2) || Overlap(p1.hots + p2.hots, Followed(AND_NOT, p1, p2)))
  {
    hide Overlap;
  }

  /** The automaton of a set: initmatch_automat, followed by extendmatch_automat. */
  ghost predicate SetBuilt(g: Graph, st: seq<nat>, from: seq<Char32>, to: seq<Char32>) {
    && |from| == |to| && |st| >= 2 && Matcher(g, st)
    && g[Start(st)].ranges == RangesTo(from, to, End(st))
  }

  lemma SetProfiled(g: Graph, st: seq<nat>, from: seq<Char32>, to: seq<Char32>)
    requires SetBuilt(g, st, from, to)
    ensures ProfileIs(g, st, SetProfile(from, to))
  {
    MatcherEnds(g, st);
    MatcherProfile(g, st, from, to);
  }

  lemma SetOk(g: Graph, st: seq<nat>, from: seq<Char32>, to: seq<Char32>)
    requires SetBuilt(g, st, from, to)
    ensures |st| >= 2 && Matcher(g, st) && WellFormed(g, st)
  {
  }

  lemma MoreRanges(from: seq<Char32>, to: seq<Char32>, c: Char32, d: Char32)
    requires |from| == |to|
    ensures CharLang(from, to) + CharLang([c], [d]) == CharLang(from + [c], to + [d])
  {
    var from', to' := from + [c], to + [d];
    forall x: Char32 ensures InRanges(x, from', to') <==> InRanges(x, from, to) || InRanges(x, [c], [d]) {
      if i :| 0 <= i < |from'| && from'[i] <= x <= to'[i] {
        assert i < |from| ==> from[i] <= x <= to[i];
        assert i == |from| ==> [c][0] <= x <= [d][0];
      }
      if i :| 0 <= i < |from| && from[i] <= x <= to[i] {
        assert from'[i] <= x <= to'[i];
      }
      if i :| 0 <= i < |[c]| && [c][i] <= x <= [d][i] {
        assert from'[|from|] <= x <= to'[|from|];
      }
    }
  }

  lemma SetMore(g: Graph, g': Graph, st: seq<nat>, from: seq<Char32>, to: seq<Char32>, c: Char32, d: Char32)
    requires SetBuilt(g, st, from, to) && Matcher(g', st)
    requires g'[Start(st)].ranges == g[Start(st)].ranges + RangesTo([c], [d], End(st))
    ensures SetBuilt(g', st, from + [c], to + [d])
  {
    hide Matcher;
    var e := End(st);
    assert RangesTo(from + [c], to + [d], e) == RangesTo(from, to, e) + RangesTo([c], [d], e);
  }

  lemma ExtendedPart(g0: Graph, g: Graph, g': Graph, st: seq<nat>, L: Lang, L': Lang)
    requires Part(g0, g, st, L) && Built(g, g', States(st), st, L') && Acyclic(g', st)
    ensures Part(g0, g', st, L')
  {
    hide LangOf, WellFormed, Acyclic;
    ConfinedPart(g0, g, States(st), g', st);
  }

  lemma PartBoth(g0: Graph, g: Graph, a: seq<nat>, La: Lang, g1: Graph, b: seq<nat>, Lb: Lang)
    requires Part(g0, g, a, La) && Part(g, g1, b, Lb)
    ensures Part(g0, g1, a, La) && Part(g0, g1, b, Lb) && Disjoint(a, b) && Disjoint(b, a)
    ensures |a| >= 2 && |b| >= 2 && WellFormed(g1, a) && WellFormed(g1, b) && Ranked(g1, a) && Ranked(g1, b)
    ensures LangOf(g1, a) == La && LangOf(g1, b) == Lb
    ensures ProfileOf(g1, a) == ProfileOf(g, a)
  {
    hide Part, LangOf, WellFormed, Ranked, Untouched, ProfileOf;
    PartOk(g0, g, a, La);
    PartOk(g, g1, b, Lb);
    PartsDisjoint(g0, g, a, La, g1, b, Lb);
    PartBeside(g0, g, a, La, g1);
    PartSince(g0, g, g1, b, Lb);
    PartOk(g0, g1, a, La);
  }

  lemma UntouchedBoth(g0: Graph, g: Graph, a: seq<nat>, La: Lang, b: seq<nat>, Lb: Lang, g': Graph)
    requires Part(g0, g, a, La) && Part(g0, g, b, Lb) && Untouched(g, g', States(a) + States(b))
    ensures Untouched(g0, g', {})
  {
    hide WellFormed, LangOf, Acyclic;
  }

  lemma UntouchedOne(g0: Graph, g: Graph, a: seq<nat>, La: Lang, g': Graph)
    requires Part(g0, g, a, La) && Untouched(g, g', States(a))
    ensures Untouched(g0, g', {})
  {
    hide WellFormed, LangOf, Acyclic;
  }

  lemma UntouchedPart(g0: Graph, g: Graph, st: seq<nat>, L: Lang)
    requires Part(g0, g, st, L)
    ensures Untouched(g0, g, {})
  {
    hide WellFormed, LangOf, Acyclic;
  }

  lemma NotCharsLang(from: seq<Char32>, to: seq<Char32>)
    requires |from| == |to|
    ensures CharLang([0], [MAXCHAR]) - Denote(if from == [] then Nothing else Chars(from, to)) ==
      Denote(NotChars(from, to))
    ensures var p := ProfileFor(if from == [] then Nothing else Chars(from, to));
      ProfileFor(NotChars(from, to)) == Profile(Followed(AND_NOT, SetProfile([0], [MAXCHAR]), p), iset{}, false)
    ensures Rejects(NotChars(from, to)) == RangesInverted(from, to)
  {
  }

  /** The complement of a set fails if one of its ranges is from > to. */
  lemma NotCharsMeets(from: seq<Char32>, to: seq<Char32>)
    requires |from| == |to|
    ensures var p1, p2 := SetProfile([0], [MAXCHAR]), ProfileFor(if from == [] then Nothing else Chars(from, to));
      RangesInverted(from, to) <==> Overlap(p1.hots + p2.hots, Followed(AND_NOT, p1, p2))
  {
    var p1, p2 := SetProfile([0], [MAXCHAR]), ProfileFor(if from == [] then Nothing else Chars(from, to));
    if RangesInverted(from, to) {
      assert [] in p1.hots + p2.hots && [] in Followed(AND_NOT, p1, p2);
    }
  }

  /** What the grammar has to say about the text. */
  lemma GrammarRead(s: Word)
    ensures ParseAll(s).Parsed? ==> ParseAll(s).rest == [] && RegexGrammar.Derives(s, ParseAll(s).e)
    ensures ParseAll(s).Failed? ==> forall e :: !RegexGrammar.Derives(s, e)
  {
    hide ParseRe, RegexGrammar.Derives;
    forall e ensures RegexGrammar.Derives(s, e) <==> ParseAll(s) == Parsed(e, []) {
      RegexSound.ParsesGrammar(s, e);
    }
  }

  /** init_regexpr */
  method InitRegexpr(h: Heap, definition: Word) returns (err: Error, matcher: Automaton)
    requires h.Valid()
    modifies h
    ensures h.Valid() && Untouched(old(h.node), h.node, {}) && fresh(matcher)
    ensures h.Since(old(h.owner), old(h.mmans)) && (err == NoError ==> matcher.Valid(h))
    ensures var p := ParseAll(definition);
      && (err == NoError <==> p.Parsed? && !NoMatcher(p.e))
      && (err == ESYNTAX <==> p == Failed(false))
      && (err == InvalidRange <==> p == Failed(true) || (p.Parsed? && NoMatcher(p.e)))
    ensures err == NoError ==> old(h.mmans) < matcher.mman && matcher.isDFA
    ensures err == NoError ==> Part(old(h.node), h.node, matcher.states, Denote(ParseAll(definition).e))
    ensures err == NoError ==>
      Deterministic(h.node, matcher.states) && matcher.states != [] && Minimal(h.node, matcher.states)
    ensures err == NoError ==> (FullyMinimal(h.node, matcher.states) <==> !StartDoubled(Denote(ParseAll(definition).e)))
    ensures err == NoError ==> RegexGrammar.Derives(definition, ParseAll(definition).e)
    ensures err == ESYNTAX ==> forall e :: !RegexGrammar.Derives(definition, e)
    ensures err != NoError ==> matcher.IsFree()
  {
    hide RegexGrammar.Derives, FullyMinimal, StartDoubled, Denote, Untouched, Compiled, Part, Deterministic, Minimal,
      ParseRe, Built, Acyclic, WellFormed, LangOf, InvertedToEnd, Stays, OwnedBy, ProfileOf, ProfileFor, Rejects;
    GrammarRead(definition);
    ghost var g := h.node;
    var buffer := new Buffer(h, definition);
    ghost var g0 := h.node;
    matcher := new Automaton();
    ghost var o := h.owner;
    err := buffer.ParseRegexpr();
    StaysTwice(old(h.owner), o, h.owner);
    o := h.owner;
    UntouchedSince(g, g0, h.node);
    if err != NoError {
      return;
    }
    ghost var p := ParseRe(definition);
    ghost var g1, st := h.node, buffer.result.states;
    CompiledOk(g0, g1, st, p.e);
    var next := buffer.ReadNext();
    if next != SPACE {
      return ESYNTAX, matcher;
    }
    AcyclicReversible(g1, st);
    var er := Minimize(h, buffer.result);
    StaysTwice(old(h.owner), o, h.owner);
    UntouchedSince(g, g1, h.node);
    if er != OK {
      return InvalidRange, matcher;
    }
    MinimizedDone(g, g0, g1, st, p.e, h.node, buffer.result.states);
    matcher := buffer.result;
    err := NoError;
  }

  lemma UntouchedSince(g: Graph, g0: Graph, g1: Graph)
    requires Untouched(g, g0, {}) && Untouched(g0, g1, {})
    ensures Untouched(g, g1, {})
  {
  }

  lemma MinimizedDone(g: Graph, g0: Graph, g1: Graph, st: seq<nat>, e: Re, g2: Graph, st2: seq<nat>)
    requires Compiled(g0, g1, st, e) && Untouched(g, g0, {}) && st != []
    requires Built(g1, g2, {}, st2, LangOf(g1, st)) && Acyclic(g2, st2)
    ensures Part(g, g2, st2, Denote(e)) && st2 != [] && LangOf(g1, st) == Denote(e)
  {
    hide LangOf, Untouched, WellFormed, Denote, Rejects, ProfileFor, ProfileOf, Built, Acyclic;
    PartOk(g0, g1, st, Denote(e));
    UntouchedSince(g, g0, g1);
    BuiltFrom(g1, g2, {}, st2, LangOf(g1, st));
    WellFormedLength(g2, st2);
    BuiltPart(g1, g2, st2, Denote(e));
    PartSince(g, g1, g2, st2, Denote(e));
  }
}
