/** Where words lead to in an automaton, and where the ranges from > to are. Determinisation fails on
    these, so what an operation keeps of a profile decides which operations fail later. */
module Profiles {
  import opened Graphs
  import opened Languages
  import opened Thompson
  import opened Glue
  import opened Mirror

  /** The word u leads somewhere. */
  ghost predicate GoesOn(g: Graph, st: seq<nat>, u: Word)
    requires st != []
  {
    exists x :: x in st && Reads(g, Start(st), u, x)
  }

  /** The word u leads to a state with a range from > to. */
  ghost predicate HotAfter(g: Graph, st: seq<nat>, u: Word)
    requires st != []
  {
    exists x :: x in st && HasInverted(g, x) && Reads(g, Start(st), u, x)
  }

  /** From a range from > to the end state can be reached. */
  ghost predicate InvertedToEnd(g: Graph, st: seq<nat>)
    requires st != []
  {
    exists p, t, w: Word :: InvertedTransition(g, st, p, t) && Reads(g, t.target, w, End(st))
  }

  predicate InvertedTransition(g: Graph, st: seq<nat>, p: nat, t: Trans) {
    p in st && p in g && t in g[p].ranges && t.from > t.to
  }

  /** Both in one. */
  ghost predicate LeadsIn(g: Graph, st: seq<nat>, u: Word, hot: bool)
    requires st != []
  {
    exists x :: x in st && (hot ==> HasInverted(g, x)) && Reads(g, Start(st), u, x)
  }

  ghost function Led(g: Graph, st: seq<nat>, hot: bool): Lang
    requires st != []
  {
    iset u: Word | LeadsIn(g, st, u, hot)
  }

  lemma LeadsParts(g: Graph, st: seq<nat>, u: Word)
    requires st != []
    ensures LeadsIn(g, st, u, false) <==> GoesOn(g, st, u)
    ensures LeadsIn(g, st, u, true) <==> HotAfter(g, st, u)
  {
    hide Reads, HasInverted;
    if LeadsIn(g, st, u, false) { var x :| x in st && Reads(g, Start(st), u, x); }
    if GoesOn(g, st, u) { var x :| x in st && Reads(g, Start(st), u, x); }
    if LeadsIn(g, st, u, true) { var x :| x in st && HasInverted(g, x) && Reads(g, Start(st), u, x); }
    if HotAfter(g, st, u) { var x :| x in st && HasInverted(g, x) && Reads(g, Start(st), u, x); }
  }

  datatype Profile = Profile(goes: Lang, hots: Lang, tail: bool)

  ghost predicate Overlap(L: Lang, M: Lang) {
    exists u: Word :: u in L && u in M
  }

  /** The profile of the automaton of the empty word. */
  ghost function NothingProfile(): Profile {
    Profile(iset{[]}, iset{}, false)
  }

  /** The profile of an automaton made of ranges. */
  ghost function SetProfile(from: seq<Char32>, to: seq<Char32>): Profile
    requires |from| == |to|
  {
    Profile(iset{[]} + CharLang(from, to), if RangesInverted(from, to) then iset{[]} else iset{},
            RangesInverted(from, to))
  }

  ghost function ProfileOf(g: Graph, st: seq<nat>): Profile
    requires st != []
  {
    Profile(Led(g, st, false), Led(g, st, true), InvertedToEnd(g, st))
  }

  /** To be equal, profiles need only agree on every word. */
  lemma SameProfile(g: Graph, st: seq<nat>, p: Profile)
    requires st != []
    requires forall u: Word :: GoesOn(g, st, u) <==> u in p.goes
    requires forall u: Word :: HotAfter(g, st, u) <==> u in p.hots
    requires InvertedToEnd(g, st) <==> p.tail
    ensures ProfileOf(g, st) == p
  {
    hide GoesOn, HotAfter, InvertedToEnd, LeadsIn;
    forall u: Word
      ensures LeadsIn(g, st, u, false) <==> u in p.goes
      ensures LeadsIn(g, st, u, true) <==> u in p.hots
    {
      LeadsParts(g, st, u);
    }
  }

  lemma ProfileWords(g: Graph, st: seq<nat>, u: Word)
    requires st != []
    ensures u in ProfileOf(g, st).goes <==> GoesOn(g, st, u)
    ensures u in ProfileOf(g, st).hots <==> HotAfter(g, st, u)
  {
    hide GoesOn, HotAfter, InvertedToEnd, LeadsIn;
    LeadsParts(g, st, u);
  }

  /** What of a profile needs no path: no range from > to. */
  lemma UprightProfile(g: Graph, st: seq<nat>)
    requires st != [] && Upright(g, st)
    ensures ProfileOf(g, st).hots == iset{} && !ProfileOf(g, st).tail
  {
    forall x | x in st ensures !HasInverted(g, x) { assert UprightAt(g, x); }
    forall u: Word ensures u !in ProfileOf(g, st).hots {
      ProfileWords(g, st, u);
    }
    forall p, t ensures !InvertedTransition(g, st, p, t) {
      if p in st { assert UprightAt(g, p); }
    }
  }

  // ---- frames and copies

  lemma ProfileFrame(g: Graph, g': Graph, st: seq<nat>)
    requires WellFormed(g, st) && Agree(g, g', States(st))
    ensures st != [] && ProfileOf(g', st) == ProfileOf(g, st)
  {
    hide Reads;
    forall p | p in st ensures p in g && p in g' && g[p] == g'[p] { assert p in States(st); }
    forall p, w: Word, q | p in st ensures Reads(g, p, w, q) == Reads(g', p, w, q) {
      assert p in States(st);
      ReadsFrame(g, g', States(st), p, w, q);
    }
    forall p, t | InvertedTransition(g, st, p, t) ensures t.target in st { EdgesStay(g, st, p); }
    hide WellFormed;
    FrameParts(g, g', st);
  }

  lemma FrameParts(g: Graph, g': Graph, st: seq<nat>)
    requires st != [] && forall p :: p in st ==> p in g && p in g' && g[p] == g'[p]
    requires forall p, w: Word, q :: p in st ==> Reads(g, p, w, q) == Reads(g', p, w, q)
    requires forall p, t :: InvertedTransition(g, st, p, t) ==> t.target in st
    ensures ProfileOf(g', st) == ProfileOf(g, st)
  {
    hide Reads;
    forall p, t ensures InvertedTransition(g, st, p, t) <==> InvertedTransition(g', st, p, t) {
    }
    if InvertedToEnd(g, st) {
      var p, t, w: Word :| InvertedTransition(g, st, p, t) && Reads(g, t.target, w, End(st));
      assert InvertedTransition(g', st, p, t) && Reads(g', t.target, w, End(st));
    }
    if InvertedToEnd(g', st) {
      var p, t, w: Word :| InvertedTransition(g', st, p, t) && Reads(g', t.target, w, End(st));
      assert InvertedTransition(g, st, p, t) && Reads(g, t.target, w, End(st));
    }
    SameProfile(g', st, ProfileOf(g, st));
  }

  lemma CopyReads(g: Graph, st: seq<nat>, g': Graph, d: map<nat, nat>, p: nat, w: Word, q: nat)
    requires CopyOf(g, st, g', d) && p in st && q in st
    ensures Reads(g, p, w, q) <==> Reads(g', At(d, p), w, At(d, q))
  {
    if Reads(g, p, w, q) {
      var n: nat :| Go(g, p, w, q, n);
      CopyGo(g, st, g', d, p, w, q, n);
    }
    if Reads(g', At(d, p), w, At(d, q)) {
      var n: nat :| Go(g', At(d, p), w, At(d, q), n);
      var r := UncopyGo(g, st, g', d, p, w, At(d, q), n);
      NamesDiffer(st, d, q, r);
    }
  }

  lemma NamesDiffer(st: seq<nat>, d: map<nat, nat>, q: nat, r: nat)
    requires Naming(st, d) && q in st && r in st && At(d, q) == At(d, r)
    ensures q == r
  {
  }

  lemma CopyInverted(g: Graph, st: seq<nat>, g': Graph, d: map<nat, nat>, p: nat)
    requires CopyOf(g, st, g', d) && p in st
    ensures HasInverted(g, p) <==> HasInverted(g', At(d, p))
    ensures forall t :: InvertedTransition(g, st, p, t) ==>
      t.target in st && InvertedTransition(g', Names(st, d), At(d, p), Trans(t.from, t.to, At(d, t.target)))
    ensures forall t' :: InvertedTransition(g', Names(st, d), At(d, p), t') ==>
      exists t :: InvertedTransition(g, st, p, t) && t.target in st && t' == Trans(t.from, t.to, At(d, t.target))
  {
    assert Copied(g, g', d, p);
    NameIn(st, d, p);
    EdgesStay(g, st, p);
    NodeTargets(g[p], d);
    forall t | t in g[p].ranges ensures Trans(t.from, t.to, At(d, t.target)) in g'[At(d, p)].ranges {
      var i :| 0 <= i < |g[p].ranges| && g[p].ranges[i] == t;
      assert g'[At(d, p)].ranges[i] == Trans(t.from, t.to, At(d, t.target));
    }
    forall t' | t' in g'[At(d, p)].ranges
      ensures exists t :: t in g[p].ranges && t.target in st && t' == Trans(t.from, t.to, At(d, t.target))
    {
      var u := UncopyTrans(g, st, g', d, p, t');
    }
  }

  /** A copy has the profile of its source. */
  lemma CopyProfile(g: Graph, st: seq<nat>, g': Graph, d: map<nat, nat>)
    requires CopyOf(g, st, g', d)
    ensures st != [] && Names(st, d) != [] && ProfileOf(g', Names(st, d)) == ProfileOf(g, st)
  {
    hide CopyOf, Reads, HasInverted, InvertedTransition, At, Naming;
    CopyNaming(g, st, g', d);
    var st' := Names(st, d);
    forall u: Word
      ensures GoesOn(g', st', u) <==> GoesOn(g, st, u)
      ensures HotAfter(g', st', u) <==> HotAfter(g, st, u)
    {
      forall p | p in st
        ensures At(d, p) in st' && (Reads(g, Start(st), u, p) <==> Reads(g', Start(st'), u, At(d, p)))
        ensures HasInverted(g, p) <==> HasInverted(g', At(d, p))
      {
        NameIn(st, d, p);
        CopyReads(g, st, g', d, Start(st), u, p);
        CopyInverted(g, st, g', d, p);
      }
      if x :| x in st' && Reads(g', Start(st'), u, x) { var p := UncopyName(st, d, x); }
      if x :| x in st' && HasInverted(g', x) && Reads(g', Start(st'), u, x) { var p := UncopyName(st, d, x); }
    }
    CopyTail(g, st, g', d);
    SameProfile(g', st', ProfileOf(g, st));
  }

  lemma CopyNaming(g: Graph, st: seq<nat>, g': Graph, d: map<nat, nat>)
    requires CopyOf(g, st, g', d)
    ensures |st| >= 2 && Naming(st, d) && Start(st) in st && End(st) in st
    ensures Start(Names(st, d)) == At(d, Start(st)) && End(Names(st, d)) == At(d, End(st))
  {
  }

  lemma CopyTail(g: Graph, st: seq<nat>, g': Graph, d: map<nat, nat>)
    requires CopyOf(g, st, g', d)
    ensures st != [] && Names(st, d) != [] && InvertedToEnd(g', Names(st, d)) == InvertedToEnd(g, st)
  {
    hide CopyOf, Reads, HasInverted, InvertedTransition, At, Naming;
    CopyNaming(g, st, g', d);
    var st' := Names(st, d);
    if p, t, w: Word :| InvertedTransition(g, st, p, t) && Reads(g, t.target, w, End(st)) {
      TransitionIn(g, st, p, t);
      CopyInverted(g, st, g', d, p);
      CopyReads(g, st, g', d, t.target, w, End(st));
      assert InvertedTransition(g', st', At(d, p), Trans(t.from, t.to, At(d, t.target)));
    }
    if x, t', w: Word :| InvertedTransition(g', st', x, t') && Reads(g', t'.target, w, End(st')) {
      TransitionIn(g', st', x, t');
      var p := UncopyName(st, d, x);
      CopyInverted(g, st, g', d, p);
      var t :| InvertedTransition(g, st, p, t) && t.target in st && t' == Trans(t.from, t.to, At(d, t.target));
      CopyReads(g, st, g', d, t.target, w, End(st));
    }
  }

  lemma TransitionIn(g: Graph, st: seq<nat>, p: nat, t: Trans)
    requires InvertedTransition(g, st, p, t)
    ensures p in st
  {
  }

  // ---- paths in glued automata

  /** A path from the glued automaton stays in it, or reads one of its words and then moves to x. */
  lemma {:induction false} LeaveGlued(g: Graph, st: seq<nat>, g': Graph, x: nat, p: nat, w: Word, f: nat, n: nat)
    returns (inside: bool, k: nat, m: nat)
    requires Glued(g, st, g', x) && p in st && Go(g', p, w, f, n)
    ensures inside ==> f in st && Reads(g, p, w, f)
    ensures !inside ==> k <= |w| && m < n && Reads(g, p, w[..k], End(st)) && Go(g', x, w[k..], f, m)
    decreases n
  {
    hide Glued, Reads;
    k, m, inside := 0, 0, true;
    var e := End(st);
    if n == 0 {
      ReadsNothing(g, p);
    } else if r :| Eps(g', p, r) && Go(g', r, w, f, n - 1) {
      GluedEps(g, st, g', x, p, r);
      if r == x {
        inside, m := false, n - 1;
        ReadsNothing(g, e);
        assert w[..0] == [] && w[0..] == w;
      } else {
        inside, k, m := LeaveGlued(g, st, g', x, r, w, f, n - 1);
        if inside { EpsThenReads(g, p, r, w, f); } else { EpsThenReads(g, p, r, w[..k], e); }
      }
    } else {
      var r :| Chr(g', p, w[0], r) && Go(g', r, w[1..], f, n - 1);
      GluedChr(g, st, g', x, p, w[0], r);
      inside, k, m := LeaveGlued(g, st, g', x, r, w[1..], f, n - 1);
      if inside {
        ChrThenReads(g, p, r, w, f);
      } else {
        FirstTaken(w, k);
        ChrThenReads(g, p, r, w[..k + 1], e);
        k := k + 1;
      }
    }
  }

  /** Whatever is read within the automaton is read within the glued one. */
  lemma {:induction false} WithinGlued(g: Graph, st: seq<nat>, g': Graph, x: nat, p: nat, w: Word, q: nat, n: nat)
    requires Glued(g, st, g', x) && p in st && Go(g, p, w, q, n)
    ensures Reads(g', p, w, q)
    decreases n
  {
    hide Reads;
    if n == 0 {
      ReadsNothing(g', p);
    } else if r :| Eps(g, p, r) && Go(g, r, w, q, n - 1) {
      EdgesStay(g, st, p);
      WithinGlued(g, st, g', x, r, w, q, n - 1);
      GluedKeeps(g, st, g', x, p, r);
      if Eps(g', p, r) { EpsThenReads(g', p, r, w, q); }
    } else {
      var r :| Chr(g, p, w[0], r) && Go(g, r, w[1..], q, n - 1);
      GluedKeepsChr(g, st, g', x, p, w[0], r);
      WithinGlued(g, st, g', x, r, w[1..], q, n - 1);
      ChrThenReads(g', p, r, w, q);
    }
  }

  lemma GluedKeeps(g: Graph, st: seq<nat>, g': Graph, x: nat, p: nat, r: nat)
    requires Glued(g, st, g', x) && p in st && Eps(g, p, r)
    ensures Eps(g', p, r) || p == r
  {
    EdgesStay(g, st, p);
    assert p in States(st);
    var i :| 0 <= i < |g[p].empty| && g[p].empty[i] == r;
    assert g'[p].empty[i] == r || (p == End(st) && i == |g[p].empty| - 1);
  }

  lemma GluedKeepsChr(g: Graph, st: seq<nat>, g': Graph, x: nat, p: nat, c: Char32, r: nat)
    requires Glued(g, st, g', x) && p in st && Chr(g, p, c, r)
    ensures r in st && Chr(g', p, c, r)
  {
    EdgesStay(g, st, p);
    assert p in States(st);
  }

  lemma GluedRanges(g: Graph, st: seq<nat>, g': Graph, x: nat, p: nat)
    requires Glued(g, st, g', x) && p in st
    ensures p in g && p in g' && g'[p].ranges == g[p].ranges && (HasInverted(g', p) <==> HasInverted(g, p))
  {
    EdgesStay(g, st, p);
    assert p in States(st);
  }

  /** The first move from a state that has only empty transitions. */
  lemma EpsFirst(g: Graph, p: nat, targets: seq<nat>, w: Word, f: nat, n: nat) returns (r: nat)
    requires EpsState(g, p, targets) && Go(g, p, w, f, n) && n > 0
    ensures r in targets && Go(g, r, w, f, n - 1)
  {
    assert !exists r :: w != [] && Chr(g, p, w[0], r);
    r :| Eps(g, p, r) && Go(g, r, w, f, n - 1);
  }

  lemma EpsCold(g: Graph, p: nat, targets: seq<nat>)
    requires EpsState(g, p, targets)
    ensures !HasInverted(g, p)
  {
  }

  lemma StartLeads(g: Graph, st: seq<nat>)
    requires st != []
    ensures LeadsIn(g, st, [], false)
  {
    ReadsNothing(g, Start(st));
  }

  lemma LangLeads(g: Graph, st: seq<nat>, w: Word)
    requires st != [] && w in LangOf(g, st)
    ensures LeadsIn(g, st, w, false)
  {
  }

  lemma LeadsBy(g: Graph, st: seq<nat>, w: Word, hot: bool, x: nat)
    requires st != [] && x in st && (hot ==> HasInverted(g, x)) && Reads(g, Start(st), w, x)
    ensures LeadsIn(g, st, w, hot)
  {
  }

  lemma SplitsAt(L: Lang, M: Lang, w: Word, k: nat)
    requires k <= |w| && w[..k] in L && w[k..] in M
    ensures w in Concat(L, M)
  {
    assert Splits(L, M, w, k);
  }

  // ---- sequence

  lemma SequenceLeads(g: Graph, st1: seq<nat>, st2: seq<nat>, g': Graph, s: nat, e: nat, w: Word, hot: bool)
    requires SequenceOf(g, st1, st2, g', s, e) && LeadsIn(g', [s] + st1 + st2 + [e], w, hot)
    ensures st1 != [] && st2 != []
    ensures w in Led(g, st1, hot) + Concat(LangOf(g, st1), Led(g, st2, hot))
  {
    hide Glued, WellFormed, HasInverted, EpsState;
    SequenceStarts(g, st1, st2, g', s, e);
    var q :| q in [s] + st1 + st2 + [e] && (hot ==> HasInverted(g', q)) && Reads(g', s, w, q);
    var n: nat :| Go(g', s, w, q, n);
    EpsCold(g', s, [Start(st1)]);
    EpsCold(g', e, [e]);
    if n == 0 {
      StartLeads(g, st1);
    } else {
      var r := EpsFirst(g', s, [Start(st1)], w, q, n);
      var inside, k, m := LeaveGlued(g, st1, g', Start(st2), Start(st1), w, q, n - 1);
      if inside {
        GluedRanges(g, st1, g', Start(st2), q);
        LeadsBy(g, st1, w, hot, q);
      } else {
        SequenceRest(g, st1, st2, g', s, e, w[k..], hot, q, m);
        SplitsAt(LangOf(g, st1), Led(g, st2, hot), w, k);
      }
    }
  }

  lemma SequenceStarts(g: Graph, st1: seq<nat>, st2: seq<nat>, g': Graph, s: nat, e: nat)
    requires SequenceOf(g, st1, st2, g', s, e)
    ensures |st1| >= 2 && |st2| >= 2 && Start(st1) in st1 && Start(st2) in st2
    ensures EpsState(g', e, [e])
  {
  }

  /** The second part of the path, from the start state of the second automaton. */
  lemma SequenceRest(g: Graph, st1: seq<nat>, st2: seq<nat>, g': Graph, s: nat, e: nat, w: Word, hot: bool, q: nat,
                     n: nat)
    requires SequenceOf(g, st1, st2, g', s, e) && st2 != [] && Go(g', Start(st2), w, q, n)
    requires hot ==> HasInverted(g', q)
    ensures LeadsIn(g, st2, w, hot)
  {
    hide Glued, WellFormed, HasInverted;
    SequenceStarts(g, st1, st2, g', s, e);
    EpsCold(g', e, [e]);
    var inside, k, m := LeaveGlued(g, st2, g', e, Start(st2), w, q, n);
    if inside {
      GluedRanges(g, st2, g', e, q);
      LeadsBy(g, st2, w, hot, q);
    } else {
      LoopOnly(g', e, w[k..], q, m);
      assert w[..k] == w;
      LangLeads(g, st2, w);
    }
  }

  /** Into a part of the glued automaton. */
  lemma PartLeads(g: Graph, st: seq<nat>, g': Graph, x: nat, w: Word, hot: bool) returns (q: nat)
    requires Glued(g, st, g', x) && st != [] && LeadsIn(g, st, w, hot)
    ensures q in st && (hot ==> HasInverted(g', q)) && Reads(g', Start(st), w, q)
  {
    q :| q in st && (hot ==> HasInverted(g, q)) && Reads(g, Start(st), w, q);
    var n: nat :| Go(g, Start(st), w, q, n);
    WithinGlued(g, st, g', x, Start(st), w, q, n);
    GluedRanges(g, st, g', x, q);
  }

  lemma SequenceLed(g: Graph, st1: seq<nat>, st2: seq<nat>, g': Graph, s: nat, e: nat, w: Word, hot: bool)
    requires SequenceOf(g, st1, st2, g', s, e) && st1 != [] && st2 != []
    requires w in Led(g, st1, hot) + Concat(LangOf(g, st1), Led(g, st2, hot))
    ensures LeadsIn(g', [s] + st1 + st2 + [e], w, hot)
  {
    hide Glued, WellFormed, HasInverted, Reads;
    var st := [s] + st1 + st2 + [e];
    if LeadsIn(g, st1, w, hot) {
      var q := PartLeads(g, st1, g', Start(st2), w, hot);
      EpsThenReads(g', s, Start(st1), w, q);
      LeadsBy(g', st, w, hot, q);
    } else {
      var k: nat :| Splits(LangOf(g, st1), Led(g, st2, hot), w, k);
      ThroughGlued(g, st1, g', Start(st2), w[..k]);
      var q := PartLeads(g, st2, g', e, w[k..], hot);
      ReadsConcat(g', Start(st1), w[..k], Start(st2), w[k..], q);
      assert w[..k] + w[k..] == w;
      EpsThenReads(g', s, Start(st1), w, q);
      LeadsBy(g', st, w, hot, q);
    }
  }

  ghost function SequenceOfProfiles(L1: Lang, p1: Profile, L2: Lang, p2: Profile): Profile {
    Profile(p1.goes + Concat(L1, p2.goes), p1.hots + Concat(L1, p2.hots), (p1.tail && L2 != iset{}) || p2.tail)
  }

  lemma TailBy(g: Graph, st: seq<nat>, p: nat, t: Trans, w: Word)
    requires st != [] && InvertedTransition(g, st, p, t) && Reads(g, t.target, w, End(st))
    ensures InvertedToEnd(g, st)
  {
  }

  lemma SequenceTail(g: Graph, st1: seq<nat>, st2: seq<nat>, g': Graph, s: nat, e: nat)
    requires SequenceOf(g, st1, st2, g', s, e) && InvertedToEnd(g', [s] + st1 + st2 + [e])
    ensures st1 != [] && st2 != []
    ensures (InvertedToEnd(g, st1) && LangOf(g, st2) != iset{}) || InvertedToEnd(g, st2)
  {
    hide Glued, WellFormed, HasInverted, InvertedTransition, Reads;
    SequenceStarts(g, st1, st2, g', s, e);
    var st := [s] + st1 + st2 + [e];
    var p, t, w: Word :| InvertedTransition(g', st, p, t) && Reads(g', t.target, w, e);
    var n := SomeGo(g', t.target, w, e);
    NotCold(g', s, [Start(st1)], st, p, t);
    NotCold(g', e, [e], st, p, t);
    TransitionIn(g', st, p, t);
    NotInside(g, st2, g', e);
    if p in st1 {
      GluedTransition(g, st1, g', Start(st2), p, t, st);
      var inside, k, m := LeaveGlued(g, st1, g', Start(st2), t.target, w, e, n);
      var inside2, k2, m2 := LeaveGlued(g, st2, g', e, Start(st2), w[k..], e, m);
      assert w[k..][..k2] in LangOf(g, st2);
      TailBy(g, st1, p, t, w[..k]);
    } else {
      GluedTransition(g, st2, g', e, p, t, st);
      var inside, k, m := LeaveGlued(g, st2, g', e, t.target, w, e, n);
      TailBy(g, st2, p, t, w[..k]);
    }
  }

  lemma SomeGo(g: Graph, p: nat, w: Word, q: nat) returns (n: nat)
    requires Reads(g, p, w, q)
    ensures Go(g, p, w, q, n)
  {
    n :| Go(g, p, w, q, n);
  }

  lemma SequenceTailBack(g: Graph, st1: seq<nat>, st2: seq<nat>, g': Graph, s: nat, e: nat)
    requires SequenceOf(g, st1, st2, g', s, e) && st1 != [] && st2 != []
    requires (InvertedToEnd(g, st1) && LangOf(g, st2) != iset{}) || InvertedToEnd(g, st2)
    ensures InvertedToEnd(g', [s] + st1 + st2 + [e])
  {
    hide Glued, WellFormed, HasInverted, InvertedTransition, Reads;
    var st := [s] + st1 + st2 + [e];
    if InvertedToEnd(g, st2) {
      var p, t, w: Word :| InvertedTransition(g, st2, p, t) && Reads(g, t.target, w, End(st2));
      TailGlued(g, st2, g', e, p, t, w, st);
      TailBy(g', st, p, t, w);
    } else {
      var p, t, w: Word :| InvertedTransition(g, st1, p, t) && Reads(g, t.target, w, End(st1));
      var v :| v in LangOf(g, st2);
      TailGlued(g, st1, g', Start(st2), p, t, w, st);
      ThroughGlued(g, st2, g', e, v);
      ReadsConcat(g', t.target, w, Start(st2), v, e);
      TailBy(g', st, p, t, w + v);
    }
  }

  lemma NotCold(g: Graph, s: nat, targets: seq<nat>, st: seq<nat>, p: nat, t: Trans)
    requires EpsState(g, s, targets) && InvertedTransition(g, st, p, t)
    ensures p != s
  {
  }

  lemma NotInside(g: Graph, st: seq<nat>, g': Graph, x: nat)
    requires Glued(g, st, g', x)
    ensures x !in st
  {
  }

  lemma GluedTransition(g: Graph, st: seq<nat>, g': Graph, x: nat, p: nat, t: Trans, st': seq<nat>)
    requires Glued(g, st, g', x) && p in st && p in st'
    ensures InvertedTransition(g', st', p, t) <==> InvertedTransition(g, st, p, t)
    ensures InvertedTransition(g, st, p, t) ==> t.target in st
  {
    GluedRanges(g, st, g', x, p);
    EdgesStay(g, st, p);
  }

  /** From an inverted range to the end state of its part, and on to x. */
  lemma TailGlued(g: Graph, st: seq<nat>, g': Graph, x: nat, p: nat, t: Trans, w: Word, st': seq<nat>)
    requires Glued(g, st, g', x) && st != [] && InvertedTransition(g, st, p, t) && Reads(g, t.target, w, End(st))
    requires forall q :: q in st ==> q in st'
    ensures InvertedTransition(g', st', p, t) && Reads(g', t.target, w, x)
  {
    GluedTransition(g, st, g', x, p, t, st');
    var n: nat :| Go(g, t.target, w, End(st), n);
    EnterGlued(g, st, g', x, t.target, w, n);
    assert g'[End(st)].empty[|g'[End(st)].empty| - 1] == x;
    ReadsEps(g', End(st), x);
    ReadsConcat(g', t.target, w, End(st), [], x);
    assert w + [] == w;
  }

  lemma SequenceProfile(g: Graph, st1: seq<nat>, st2: seq<nat>, g': Graph, s: nat, e: nat)
    requires SequenceOf(g, st1, st2, g', s, e)
    ensures st1 != [] && st2 != []
    ensures ProfileOf(g', [s] + st1 + st2 + [e]) ==
      SequenceOfProfiles(LangOf(g, st1), ProfileOf(g, st1), LangOf(g, st2), ProfileOf(g, st2))
  {
    SequenceStarts(g, st1, st2, g', s, e);
    hide LeadsIn, InvertedToEnd, SequenceOf, LangOf, Concat;
    if InvertedToEnd(g', [s] + st1 + st2 + [e]) { SequenceTail(g, st1, st2, g', s, e); }
    if (InvertedToEnd(g, st1) && LangOf(g, st2) != iset{}) || InvertedToEnd(g, st2) {
      SequenceTailBack(g, st1, st2, g', s, e);
    }
    forall w: Word, hot: bool
      ensures LeadsIn(g', [s] + st1 + st2 + [e], w, hot) <==>
        w in Led(g, st1, hot) + Concat(LangOf(g, st1), Led(g, st2, hot))
    {
      if LeadsIn(g', [s] + st1 + st2 + [e], w, hot) { SequenceLeads(g, st1, st2, g', s, e, w, hot); }
      if w in Led(g, st1, hot) + Concat(LangOf(g, st1), Led(g, st2, hot)) {
        SequenceLed(g, st1, st2, g', s, e, w, hot);
      }
    }
  }

  // ---- or

  ghost function OrOfProfiles(p1: Profile, p2: Profile): Profile {
    Profile(p1.goes + p2.goes, p1.hots + p2.hots, p1.tail || p2.tail)
  }

  lemma OrParts(g: Graph, st1: seq<nat>, st2: seq<nat>, g': Graph, s: nat, e: nat)
    requires OrOf(g, st1, st2, g', s, e)
    ensures |st1| >= 2 && |st2| >= 2 && Start(st1) in st1 && Start(st2) in st2
    ensures Glued(g, st1, g', e) && Glued(g, st2, g', e) && EpsState(g', s, [Start(st1), Start(st2)])
    ensures EpsState(g', e, [e]) && s != e
  {
  }

  lemma OrLeads(g: Graph, st1: seq<nat>, st2: seq<nat>, g': Graph, s: nat, e: nat, w: Word, hot: bool)
    requires OrOf(g, st1, st2, g', s, e) && LeadsIn(g', [s] + st1 + st2 + [e], w, hot)
    ensures st1 != [] && st2 != [] && (LeadsIn(g, st1, w, hot) || LeadsIn(g, st2, w, hot))
  {
    hide Glued, WellFormed, HasInverted, EpsState, OrOf;
    OrParts(g, st1, st2, g', s, e);
    var q :| q in [s] + st1 + st2 + [e] && (hot ==> HasInverted(g', q)) && Reads(g', s, w, q);
    var n: nat :| Go(g', s, w, q, n);
    EpsCold(g', s, [Start(st1), Start(st2)]);
    EpsCold(g', e, [e]);
    if n == 0 {
      StartLeads(g, st1);
    } else {
      var r := EpsFirst(g', s, [Start(st1), Start(st2)], w, q, n);
      PartRest(g, if r == Start(st1) then st1 else st2, g', e, w, hot, q, n - 1);
    }
  }

  /** A path from the start state of a part that leaves to the end state e. */
  lemma PartRest(g: Graph, st: seq<nat>, g': Graph, e: nat, w: Word, hot: bool, q: nat, n: nat)
    requires Glued(g, st, g', e) && st != [] && Start(st) in st && Go(g', Start(st), w, q, n)
    requires EpsState(g', e, [e]) && (hot ==> HasInverted(g', q))
    ensures LeadsIn(g, st, w, hot)
  {
    hide Glued, WellFormed, HasInverted;
    EpsCold(g', e, [e]);
    var inside, k, m := LeaveGlued(g, st, g', e, Start(st), w, q, n);
    if inside {
      GluedRanges(g, st, g', e, q);
      LeadsBy(g, st, w, hot, q);
    } else {
      LoopOnly(g', e, w[k..], q, m);
      assert w[..k] == w;
      GluedEnd(g, st, g', e);
      LangLeads(g, st, w);
    }
  }

  lemma GluedEnd(g: Graph, st: seq<nat>, g': Graph, x: nat)
    requires Glued(g, st, g', x)
    ensures |st| >= 2 && Start(st) in st && End(st) in st
  {
  }

  lemma PartLed(g: Graph, st: seq<nat>, g': Graph, x: nat, s: nat, w: Word, hot: bool, st': seq<nat>)
    requires Glued(g, st, g', x) && st != [] && LeadsIn(g, st, w, hot) && Eps(g', s, Start(st))
    requires st' != [] && Start(st') == s && forall q :: q in st ==> q in st'
    ensures LeadsIn(g', st', w, hot)
  {
    hide Glued, Reads, HasInverted;
    var q := PartLeads(g, st, g', x, w, hot);
    EpsThenReads(g', s, Start(st), w, q);
    LeadsBy(g', st', w, hot, q);
  }

  lemma OrTail(g: Graph, st1: seq<nat>, st2: seq<nat>, g': Graph, s: nat, e: nat)
    requires OrOf(g, st1, st2, g', s, e)
    ensures st1 != [] && st2 != []
    ensures InvertedToEnd(g', [s] + st1 + st2 + [e]) <==> InvertedToEnd(g, st1) || InvertedToEnd(g, st2)
  {
    hide Glued, WellFormed, HasInverted, InvertedTransition, Reads, OrOf, EpsState;
    OrParts(g, st1, st2, g', s, e);
    var st := [s] + st1 + st2 + [e];
    if p, t, w: Word :| InvertedTransition(g', st, p, t) && Reads(g', t.target, w, e) {
      NotCold(g', s, [Start(st1), Start(st2)], st, p, t);
      NotCold(g', e, [e], st, p, t);
      TransitionIn(g', st, p, t);
      PartTail(g, if p in st1 then st1 else st2, g', e, p, t, w, st);
    }
    if InvertedToEnd(g, st1) { TailKept(g, st1, g', e, st); }
    if InvertedToEnd(g, st2) { TailKept(g, st2, g', e, st); }
  }

  lemma PartTail(g: Graph, st: seq<nat>, g': Graph, x: nat, p: nat, t: Trans, w: Word, st': seq<nat>)
    requires Glued(g, st, g', x) && st != [] && p in st && p in st' && InvertedTransition(g', st', p, t)
    requires Reads(g', t.target, w, x)
    ensures InvertedToEnd(g, st)
  {
    hide Glued, InvertedTransition, Reads;
    GluedTransition(g, st, g', x, p, t, st');
    var n := SomeGo(g', t.target, w, x);
    NotInside(g, st, g', x);
    var inside, k, m := LeaveGlued(g, st, g', x, t.target, w, x, n);
    TailBy(g, st, p, t, w[..k]);
  }

  lemma TailKept(g: Graph, st: seq<nat>, g': Graph, x: nat, st': seq<nat>)
    requires Glued(g, st, g', x) && st != [] && InvertedToEnd(g, st)
    requires st' != [] && x == End(st') && forall q :: q in st ==> q in st'
    ensures InvertedToEnd(g', st')
  {
    hide Glued, InvertedTransition, Reads;
    var p, t, w: Word :| InvertedTransition(g, st, p, t) && Reads(g, t.target, w, End(st));
    TailGlued(g, st, g', x, p, t, w, st');
    TailBy(g', st', p, t, w);
  }

  lemma OrProfile(g: Graph, st1: seq<nat>, st2: seq<nat>, g': Graph, s: nat, e: nat)
    requires OrOf(g, st1, st2, g', s, e)
    ensures st1 != [] && st2 != []
    ensures ProfileOf(g', [s] + st1 + st2 + [e]) == OrOfProfiles(ProfileOf(g, st1), ProfileOf(g, st2))
  {
    hide LeadsIn, InvertedToEnd, OrOf, EpsState, Glued;
    OrParts(g, st1, st2, g', s, e);
    OrTail(g, st1, st2, g', s, e);
    var st := [s] + st1 + st2 + [e];
    forall w: Word, hot: bool
      ensures LeadsIn(g', st, w, hot) <==> LeadsIn(g, st1, w, hot) || LeadsIn(g, st2, w, hot)
    {
      if LeadsIn(g', st, w, hot) { OrLeads(g, st1, st2, g', s, e, w, hot); }
      EpsTo(g', s, [Start(st1), Start(st2)]);
      if LeadsIn(g, st1, w, hot) { PartLed(g, st1, g', e, s, w, hot, st); }
      if LeadsIn(g, st2, w, hot) { PartLed(g, st2, g', e, s, w, hot, st); }
    }
  }

  lemma EpsTo(g: Graph, s: nat, targets: seq<nat>)
    requires EpsState(g, s, targets)
    ensures forall r :: r in targets ==> Eps(g, s, r)
  {
  }

  // ---- repeat

  ghost function LoopOfProfile(L: Lang, p: Profile): Profile {
    Profile(Concat(Star(L), p.goes), Concat(Star(L), p.hots), p.tail)
  }

  lemma StarConcat(L: Lang, M: Lang, w: Word, k: nat)
    requires k <= |w| && w[..k] in L && w[k..] in Concat(Star(L), M)
    ensures w in Concat(Star(L), M)
  {
    hide Star;
    var j: nat :| Splits(Star(L), M, w[k..], j);
    StarStep(L, w[..k], w[k..][..j]);
    assert w[..k + j] == w[..k] + w[k..][..j] && w[k + j..] == w[k..][j..];
    SplitsAt(Star(L), M, w, k + j);
  }

  lemma StarNothing(L: Lang, M: Lang, w: Word)
    requires w in M
    ensures w in Concat(Star(L), M)
  {
    assert w[..0] == [] && w[0..] == w;
    SplitsAt(Star(L), M, w, 0);
  }

  lemma StarParts(g: Graph, st: seq<nat>, g': Graph, s: nat, e: nat)
    requires StarOf(g, st, g', s, e)
    ensures Glued(g, st, g', s) && s != e && e !in st && EpsState(g', s, [Start(st), e]) && EpsState(g', e, [e])
    ensures |st| >= 2 && Start(st) in st
  {
  }

  lemma {:induction false} LoopLeads(g: Graph, st: seq<nat>, g': Graph, s: nat, e: nat, w: Word, hot: bool, q: nat,
                                     n: nat)
    requires StarOf(g, st, g', s, e) && st != [] && Go(g', s, w, q, n) && (hot ==> HasInverted(g', q))
    ensures w in Concat(Star(LangOf(g, st)), Led(g, st, hot))
    decreases n
  {
    hide StarOf, Glued, WellFormed, HasInverted, EpsState, Star, Concat;
    StarParts(g, st, g', s, e);
    EpsCold(g', s, [Start(st), e]);
    EpsCold(g', e, [e]);
    var L, M := LangOf(g, st), Led(g, st, hot);
    if n == 0 {
      StartLeads(g, st);
      StarNothing(L, M, w);
    } else {
      var r := EpsFirst(g', s, [Start(st), e], w, q, n);
      if r == e {
        EpsLoop(g', e);
        LoopOnly(g', e, w, q, n - 1);
        StartLeads(g, st);
        StarNothing(L, M, w);
      } else {
        var inside, k, m := LeaveGlued(g, st, g', s, Start(st), w, q, n - 1);
        if inside {
          GluedRanges(g, st, g', s, q);
          LeadsBy(g, st, w, hot, q);
          StarNothing(L, M, w);
        } else {
          LoopLeads(g, st, g', s, e, w[k..], hot, q, m);
          StarConcat(L, M, w, k);
        }
      }
    }
  }

  lemma EpsLoop(g: Graph, e: nat)
    requires EpsState(g, e, [e])
    ensures e in g && g[e].empty == [e] && g[e].ranges == []
  {
  }

  lemma {:induction false} LoopReturns(g: Graph, st: seq<nat>, g': Graph, s: nat, e: nat, w: Word)
    requires StarOf(g, st, g', s, e) && st != [] && InStar(LangOf(g, st), w)
    ensures Reads(g', s, w, s)
    decreases |w|
  {
    hide StarOf, Glued, Reads, EpsState;
    StarParts(g, st, g', s, e);
    if w == [] {
      ReadsNothing(g', s);
    } else {
      var L := LangOf(g, st);
      var k: nat :| 0 < k <= |w| && w[..k] in L && InStar(L, w[k..]);
      LoopReturns(g, st, g', s, e, w[k..]);
      ThroughGlued(g, st, g', s, w[..k]);
      EpsTo(g', s, [Start(st), e]);
      EpsThenReads(g', s, Start(st), w[..k], s);
      ReadsConcat(g', s, w[..k], s, w[k..], s);
      assert w[..k] + w[k..] == w;
    }
  }

  lemma LoopLed(g: Graph, st: seq<nat>, g': Graph, s: nat, e: nat, w: Word, hot: bool) returns (q: nat)
    requires StarOf(g, st, g', s, e) && st != [] && w in Concat(Star(LangOf(g, st)), Led(g, st, hot))
    ensures q in st && (hot ==> HasInverted(g', q)) && Reads(g', s, w, q)
  {
    hide StarOf, Glued, Reads, EpsState, HasInverted;
    StarParts(g, st, g', s, e);
    var k: nat :| Splits(Star(LangOf(g, st)), Led(g, st, hot), w, k);
    LoopReturns(g, st, g', s, e, w[..k]);
    q := PartLeads(g, st, g', s, w[k..], hot);
    EpsTo(g', s, [Start(st), e]);
    EpsThenReads(g', s, Start(st), w[k..], q);
    ReadsConcat(g', s, w[..k], s, w[k..], q);
    assert w[..k] + w[k..] == w;
  }

  lemma LoopTail(g: Graph, st: seq<nat>, g': Graph, s: nat, e: nat, st': seq<nat>)
    requires StarOf(g, st, g', s, e) && st != [] && st' != [] && End(st') == e && (forall q :: q in st ==> q in st')
    requires forall q :: q in st' ==> q in st || q == s || q == e || EpsState(g', q, [Start(st)])
    ensures InvertedToEnd(g', st') <==> InvertedToEnd(g, st)
  {
    hide StarOf, Glued, WellFormed, HasInverted, InvertedTransition, Reads, EpsState;
    StarParts(g, st, g', s, e);
    if p, t, w: Word :| InvertedTransition(g', st', p, t) && Reads(g', t.target, w, e) {
      NotCold(g', s, [Start(st), e], st', p, t);
      NotCold(g', e, [e], st', p, t);
      TransitionIn(g', st', p, t);
      if p !in st { NotCold(g', p, [Start(st)], st', p, t); }
      GluedTransition(g, st, g', s, p, t, st');
      var n := SomeGo(g', t.target, w, e);
      var inside, k, m := LeaveGlued(g, st, g', s, t.target, w, e, n);
      TailBy(g, st, p, t, w[..k]);
    }
    if p, t, w: Word :| InvertedTransition(g, st, p, t) && Reads(g, t.target, w, End(st)) {
      TailGlued(g, st, g', s, p, t, w, st');
      EpsTo(g', s, [Start(st), e]);
      ReadsEps(g', s, e);
      ReadsConcat(g', t.target, w, s, [], e);
      assert w + [] == w;
      TailBy(g', st', p, t, w);
    }
  }

  lemma StarProfile(g: Graph, st: seq<nat>, g': Graph, s: nat, e: nat)
    requires StarOf(g, st, g', s, e)
    ensures st != [] && ProfileOf(g', [s] + st + [e]) == LoopOfProfile(LangOf(g, st), ProfileOf(g, st))
  {
    hide InvertedToEnd, StarOf, EpsState, Glued, HasInverted, Concat, Star, LangOf;
    StarParts(g, st, g', s, e);
    var st' := [s] + st + [e];
    LoopTail(g, st, g', s, e, st');
    forall w: Word, hot: bool
      ensures LeadsIn(g', st', w, hot) <==> w in Concat(Star(LangOf(g, st)), Led(g, st, hot))
    {
      if LeadsIn(g', st', w, hot) {
        var q :| q in st' && (hot ==> HasInverted(g', q)) && Reads(g', s, w, q);
        var n := SomeGo(g', s, w, q);
        LoopLeads(g, st, g', s, e, w, hot, q, n);
      }
      if w in Concat(Star(LangOf(g, st)), Led(g, st, hot)) {
        var q := LoopLed(g, st, g', s, e, w, hot);
        LeadsBy(g', st', w, hot, q);
      }
    }
  }

  lemma PlusParts(g: Graph, st: seq<nat>, g': Graph, s0: nat, s: nat, e: nat)
    requires PlusOf(g, st, g', s0, s, e)
    ensures StarOf(g, st, g', s, e) && EpsState(g', s0, [Start(st)])
  {
  }

  /** Entered past its exit the loop leads to the same states. */
  lemma PlusLeads(g: Graph, st: seq<nat>, g': Graph, s0: nat, s: nat, e: nat, w: Word, hot: bool, q: nat, n: nat)
    requires PlusOf(g, st, g', s0, s, e) && st != [] && Go(g', s0, w, q, n) && (hot ==> HasInverted(g', q))
    ensures w in Concat(Star(LangOf(g, st)), Led(g, st, hot))
  {
    hide StarOf, PlusOf, Glued, WellFormed, HasInverted, EpsState, Star, Concat;
    PlusParts(g, st, g', s0, s, e);
    StarParts(g, st, g', s, e);
    EpsCold(g', s0, [Start(st)]);
    var L, M := LangOf(g, st), Led(g, st, hot);
    if n == 0 {
      StartLeads(g, st);
      StarNothing(L, M, w);
    } else {
      var r := EpsFirst(g', s0, [Start(st)], w, q, n);
      var inside, k, m := LeaveGlued(g, st, g', s, Start(st), w, q, n - 1);
      if inside {
        GluedRanges(g, st, g', s, q);
        LeadsBy(g, st, w, hot, q);
        StarNothing(L, M, w);
      } else {
        LoopLeads(g, st, g', s, e, w[k..], hot, q, m);
        StarConcat(L, M, w, k);
      }
    }
  }

  lemma PlusLed(g: Graph, st: seq<nat>, g': Graph, s0: nat, s: nat, e: nat, w: Word, hot: bool) returns (q: nat)
    requires PlusOf(g, st, g', s0, s, e) && st != [] && w in Concat(Star(LangOf(g, st)), Led(g, st, hot))
    ensures q in st && (hot ==> HasInverted(g', q)) && Reads(g', s0, w, q)
  {
    hide StarOf, PlusOf, Glued, Reads, EpsState, HasInverted;
    PlusParts(g, st, g', s0, s, e);
    StarParts(g, st, g', s, e);
    EpsTo(g', s0, [Start(st)]);
    var L := LangOf(g, st);
    var k: nat :| Splits(Star(L), Led(g, st, hot), w, k);
    if k == 0 {
      assert w[0..] == w;
      q := PartLeads(g, st, g', s, w, hot);
      EpsThenReads(g', s0, Start(st), w, q);
    } else {
      var j := StarFirst(L, w, k);
      SplitsAt(Star(L), Led(g, st, hot), w[j..], k - j);
      q := LoopLed(g, st, g', s, e, w[j..], hot);
      ThroughGlued(g, st, g', s, w[..j]);
      ReadsConcat(g', Start(st), w[..j], s, w[j..], q);
      assert w[..j] + w[j..] == w;
      EpsThenReads(g', s0, Start(st), w, q);
    }
  }

  lemma StarFirst(L: Lang, w: Word, k: nat) returns (j: nat)
    requires 0 < k <= |w| && w[..k] in Star(L)
    ensures j <= k && w[..j] in L && w[j..][..k - j] in Star(L) && w[j..][k - j..] == w[k..]
  {
    var u := w[..k];
    j :| 0 < j <= |u| && u[..j] in L && InStar(L, u[j..]);
    assert w[..j] == u[..j] && w[j..][..k - j] == u[j..];
  }

  lemma PlusProfile(g: Graph, st: seq<nat>, g': Graph, s0: nat, s: nat, e: nat)
    requires PlusOf(g, st, g', s0, s, e)
    ensures st != [] && ProfileOf(g', [s0, s] + st + [e]) == LoopOfProfile(LangOf(g, st), ProfileOf(g, st))
  {
    hide InvertedToEnd, StarOf, PlusOf, EpsState, Glued, HasInverted, Concat, Star, LangOf;
    PlusParts(g, st, g', s0, s, e);
    StarParts(g, st, g', s, e);
    var st' := [s0, s] + st + [e];
    LoopTail(g, st, g', s, e, st');
    forall w: Word, hot: bool
      ensures LeadsIn(g', st', w, hot) <==> w in Concat(Star(LangOf(g, st)), Led(g, st, hot))
    {
      if LeadsIn(g', st', w, hot) {
        var q :| q in st' && (hot ==> HasInverted(g', q)) && Reads(g', s0, w, q);
        var n := SomeGo(g', s0, w, q);
        PlusLeads(g, st, g', s0, s, e, w, hot, q, n);
      }
      if w in Concat(Star(LangOf(g, st)), Led(g, st, hot)) {
        var q := PlusLed(g, st, g', s0, s, e, w, hot);
        LeadsBy(g', st', w, hot, q);
      }
    }
  }
}
