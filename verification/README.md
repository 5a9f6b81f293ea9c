# Automata, regular expressions, string search and page allocation, verified

A Dafny model of five imperative cores of the library and proofs of what they promise.

**The automaton engine** (`proglang/automat.c`). `Graphs`, `Languages` and `Thompson` define
automata as maps from states to nodes, the words read along paths, and the invariant of `automat_t`:
the start state is first, the end state is last, and the last empty transition of the end state is a
loop to itself. `Mirror`, `Glue` and `Chains` hold what copying, reversing and combining automata
mean and what these operations keep; `Automata` holds the operations, on a class `Automaton` over a
heap of nodes that knows the memory manager of each of them. `Profiles` says where words lead to in
an automaton, and which of them to ranges from > to, on which later operations fail. `Shortcut` is
the shortening of chains of empty transitions. `BTree` is the B-tree that `multistate_t` and
`rangemap_t` share, with splits of leaves, inner nodes and the root; the classes `MultiState` and
`RangeMap` refine it to a set of states and to sorted, disjoint ranges. `Closures`, `Building`,
`Scanning`, `Exploring` and `Determinize` are the parts of the subset construction, `Subset` and
`Visiting` its theory, `DfaOps` the operations that use it: determinisation, intersection,
difference and complement. `Brzozowski` is minimisation by reversing and determinising twice,
`Residuals` what is left to be read in a state of a deterministic automaton. `Simulate` holds the
two matchers.

**The regular expression compiler** (`proglang/regexpr.c`). `RegexSyntax` defines the abstract
syntax, its denotation and what the parser reads as functions from text to syntax; `Regex` is the
recursive-descent parser that emits automata, proved to accept the denotation of what these
functions read. `RegexGrammar` gives the grammar without reference to any parser, as trees of tokens
with a text and a meaning; `RegexComplete` and `RegexSound` prove that exactly its texts are read,
with exactly their meaning. `RegexNotation` says what the characters of a definition mean, by their
codes and for any texts as operands. `RegexText` writes expressions down with as few parentheses as
possible and proves that they are read back; `RegexErrors` is about an error the documentation does
not tell.

**The string search** (`string/strsearch.c`) is in `StrSearch`, **the arena**
(`proglang/automat_mman.c`) in `Arena`, and **the page allocator** (`memory/pagecache_impl.c`) in
`SubBlocks`, `PageBlocks` and `PageCache`, from the pages of a sub-block up to the lists of blocks.

The classes with an invariant have a predicate for it (`Valid`, or `Ready` for the parser and the
searcher) that the constructor establishes and every method keeps, so what it implies holds after
every sequence of calls.

## Where code and documentation differ

The model follows the code.

- `minimize_automat` is documented to leave no two states with the same suffixes
  (C-kern/api/proglang/automat.h:231-245). The start set of its second determinisation holds one
  marker state that no later set holds, so the start state may have a double:
  `Brzozowski.StarNotMinimal` names `a*` as an example. `Brzozowski.FullyMinimalDone` says for which
  languages this happens: those that some non-empty word leads back to as a whole, and the language
  of the empty word alone. For all others the documented promise holds, and for all languages it
  holds of the states other than the start state.
- Escaping with a backslash is documented to remove any special meaning
  (C-kern/api/proglang/regexpr.h:118-121), but a range that ends with an escaped `]` is a syntax
  error: `RegexErrors.EscapedBracketFails`. `RegexText.TextExists` says which expressions have a
  text.
- At the end of the text an atom may be left out behind `!`, and a backslash there stands for
  itself; the documented grammar has neither.
- `[]` is accepted and stands for the empty word; the documented grammar demands a character.
- The documentation of `init_regexpr` names the errors ESYNTAX and EILSEQ. Ranges from > to are no
  syntax error, but an operation on a later automaton may fail with EINVAL: `Regex.InitRegexpr` says
  exactly when.
- `\t` stands for character 9; the documentation says 8.
- `opnot_automat` is documented relative to characters up to 0xffffffff; the code complements
  relative to characters up to 0x7fffffff.

## Model

| member | source | states |
|---|---|---|
| `Automata.Automaton.InitEmpty` | C-kern/proglang/automat.c:1571-1612 | the new automaton accepts exactly the empty word; its states are new and lie on the memory asked for, or on that of a new manager; nothing that exists is changed |
| `Automata.Automaton.InitMatch` | C-kern/proglang/automat.c:1614-1655 | it accepts exactly the one-character words from the given ranges, and keeps the ranges in order; memory as above |
| `Automata.Automaton.ExtendMatch` | C-kern/proglang/automat.c:2098-2127 | the ranges are appended and the language grows by exactly their characters; EINVAL, changing nothing, exactly for a freed automaton or no ranges |
| `Automata.Automaton.InitCopy` | C-kern/proglang/automat.c:1657-1751 | the copy is a renaming of the source in states that did not exist, all of them on the memory asked for, and accepts its language |
| `Mirror.CopyLang` | C-kern/proglang/automat.c:1657-1751 | a graph in which every state of the source is renamed accepts the language of the source |
| `Automata.Automaton.InitReverse` | C-kern/proglang/automat.c:1753-1846 | the new automaton accepts exactly the reversed words, is the mirror image of the source, and free of cycles of single empty transitions in both directions if the source is; EINVAL exactly for a freed source |
| `Automata.Heap.NewMman` | C-kern/proglang/automat_mman.c:131-150 | no state has been allocated from a new memory manager |
| `Mirror.ReverseReads` | C-kern/proglang/automat.c:1753-1846 | between any two states the mirror image reads a word iff the source reads the reversed word the other way round |
| `Mirror.ReverseRanked` | C-kern/proglang/automat.c:1753-1846 | the mirror image has no cycle of single empty transitions if and only if the source has none backwards, its end state aside: exactly then a reversed automaton can be determinised |
| `Mirror.ReverseBackRanked` | C-kern/proglang/automat.c:1753-1846 | a source without such cycles has a mirror image without such cycles backwards, so that a reversed automaton can be reversed and determinised again |
| `Automata.Automaton.OpSequence` | C-kern/proglang/automat.c:2131-2188 | the result accepts the concatenation and all its states lie on its own memory, so those of a second automaton on other memory have been copied; the second automaton is freed; invariants of automat_t are kept; EINVAL, changing nothing, exactly if one of them is freed |
| `Thompson.SequenceLang` | C-kern/proglang/automat.c:2131-2188 | the wiring of the two automata and the two new states accepts exactly the concatenation |
| `Automata.Automaton.Adopt` | C-kern/proglang/automat.c:2143-2150 | the states taken over from the second automaton all lie on the memory of the first, are unchanged if they did before, and accept the same language |
| `Automata.Automaton.OpOr` | C-kern/proglang/automat.c:2234-2291 | the result accepts the union; memory and EINVAL as for "sequence" |
| `Thompson.OrLang` | C-kern/proglang/automat.c:2234-2291 | the wiring for "or" accepts exactly the union |
| `Automata.Automaton.OpRepeat` | C-kern/proglang/automat.c:2190-2232 | the result accepts the star, or with isAtLeastOneTime the plus, of the language; memory and EINVAL as above |
| `Thompson.StarLang` | C-kern/proglang/automat.c:2190-2232 | the loop through the new start state accepts exactly all finite concatenations |
| `Thompson.PlusLang` | C-kern/proglang/automat.c:2190-2232 | the loop entered past its exit accepts exactly one or more repetitions |
| `Thompson.ExitGlued` | C-kern/proglang/automat.c:2131-2291 | whatever path leaves an automaton whose final self-loop was redirected has read one of its words first |
| `Profiles.SequenceProfile` | C-kern/proglang/automat.c:2131-2188 | just the words of the parts, put together, lead anywhere, or to a range from > to, in a sequence; and such a range leads on to the end state exactly if it did in the second part, or in the first and the second accepts a word |
| `Profiles.OrProfile` | C-kern/proglang/automat.c:2234-2291 | the same for "or" |
| `Profiles.StarProfile` | C-kern/proglang/automat.c:2190-2232 | the same for "*": any repetitions, and then what leads there in the automaton repeated |
| `Profiles.PlusProfile` | C-kern/proglang/automat.c:2190-2232 | the same for "+", where the exit of the loop is passed by first |
| `Profiles.CopyProfile` | C-kern/proglang/automat.c:1657-1751 | in a copy words lead where they led in the source |
| `Glue.SequenceDone` | C-kern/proglang/automat.c:2131-2188 | end-state self-loop, distinct states, forward and backward acyclicity of single empty transitions and from <= to all survive "sequence" |
| `Glue.OrDone` | C-kern/proglang/automat.c:2234-2291 | the same invariants survive "or" |
| `Glue.StarDone` | C-kern/proglang/automat.c:2190-2232 | the same invariants survive "*" |
| `Glue.PlusDone` | C-kern/proglang/automat.c:2190-2232 | the same invariants survive "+" |
| `Shortcut.RemoveSingleEmptyTransitions` | C-kern/proglang/automat.c:2402-2439 | terminates when single empty transitions form no cycle but self-loops; every state reads the same words to the end state as before, and no range transition or chain leads through a bypassed state any more |
| `Shortcut.FindLast` | C-kern/proglang/automat.c:2402-2439 | the chain is followed to its last state, at most once per state |
| `Shortcut.MovedGo` | C-kern/proglang/automat.c:2402-2439 | moving targets on along chains loses no word, and never bypasses the end state |
| `Shortcut.MovedReads` | C-kern/proglang/automat.c:2402-2439 | moving targets on along chains adds no word |
| `MultiStates.MultiState.Add` | C-kern/proglang/automat.c:556-780 | EEXIST exactly if the state is a member; otherwise the set grows by exactly this state; all invariants of the B-tree are kept |
| `MultiStates.MultiState.ToSeq` | C-kern/proglang/automat.c:785-837 | iteration yields every member once, in strictly ascending order |
| `MultiStates.AscendingUnique` | C-kern/proglang/automat.c:1472-1523 | sets with equal members have equal state vectors, so comparing vectors compares sets |
| `BTree.Locate` | C-kern/proglang/automat.c:571-605 | descending from the root finds the leaf in which the key belongs, among all items in order |
| `BTree.SearchChild` | C-kern/proglang/automat.c:581-593 | binary search in an inner node finds the only child the key belongs below |
| `BTree.PutItems` | C-kern/proglang/automat.c:618-750 | replacing the items of a leaf, with splits of leaf, inner nodes and root, leaves a tree whose items are the old ones with that leaf replaced |
| `BTree.SplitParent` | C-kern/proglang/automat.c:682-734 | splitting a full inner node keeps the tree below and moves the pending child one level up |
| `BTree.Put` | C-kern/proglang/automat.c:618-750 | as PutItems, for the sequence of all items in ascending order |
| `BTree.HeightBound` | C-kern/proglang/automat.c:423-444 | every inner node has two children at least, so level k of a tree with its root in level h has at least 2^(h-k) nodes |
| `BTree.DepthBound` | C-kern/proglang/automat.c:425-444 | with fewer than 2^bits nodes the tree has at most `bits` levels: a depth stack with one entry for every bit of size_t is never exceeded |
| `BTree.NodeFill` | C-kern/proglang/automat.c:618-750 | every node but the root is at least half full |
| `MultiStates.StateNodes` | C-kern/proglang/automat.c:447-464 | a leaf of a set holds 7 to 14 states and an inner node 4 to 8 children; a root holds 2 at least |
| `RangeMaps.RangeNodes` | C-kern/proglang/automat.c:858-874 | a leaf of a map holds 5 to 10 ranges and an inner node 10 to 20 children; a root leaf holds one at least, an inner root two |
| `BTree.ReadLeaves` | C-kern/proglang/automat.c:792-837 | the chain of leaves holds exactly the items of the tree, from left to right |
| `RangeMaps.RangeMap.AddRange` | C-kern/proglang/automat.c:1214-1230 | EINVAL, changing nothing, exactly if from > to; otherwise exactly [from..to] is covered in addition, there are new borders at its two ends and nowhere else, every gap is filled by one range, ranges stay sorted and disjoint, and the retry loop terminates |
| `RangeMaps.RangeMap.AddRange2` | C-kern/proglang/automat.c:974-1212 | one call covers the first part of [from..to] in just this way, or makes the border at its start; "again" exactly if some of it is left, which starts with a range that exists |
| `RangeMaps.PlanRange` | C-kern/proglang/automat.c:1031-1067 | the decision made in the leaf, skip, cut or fill a gap, is the right one in every case |
| `RangeMaps.ExactKept` | C-kern/proglang/automat.c:974-1212 | any range that was an exact union of stored ranges remains one after further ranges are added |
| `RangeMaps.RangeMap.AddState` | C-kern/proglang/automat.c:1232-1296 | succeeds exactly if [from..to] is an exact union of stored ranges; then the state is added to the ranges inside, and to no other |
| `RangeMaps.RangeMap.ToSeq` | C-kern/proglang/automat.c:1308-1342 | iteration yields the ranges in order |
| `Closures.FollowEmpty` | C-kern/proglang/automat.c:2295-2349 | the set grows to exactly what its members reach by empty transitions; the worklist loops terminate |
| `Building.BuildRangeMap` | C-kern/proglang/automat.c:2351-2395 | for every character the range that holds it has exactly the targets of the transitions of the vector on it; EINVAL exactly if a transition has from > to; the flags say exactly which end states the vector holds |
| `Building.IsMapped` | C-kern/proglang/automat.c:2351-2395 | a map split by all transitions and marked with all targets answers every character exactly |
| `Building.AddTargets` | C-kern/proglang/automat.c:2375-2388 | the second pass never fails: every transition is an exact union of the ranges made in the first |
| `Subset.SubsetReads` | C-kern/proglang/automat.c:2463-2658 | each state of the new automaton accepts exactly the words its set of states accepts |
| `Subset.SubsetLang` | C-kern/proglang/automat.c:2463-2911 | the new automaton accepts the language, or the intersection or difference of the two languages |
| `Subset.UselessRejects` | C-kern/proglang/automat.c:1445-1465 | a set without a state of an automaton that is needed accepts no word, so that pruning it changes nothing |
| `Subset.SubsetDeterministic` | C-kern/proglang/automat.c:2463-2658 | the ranges of every new state are sorted and disjoint, its only empty transition leads to the end state, and two ranges that lead to one state other than the end state never touch |
| `Scanning.IsNrDfa12` | C-kern/proglang/automat.c:1445-1465 | true exactly if the vector holds a state of each automaton that is needed |
| `Scanning.AddTransition` | C-kern/proglang/automat.c:2592-2617 | merging a range with its neighbour or appending it sends exactly the same characters to the same targets; ranges that touch lead to different sets |
| `Scanning.Enter` | C-kern/proglang/automat.c:2584-2591 | a state vector keeps its number if it is known, and gets the next one if not |
| `Scanning.Scan` | C-kern/proglang/automat.c:2569-2618 | the new state sends every character to the closure of what the old states reach on it, or nowhere if that is pruned |
| `Exploring.Process` | C-kern/proglang/automat.c:2526-2620 | one turn of the worklist: the invariant of the construction is kept for one more vector |
| `Exploring.VecsBound` | C-kern/proglang/automat.c:2523-2527 | there are no more vectors than sets of states: the worklist loop terminates |
| `Determinize.Explore` | C-kern/proglang/automat.c:2501-2621 | when the worklist is empty every vector that can be reached has its state; it fails exactly if a set that is visited holds a range from > to |
| `Determinize.SubsetBuilt` | C-kern/proglang/automat.c:2623-2634 | after targets were changed from vectors to states, the graph is a subset automaton with one state per set, all reachable |
| `DfaOps.MakeDfa` | C-kern/proglang/automat.c:2463-2658 | the automaton becomes deterministic and accepts the same language, on the memory of a new manager; nothing else is changed; EINVAL if and only if a state that some word leads to has a range from > to, and then the automaton is still valid with its language |
| `DfaOps.MakeDfa2` | C-kern/proglang/automat.c:2690-2911 | the automaton becomes the deterministic intersection, or difference, of both, on the memory of a new manager; EINVAL if and only if a word that is not pruned leads to a state with a range from > to |
| `Visiting.VisitsMeets` | C-kern/proglang/automat.c:2519-2620 | the worklist comes upon a range from > to if and only if a word that is not pruned leads to it in one of the automata |
| `Visiting.VisitsReads` | C-kern/proglang/automat.c:2519-2620 | a set that is visited holds exactly the states its word leads to |
| `DfaOps.Combine` | C-kern/proglang/automat.c:2913-2941 | opand and opandnot: intersection or difference, and the second automaton is freed |
| `DfaOps.OpNot` | C-kern/proglang/automat.c:2943-2968 | exactly the words over [0..0x7fffffff] that the automaton did not accept; EINVAL if and only if a word over these characters leads to a state with a range from > to |
| `Visiting.SubsetGoes` | C-kern/proglang/automat.c:2519-2620 | after determinisation a word leads to a state exactly if it led to one in the automata that are needed |
| `DfaOps.MeetsProfile` | C-kern/proglang/automat.c:2690-2911 | so whether intersection or difference fails is decided by where words lead in the two automata |
| `DfaOps.MeetsUpToProfile` | C-kern/proglang/automat.c:2943-2968 | and whether complementing fails |
| `Languages.StarOfAll` | C-kern/api/proglang/automat.h:214-216 | the star of all characters is the set of all words, relative to which opnot complements |
| `Brzozowski.Minimize` | C-kern/proglang/automat.c:2660-2686 | same language, deterministic, different non-start states accept different words; and fully minimal if and only if the language is neither {""} nor led back to as a whole by some non-empty word; EINVAL if and only if the end state can be reached from a range from > to |
| `Brzozowski.ReversalMeets` | C-kern/proglang/automat.c:2660-2686 | the determinisation of the mirror image comes upon a range from > to exactly in that case |
| `Brzozowski.MinimalDone` | C-kern/proglang/automat.c:2660-2686 | in the determinised reversal of a deterministic automaton any two states but the start state are told apart by a word |
| `Brzozowski.FullyMinimalDone` | C-kern/proglang/automat.c:2660-2686 | the start state has a double if and only if the language is {""} or some non-empty word leads back to all of it |
| `Brzozowski.SetPart` | C-kern/api/proglang/automat.h:236-243 | a state that accepts what another accepts stands for a larger set of states |
| `Brzozowski.StarNotMinimal` | C-kern/api/proglang/automat.h:231-245 | for a* the promise fails: its minimised automaton has two different states that accept the same words |
| `Residuals.StarReturns` | C-kern/api/proglang/automat.h:231-245 | every a leads back to all of a* |
| `Residuals.BoundedNeverReturns` | C-kern/api/proglang/automat.h:231-245 | a language with words of bounded length is never such a language |
| `Residuals.Residual` | C-kern/proglang/automat.c:2660-2686 | in a deterministic automaton the state a word leads to accepts exactly what may follow this word |
| `Simulate.MatchChar32` | C-kern/proglang/automat.c:1959-2055 | the length of the longest, or shortest, accepted prefix, or 0 if there is none; also for deterministic automata and for freed ones |
| `Simulate.MatchNfa` | C-kern/proglang/automat.c:1976-2055 | the simulation by sets of states, with the list that grows while it is iterated over, finds that length; all flags are clear after each step |
| `Simulate.MatchDfa` | C-kern/proglang/automat.c:1876-1957 | so does the search along single states, for every automaton in the form determinisation leaves |
| `Simulate.MatchedOnce` | C-kern/api/proglang/automat.h:149-162 | this length is unique, so both matchers return the same number on every text in both modes |
| `Simulate.CloseList` | C-kern/proglang/automat.c:1987-2002 | inserting into the list during iteration ends with exactly the closure |
| `Simulate.FindRange` | C-kern/proglang/automat.c:1910-1935 | skipping whole nodes and binary search find a transition on the character iff there is one |
| `StateArrays.StateArray.Remove2` | C-kern/proglang/automat.c:336-354 | takes the first state of the second list, and fails exactly if it is empty |
| `Regex.InitRegexpr` | C-kern/proglang/regexpr.c:491-541 | three outcomes, each if and only if: ESYNTAX if there is a syntax error and no operation failed before it; EINVAL if an operation failed before a syntax error, or for an expression without matcher (`RegexSyntax.NoMatcher`); otherwise the matcher accepts exactly the denotation of the expression that the grammar derives the definition for, is deterministic, on memory of its own, and minimal but for a double of the start state, which exists exactly for the languages named above |
| `Regex.Buffer.ParseRegexpr` | C-kern/proglang/regexpr.c:414-473 | the automaton left in result accepts exactly the denotation of the expression that was read |
| `Regex.Buffer.ParseSequence` | C-kern/proglang/regexpr.c:350-410 | the same for sequences of factors; the repeat operator is applied before "!" |
| `Regex.Buffer.ParseFactor` | C-kern/proglang/regexpr.c:357-389 | the same for one factor |
| `Regex.Buffer.ParseAtom` | C-kern/proglang/regexpr.c:267-346 | the same for parentheses, characters, "." and sets |
| `Regex.Buffer.ParseBrackets` | C-kern/proglang/regexpr.c:281-327 | the same for sets, negated or not, and for the empty set |
| `Regex.Buffer.ParseChar` | C-kern/proglang/regexpr.c:170-189 | behind a backslash, 92, the letters n, r and t (110, 114, 116) stand for 10, 13 and 9, every other character for itself; without it, or at the end of the input, the character is taken as it is |
| `Regex.Buffer.PeekNext` | C-kern/proglang/regexpr.c:132-141 | spaces are skipped, and the next character is left in the input |
| `Regex.Buffer.ReadNext` | C-kern/proglang/regexpr.c:107-115 | spaces are skipped, and the next character is taken from the input |
| `Regex.Buffer.OperatorNot` | C-kern/proglang/regexpr.c:215-233 | all single characters but those of the set; EINVAL if and only if one of its ranges is from > to |
| `Regex.Buffer.OperatorOptional` | C-kern/proglang/regexpr.c:235-249 | the empty word is accepted in addition |
| `Regex.Buffer.Complement` | C-kern/proglang/regexpr.c:387-389 | "!": the complement of what has been read; EINVAL exactly if a word of characters up to 0x7fffffff leads to a range from > to in it |
| `Regex.Buffer.Intersect` | C-kern/proglang/regexpr.c:430-437 | "&" and "&!": the intersection or difference; EINVAL exactly if a word that has to be followed leads to a range from > to in one of the two |
| `RegexText.RoundTrip` | C-kern/api/proglang/regexpr.h:67-76 | every writable expression is parsed back from its text with no more parentheses than precedence demands: repeat before "!", "!" before sequence, and "|", "&" and "&!" on one level from left to right |
| `RegexText.TextExists` | C-kern/api/proglang/regexpr.h:67-76 | an expression can be written down if and only if no range of more than one character in a set ends with "]" |
| `RegexSound.ParsesGrammar` | C-kern/api/proglang/regexpr.h:67-76 | the parser accepts a text with an expression if and only if the grammar, given as trees of tokens with spaces between them, derives this text for this expression |
| `RegexComplete.Complete` | C-kern/api/proglang/regexpr.h:67-76 | every text of the grammar is read, and as what it stands for |
| `RegexSound.Sound` | C-kern/api/proglang/regexpr.h:67-76 | nothing else is read |
| `RegexErrors.EscapedBracketFails` | C-kern/proglang/regexpr.c:300-307 | a range with upper bound "]", escaped or not, is a syntax error behind any other ranges, in any set, negated or not, at any place where an atom may stand, within any parentheses |
| `RegexNotation.GroupLaw` | C-kern/proglang/regexpr.c:273-280 | a text in parentheses, 40 and 41, stands for what the text stands for |
| `RegexNotation.RepeatLaw` | C-kern/proglang/regexpr.c:371-385 | 42, 43 and 63 behind any text in parentheses stand for zero or more times, one or more times, and optional |
| `RegexNotation.NotLaw` | C-kern/proglang/regexpr.c:357-362 | 33 in front negates what the repeat operator made; two of them cancel out |
| `RegexNotation.SequenceLaw` | C-kern/proglang/regexpr.c:392-400 | two texts side by side are a sequence |
| `RegexNotation.OrLaw` | C-kern/proglang/regexpr.c:424-460 | 124 stands for "or" |
| `RegexNotation.AndLaw` | C-kern/proglang/regexpr.c:424-460 | 38 stands for "and" |
| `RegexNotation.AndNotLaw` | C-kern/proglang/regexpr.c:424-460 | 38 33 stands for "and not" |
| `RegexNotation.AndOfNotLaw` | C-kern/proglang/regexpr.c:424-460 | 38 32 33 is "and" followed by "not" |
| `RegexNotation.LeftLaw` | C-kern/proglang/regexpr.c:414-473 | operators have one precedence and are read from the left |
| `RegexNotation.SequenceBehind` | C-kern/proglang/regexpr.c:414-473 | a sequence binds stronger than the operator in front of it |
| `RegexNotation.SequenceBefore` | C-kern/proglang/regexpr.c:414-473 | and stronger than the one behind it |
| `RegexNotation.OrdinaryLaw` | C-kern/proglang/regexpr.c:328-341 | every character but thirteen stands for itself |
| `RegexNotation.EscapeLaw` | C-kern/api/proglang/regexpr.h:115-120 | an escaped character alone: 10, 13 and 9 for n, r and t, itself for all others |
| `RegexNotation.EscapeWords` | C-kern/api/proglang/regexpr.h:115-120 | the language of such a definition has just one word, with this character |
| `RegexNotation.DotLaw` | C-kern/proglang/regexpr.c:329-332 | 46 stands for the characters 0 to 0x7fffffff |
| `RegexNotation.SetLaw` | C-kern/proglang/regexpr.c:281-327 | sets in 91 and 93 with one or two characters or a range, empty, and negated by 94 |
| `RegexNotation.SetEscapeLaw` | C-kern/proglang/regexpr.c:281-327 | an escaped character in a set |
| `RegexNotation.RangeEscapeLaw` | C-kern/proglang/regexpr.c:281-327 | a range between two escaped characters |
| `RegexNotation.AloneLaw` | C-kern/proglang/regexpr.c:350-410 | what definitions of a single special character stand for, and which of them are errors |
| `RegexNotation.NotFollowed` | C-kern/proglang/regexpr.c:364-368 | an operator or a closing bracket behind "!" is an error, whatever follows |
| `RegexNotation.RepeatedOnce` | C-kern/proglang/regexpr.c:364-385 | a second repeat operator is an error |
| `RegexNotation.SpaceLaw` | C-kern/proglang/regexpr.c:132-141 | spaces in front of a definition do not matter |
| `RegexNotation.Words` | C-kern/api/proglang/regexpr.h:81-90 | the words of "or", "and", "and not", "not" and "?" |
| `RegexNotation.SequenceWords` | C-kern/api/proglang/regexpr.h:88-90 | the words of a sequence |
| `RegexNotation.RepeatedWords` | C-kern/api/proglang/regexpr.h:92-97 | the words of "*" and "+" are the finite concatenations of words, of at least one for "+" |
| `RegexNotation.SetWords` | C-kern/api/proglang/regexpr.h:105-113 | the words of a set, and of a negated one |
| `RegexSyntax.NotIsAllBut` | C-kern/api/proglang/regexpr.h:89-90 | "!e" means the same as ".* &! e" |
| `RegexSyntax.OperandsRemember` | C-kern/proglang/regexpr.c:414-473 | once an operation has failed the outcome says so, even if a syntax error follows |
| `RegexSyntax.OrderedHasMatcher` | C-kern/proglang/regexpr.c:491-541 | without a range from > to no operation fails, so every definition of the grammar without one has a matcher |
| `RegexSyntax.NotAlwaysMet` | C-kern/proglang/regexpr.c:430-437 | a range from > to is no error where it need not be met: "c & x[d-c]" with d > c has a matcher unless x is c |
| `StrSearch.BuildTableRsearchKmp` | C-kern/string/strsearch.c:46-55 | entry i gives the smallest period of the suffix that starts at i + 1, and |p| the end of the chain |
| `StrSearch.SidxBorder` | C-kern/string/strsearch.c:40-55 | that is, the longest proper border of this suffix |
| `StrSearch.BuildTableStrSearch` | C-kern/string/strsearch.c:102-130 | shift[n] is the smallest s >= 1 for which the last n characters of the pattern agree with the pattern shifted right by s, where they overlap |
| `StrSearch.SearchBack` | C-kern/string/strsearch.c:112-127 | the search for the next shift starts from the last one and misses none |
| `StrSearch.ShiftMissesNothing` | C-kern/string/strsearch.c:190-232 | no occurrence starts before the shifted position |
| `StrSearch.ShiftKeeps` | C-kern/string/strsearch.c:190-232 | what was matched remains matched after the shift, so it may be skipped |
| `StrSearch.Compare` | C-kern/string/strsearch.c:213-224 | comparing with the matched segment skipped gives the same answer as comparing all |
| `StrSearch.SearchLoop` | C-kern/string/strsearch.c:206-231 | the first occurrence, or none if there is none |
| `StrSearch.Searcher.constructor` | C-kern/string/strsearch.c:176-186 | the table belongs to the pattern |
| `StrSearch.Searcher.Find` | C-kern/string/strsearch.c:190-232 | for every text and pattern of up to 255 bytes the first occurrence, or none; the empty pattern is never found |
| `StrSearch.StrSearchOnce` | C-kern/string/strsearch.c:234-275 | the same in a single call |
| `StrSearch.ShiftFits` | C-kern/string/strsearch.c:102-130 | entries of the shift table fit a byte and grow with the number of matched characters |
| `Arena.Mman.constructor` | C-kern/proglang/automat_mman.c:131-150 | the manager, of 56 bytes, lies at the start of the first page, and nothing else is in use |
| `Arena.Mman.Malloc` | C-kern/proglang/automat_mman.c:270-298 | a block of the size behind all blocks of the same page, and no other change, if it fits; else the first block of one more page, which is the first of the cache, or a new one if the cache is empty; ENOMEM, changing nothing, exactly if the size fits neither the current page nor a new one of 262136 bytes |
| `Arena.Mman.NextPage` | C-kern/proglang/automat_mman.c:270-287 | exactly one page is added, the first of the cache or a new one; older blocks stay |
| `Arena.Mman.GetFreePage` | C-kern/proglang/automat_mman.c:189-205 | the next page comes from the cache in order, and is new only if the cache is empty |
| `Arena.Mman.MFreeLast` | C-kern/proglang/automat_mman.c:300-320 | everything from the address on is given back; EINVAL, changing nothing, exactly if it is not memory of the last page in use |
| `Arena.FreedBehind` | C-kern/proglang/automat_mman.c:300-344 | giving back memory allocated since a checkpoint does not disturb it: it can still be restored |
| `Arena.Mman.StoreState` | C-kern/proglang/automat_mman.c:322-328 | the checkpoint |
| `Arena.Mman.Restore` | C-kern/proglang/automat_mman.c:330-344 | everything allocated since the checkpoint is undone, later pages go to the front of the cache in order |
| `Arena.Mman.Reset` | C-kern/proglang/automat_mman.c:228-238 | no block is left; all pages but the first go to the cache in order |
| `Arena.Mman.DecrUse` | C-kern/proglang/automat_mman.c:249-259 | the last user resets the arena |
| `Arena.Mman.Delete` | C-kern/proglang/automat_mman.c:152-182 | every page of list and cache is given back, each of them once |
| `Arena.BlocksDisjoint` | C-kern/proglang/automat_mman.c:270-298 | two blocks in use never overlap |
| `Arena.BlockInside` | C-kern/proglang/automat_mman.c:270-298 | every block lies in a page of 262144 bytes, outside its header and outside the manager |
| `SubBlocks.AllocPageSub` | C-kern/memory/pagecache_impl.c:294-320 | a page that was not in use, and only this one, is in use afterwards: the page freed last, else the next one that was never used, and the page with the header as the last one |
| `SubBlocks.FreePageSub` | C-kern/memory/pagecache_impl.c:322-343 | EALREADY, changing nothing, exactly if the page is not in use; otherwise exactly this page is free again, and the first to be handed out |
| `SubBlocks.InitFreeOk` | C-kern/memory/pagecache_impl.c:212-227 | after initfree all pages are free and accounted for |
| `SubBlocks.InitUsedOk` | C-kern/memory/pagecache_impl.c:241-251 | after initused exactly the page that holds the header is free |
| `SubBlocks.LiveCount` | C-kern/memory/pagecache_impl.c:121-126 | nrusedpages is the number of pages in use by the caller, plus those of block_t |
| `SubBlocks.PageSizes` | C-kern/memory/pagecache_impl.c:286-290 | the thirteen page sizes are 256 to 1048576 bytes, each twice the one before, and the pages of a sub-block make up one megabyte |
| `SubBlocks.PagesDisjoint` | C-kern/memory/pagecache_impl.c:212-343 | different pages of a block do not overlap, whether free, in use, or holding a header or block_t |
| `PageBlocks.AllocPageBlock` | C-kern/memory/pagecache_impl.c:479-489 | one page more in use, in the first sub-block of the list; it leaves the list exactly when it has no free page any more; nothing else is changed |
| `PageBlocks.AllocUnusedBlock` | C-kern/memory/pagecache_impl.c:491-515 | the same from the sub-block that became unused last, or else the next that was never used |
| `PageBlocks.ReleasePageBlock` | C-kern/memory/pagecache_impl.c:436-477 | EALREADY, changing nothing, exactly for a page not in use; else one page less in use; a sub-block without any other page in use joins the unused ones, one that was full the list of its page size, in front; other sub-blocks are not changed |
| `PageCache.NewBlockOk` | C-kern/memory/pagecache_impl.c:350-396 | a new block has no page in use, and is a valid one |
| `PageCache.NewBlockSizes` | C-kern/memory/pagecache_impl.c:377-392 | block_t has 3448 bytes and takes one page of 4096 bytes of sub-block 0, whose next page holds the header and whose other 254 pages are free; all other sub-blocks are unused |
| `PageCache.PageCacheImpl.AddBlock` | C-kern/memory/pagecache_impl.c:350-396 | the new block is in front of the lists it belongs to |
| `PageCache.PageCacheImpl.DeleteBlock` | C-kern/memory/pagecache_impl.c:401-432 | the block is removed from all lists |
| `PageCache.PageCacheImpl.AllocPage` | C-kern/memory/pagecache_impl.c:589-622 | EINVAL, changing nothing, exactly for an unknown page size; else exactly one page more is in use, with its address and size, aligned, within one sub-block and behind block_t, from the first block that has a free page of this size, else the first with an unused sub-block, else a new one; sizeallocated grows by its size; the lists of blocks change just as this block demands |
| `PageCache.PageCacheImpl.ReleasePage` | C-kern/memory/pagecache_impl.c:624-658 | OK exactly for no memory and for the address and size of a page in use; EINVAL exactly if the block belongs to another owner, the sub-block is unused, or size or alignment are not those of its pages; else EALREADY; both without change. Else exactly this page is released, sizeallocated shrinks by its size, and the block is deleted if it was its last page and other pages are in use |
| `PageCache.InUseAt` | C-kern/memory/pagecache_impl.c:624-646 | a block of memory is a page in use exactly if it is aligned to its size and its index is that of a page in use |
| `PageCache.NoneServes` | C-kern/memory/pagecache_impl.c:597-611 | a new block is made only if all pages of this size are in use in all blocks, and no sub-block is unused |
| `PageCache.PageCacheImpl.EmptyCache` | C-kern/memory/pagecache_impl.c:662-680 | exactly the blocks without pages in use are deleted: all, if no page is in use, and otherwise none |
| `PageCache.LiveInside` | C-kern/memory/pagecache_impl.c:212-343 | a page in use lies within its sub-block of one megabyte, behind the 3448 bytes of block_t, and does not hold the header of its sub-block |
| `PageCache.HeaderInside` | C-kern/memory/pagecache_impl.c:212-343 | a page that holds a header lies there too, and is not in use |
| `PageCache.LiveApart` | C-kern/memory/pagecache_impl.c:212-343 | different pages in use do not overlap |
| `PageCache.SoundLists` | C-kern/memory/pagecache_impl.c:436-515 | sizeallocated is zero if and only if no block has a page in use |
| `PageCache.OnlyBlock` | C-kern/memory/pagecache_impl.c:643-647 | the block that is kept after the last page was released is the only one |

## Left out

- Addresses: states, nodes, pages and blocks are numbers and the memory they lie in is a map. Reuse of freed memory is not modelled for automata: the heap records from which arena a state was allocated, and that it never changes; when an arena is reset is modelled on its own in `Arena`. Sizes of structures are those of a machine with 64 bits.
- Running out of memory, except in `Arena.Mman.Malloc` for a block larger than a page: allocation succeeds.
- The checks for EINVARIANT in the B-trees: the invariants say that they never fail, and `BTree.DepthBound` that the depth stack suffices.
- Node arrays of the B-trees are sequences, so shifting entries one by one within a node is an insertion into a sequence; splitting nodes is modelled as in the code.
- The block structure of `statearray_t` and of state vectors: both are sequences.
- The patricia trie that indexes state vectors: a map keyed by the vector.
- Whether the arena lets the last array of ranges grow in place depends on addresses; `Scanning.AddTransition` allows both outcomes.
- `makedfa_automat` and `makedfa2_automat` repeat the same loop; both are modelled by one construction with an operator for "one automaton", "and" and "and not".
- Flags in states (`isused`, `nrdfa`, `nrendstate`) are a set and two maps beside the graph. The matcher of deterministic automata does not need the flag, as at most one state is listed; that it clears it is not modelled.
- Decoding UTF-8: the input of the compiler is a sequence of characters, so EILSEQ and the texts and positions of error descriptions are left out.
- PageCache.PageCacheImpl: `block_t` and `subheader_t` are values that are stored as a whole; `PageBlocks` and `SubBlocks` do not model updates in place. Lists linked through the pages themselves are sequences of numbers.
- The marker on free pages, which only speeds up the search in the list of free pages, is left out; the list is always searched.
- Releasing a page at an address that belongs to no block: the block header that the code would read is not known. Releasing a page that holds `block_t` is excluded as well.
- `free_pagecacheimpl`, which gives all blocks back.
- `rsearch_kmp` and `optimizetable_rsearchkmp`, which the search does not use; that a search takes linear time.
- Printing, logging, error timers, and the query functions that only read a field.
