# PCRE 8.02, modelled and proved

This project models the regular-expression engine in `src/mongo-cxx-driver/pcre`: the pattern compiler, the
two matchers over its byte code, the analyses that speed the matchers up, the index of group names, the UTF-8
routines and the C++ wrapper that replaces text. The build is the one of `config.h`: bytes, LINK_SIZE 2,
newline LF, no Unicode properties. The UTF-8 routines are modelled on their own.

The programs are imperative where the C code is: the compiler writes into an `array<byte>` and patches links
in place, `match()` recurses over a block of shared state and restores the offset vector, the DFA engine swaps
two arrays of states. Each method is proved against a specification that does not mention how it works, and
the specifications are connected by lemmas.

## How it is put together

| layer | modules |
|---|---|
| byte code and the items it stands for | Common, ByteCode, CodeMoves, Scan |
| the same with assertions, conditions and atomic groups | FullCode |
| what items match (a relation on offsets), and in which order with which captures | Meaning, Lengths, Outcomes, Captures |
| the same for parsed patterns, and that the code agrees | Syntax, Ways, CodeWays |
| `match()` and `pcre_exec()` | Backtracking, MatchSteps, Match, Exec |
| `internal_dfa_exec()` | DfaSteps, DfaMeaning, DfaExec, Engines |
| studying and other analyses of code | Study, StartBits, PcreStudy, FixedLength, Emptiness, Marking, StartLine |
| the compiler | Sizes, FirstBytes, Replicate, Repetition, LoopOrder, Links, CompileUnits, Compile, CompilePattern |
| auto-possessification | Escapes, AutoPossess, PossessCheck, Possessing, BranchText |
| all of it together | Pipeline |
| side components | Names, Utf8, Rewriting |

The main result is `Pipeline.Search`. It takes a parsed pattern, makes the repeats possessive for which
`check_auto_possessive()` says yes, runs both passes of the compiler, the study and the bumpalong loop, and finds
a match exactly when the pattern that was compiled has one. Where the check misses no minimum of zero
(`Possessing.NoZeroMissed`), this is exactly when the given pattern has one. What a pattern matches is defined
on the parsed form alone, and so is the order in which it prefers its matches, with the spans of its groups (`Ways`):
the match reported is the preferred one. `Pipeline.DfaSearch` says of the DFA engine that it finds all ends.

Demands that the theorems make of their inputs are predicates on pattern, code or tables that can be looked up:

- `Backtracking.CheckedGroup`: unlimited repeats that can match nothing are marked; `match()` terminates on such
  code without any limit. `Marking.Settled` is the condition on the pattern under which the compiler's own
  marking achieves this, in both directions (`Marking.PatternSettled`).
- `Possessing.NoZeroMissed`: no repeat becomes possessive before an item that may be absent. Whether the check takes
  an item for mandatory depends on how it is written, and is part of the parsed form (`Piece.clear`);
  `BranchText.DecidedAsChecked` shows for branches read from text that this gives the answers of the check.
- `Pipeline.InItsOrder`, for the preference and the captures only: no iteration can be cut (`CodeWays.Undisturbed`, for
  which `CodeWays.Quiet` on the pattern suffices), and no group stands inside one of its own number.
- `CompilePattern.Studiable`, for a pattern that is studied: the numbers of marked capturing groups.
- `DfaSteps.CaseConsistent`, `StartBits.TablesAgree`, `AutoPossess.OrderlyTables` and `AutoPossess.DefaultTables`: what
  the C-locale tables satisfy. The last two are needed for auto-possessification only; `Pipeline.SearchAsIs` does
  without them.

The two scans of `pcre_study()` are proved for code with lookarounds, conditions and atomic groups. What such
code matches is estimated from above and from below (`FullCode.DBracket`), because tests of captures, positions
and callouts depend on more than the subject; the facts that the scans find hold of everything in the upper
estimate. The estimates agree where no such test or atomic group occurs (`FullCode.BracketEstimates`), and with
the denotation of the matchers on the code that these are proved for (`FullCode.EmbeddedMeans`).

## Where the code does not do what is documented, or does it only sometimes

The model follows the code. Nearly every case has a lemma with a concrete input, and the exact condition beside it.

- `pcre_dfa_exec()` is documented to return 0 when there are too many matches for the vector. It also does so
  when two or more matches fill the vector exactly (`Engines.TwoMatchesOverflow`, `Engines.OverflowExactly`).
- A repeated group that can match nothing remembers its start twice per round and forgets it once. The start
  left behind makes the ket of an enclosing repeated group stop too early: `(?:b|(?:a|)*)*` finds `aa` in
  `aab`, not `aab` (`LoopOrder.MarkedGroupsStop`). The order of the quantifier holds exactly when no iteration
  is cut this way (`LoopOrder.UnlimitedOrder`, for every minimum); without a marked group inside the group it
  always holds (`LoopOrder.QuantifierOrder`).
- `could_be_empty_branch()` looks only at the first branch of a marked group, so that `(?:(?:a|)+)+` is left
  unmarked (`Emptiness.MarkedGroupsMislead`, `Marking.LoopsInLoops`). The patterns without such a miss are
  exactly the settled ones (`Marking.PatternSettled`).
- `check_auto_possessive()` looks for `*`, `?` and the three bytes `{0,` behind the next item. So it misses `{0}`, zeros
  written with more digits, and every quantifier behind `\E`, `\Q\E` or a `(?#...)` comment, which the compiler still
  applies to that item (`PossessCheck.ZeroRepeatIsMissed`). A yes is right exactly when the quantifier that the
  compiler reads has a minimum above zero (`PossessCheck.CheckExactly`, `Possessing.DecidedExactly`); what is missed
  is characterised by `PossessCheck.OptionalExactly`. `a+b{0}a` does not find `aa` (`Pipeline.ZeroMissed`). With tables
  of another locale the comparison can be wrong too (`Possessing.LocaleLetters`); it is right for all items exactly
  when the tables are orderly (`AutoPossess.TablesExactly`).
- `find_fixedlength()` takes a repeating ket for a plain one, and a class range without upper limit for an
  exact one when its minimum is zero (`FixedLength.LoopsAreMissed`). The lengths are right exactly when they are
  zero or nothing is matched (`FixedLength.LoopExactly`, `FixedLength.RangeExactly`).
- The comment in `pcre_compile.c:4945-4946` says that a number has only one name, and `match()` relies on it.
  With duplicate names and `(?|` a number can get two (`Names.TwoNames`, `Names.OneNameExactly`).
- `QuoteMeta()` promises a pattern that matches exactly the string. A NUL followed by an octal digit breaks
  this (`Rewriting.DigitAfterNul`, `Rewriting.QuotedReads`).
- `set_start_bits()` does not recognise the header of a marked capturing bracket and reads the group number as code. With
  numbers below 1536 and from 3072 to 6399 it gives up there, which is harmless. From 1536 to 3071 it takes the number
  for a type such as `\D`, and the map can be wrong (`StartBits.MarkedNumbersMislead`, `StartBits.Misread`). Larger
  numbers are excluded (`StartBits.NumberOk`).
- `get_first_set()` is described as returning the last group of a name when none is set; it returns the first
  (`Names.NameTable.GetFirstSet`). The comments on UTF-8 validity exclude 0xd000 to 0xdfff; the code excludes
  0xd800 to 0xdfff, as RFC 3629 does.

## Model

| member | source | states |
|---|---|---|
| `Pipeline.Search` | src/mongo-cxx-driver/pcre/pcre_exec.c:5473-5786 | Compile, making those repeats possessive for which check_auto_possessive() says yes, optionally study, then match: the answer is the one for the pattern so compiled, and, when the check misses no minimum of zero, the one for the parsed pattern itself: a match is reported exactly when it matches, by its own meaning, from an allowed start, the leftmost such start. When no iteration can be cut, the match is the one the pattern prefers: first by its own order of alternatives and greedy or lazy quantifiers, with the spans of its groups in the vector and the yield one more than the highest group set. A failure rules out every allowed start |
| `Pipeline.SearchAsIs` | src/mongo-cxx-driver/pcre/pcre_exec.c:5473-5786 | The same for a parsed pattern whose repeats are compiled as they stand, with any consistent tables |
| `Pipeline.BestMeans` | src/mongo-cxx-driver/pcre/pcre_exec.c:640-5120 | A pattern prefers some way from a start exactly when it has a wanted match there; that way is such a match, and every span it has captured is a match of a group of that number inside it |
| `Pipeline.RanBest` | src/mongo-cxx-driver/pcre/pcre_exec.c:5660-5668 | The outcome that match() finds is the preferred way: same end, same spans, and lost groups where the vector has no room |
| `Pipeline.QuietInOrder` | src/mongo-cxx-driver/pcre/pcre_exec.c:1451-1559 | No iteration can be cut in a pattern in which no unlimited repeat of a possibly empty group contains another |
| `Pipeline.TopReached` | src/mongo-cxx-driver/pcre/pcre_exec.c:5418-5436 | The highest group number recorded is that of some group |
| `Pipeline.TopBounds` | src/mongo-cxx-driver/pcre/pcre_exec.c:5418-5436 | No group has a higher number |
| `Ways.RunsExactly` | src/mongo-cxx-driver/pcre/pcre_exec.c:2831-2882 | A quantified unit has exactly the runs its limits allow, each once: longest first when greedy, shortest first when lazy, only the longest when possessive |
| `Ways.WaysMean` | src/mongo-cxx-driver/pcre/pcre_exec.c:640-1562 | The ways of a pattern end exactly where the pattern matches |
| `Ways.BranchesGain` | src/mongo-cxx-driver/pcre/pcre_exec.c:1479-1496 | Every way is a match of the pattern, and each span captured on it is a match of a group of that number inside the stretch |
| `Ways.GroupGains` | src/mongo-cxx-driver/pcre/pcre_exec.c:1479-1496 | A group that has just been closed has captured the stretch from the start of its last iteration to its end |
| `Ways.TimesAround` | src/mongo-cxx-driver/pcre/pcre_compile.c:4300-4377 | A group around a single unit, repeated with limits, has the ways of the unit with that quantifier, greedy or lazy |
| `Ways.UnlimitedAround` | src/mongo-cxx-driver/pcre/pcre_compile.c:4379-4411 | The same without an upper limit |
| `CodeWays.QuantifiedReflects` | src/mongo-cxx-driver/pcre/pcre_compile.c:3945-4136 | The items compiled for a quantified unit have their outcomes in the order of its runs, for every quantifier and mode |
| `CodeWays.GroupReflects` | src/mongo-cxx-driver/pcre/pcre_exec.c:716-804 | The outcomes of a compiled group are its ways in their order, with what the branches match recorded as its capture |
| `CodeWays.TimesReflect` | src/mongo-cxx-driver/pcre/pcre_compile.c:4300-4377 | The outcomes of a group repeated with limits are the ways in the order of its quantifier |
| `CodeWays.UnlimitedReflect` | src/mongo-cxx-driver/pcre/pcre_compile.c:4379-4411 | The same without an upper limit |
| `CodeWays.PatternReflects` | src/mongo-cxx-driver/pcre/pcre_exec.c:640-5120 | The outcomes of a compiled pattern in which no iteration is cut are its ways, in their order, with positions, captures and high water mark |
| `Pipeline.DfaSearch` | src/mongo-cxx-driver/pcre/pcre_dfa_exec.c:500-2640 | For one start, unless a state list is full, the ends collected by the DFA engine on code with these possessive repeats are exactly the ends that the pattern so compiled has there, longest stored first, and those of the parsed pattern when no minimum of zero is missed |
| `Pipeline.ZeroMissed` | src/mongo-cxx-driver/pcre/pcre_compile.c:2387-2389 | a+b{0}a on aa: the pattern has a match from the start, but the pattern that is compiled has none, so the answer of a search is not that of the pattern |
| `Pipeline.DfaSearchAsIs` | src/mongo-cxx-driver/pcre/pcre_dfa_exec.c:500-2640 | The same for a parsed pattern whose repeats are compiled as they stand |
| `Pipeline.MatchesMean` | src/mongo-cxx-driver/pcre/pcre_compile.c:6600-6736 | The compiled group has an acceptable match at a start if and only if the parsed pattern has one |
| `Pipeline.NoneAnywhere` | src/mongo-cxx-driver/pcre/pcre_compile.c:6822-6841 | Failure of a search that the analysis made anchored means failure from every start the caller allowed |
| `Pipeline.Prepare` | src/mongo-cxx-driver/pcre/pcre_study.c:880-982 | Compiling and studying yields well-formed code together with facts that hold for every subject |
| `Exec.PcreExec` | src/mongo-cxx-driver/pcre/pcre_exec.c:5418-5800 | With all start optimisations the outcome is that of trying every allowed start in order: leftmost match with the captures match() gives there, or no match anywhere; every pair is unset or what a group of that number has matched, ordered inside the match; a positive yield means that no capture was lost; the calls stay within the limit unless it is reported |
| `Exec.NextStart` | src/mongo-cxx-driver/pcre/pcre_exec.c:5518-5570 | Advancing to a first byte, a line start or a start-bitmap byte never passes a start at which the pattern matches |
| `Exec.Hopeless` | src/mongo-cxx-driver/pcre/pcre_exec.c:5577-5645 | Giving up for lack of length or of the required byte, with the cached position of that byte, is done only when no later start matches |
| `Exec.Optimize` | src/mongo-cxx-driver/pcre/pcre_exec.c:5486-5645 | The next start to try is allowed, and no start was passed over at which the pattern matches |
| `Exec.StartlineStep` | src/mongo-cxx-driver/pcre/pcre_exec.c:5530-5560 | When the byte at an offset is not 10, no match there means none at the next, so only line starts need trying |
| `Exec.LinesMean` | src/mongo-cxx-driver/pcre/config.h:171 | Lines end before a byte 10 and start behind one |
| `Exec.OrderedAfter` | src/mongo-cxx-driver/pcre/pcre_exec.c:5476-5485 | After the reset of the pairs a pattern can set, every pair is unset or ordered inside the match and below the high water mark |
| `Exec.ResetSlots` | src/mongo-cxx-driver/pcre/pcre_exec.c:5426-5436 | Exactly the working slots the pattern can use are unset |
| `Exec.Finish` | src/mongo-cxx-driver/pcre/pcre_exec.c:5757-5786 | The first pair becomes the whole match and nothing else in the vector changes; the yield is the number of pairs, or 0 on overflow |
| `Match.MatchData.MatchWhole` | src/mongo-cxx-driver/pcre/pcre_exec.c:5660-5668 | One call on a whole pattern: MATCH iff the denotation has an acceptable match at this start (absent limits), the outcome is the first in priority order, a changed capture is a match of a group of that number and ordered inside the match; a lost capture sets the overflow flag; the calls are within the limit; on NOMATCH the whole offset vector is as before |
| `Match.MatchData.Match` | src/mongo-cxx-driver/pcre/pcre_exec.c:640-663 | Any inner call answers with the first acceptable outcome of the remaining items and enclosing groups; after failure only pairs of enclosing groups may differ; it terminates by a measure, without any limit; the recursion limit is hit only when it is below a bound computed from code and subject |
| `Match.MatchData.Run` | src/mongo-cxx-driver/pcre/pcre_exec.c:665-4990 | The opcode loop gives the same answer as the first outcome in priority order from the point where it was entered |
| `Match.MatchData.MatchCapture` | src/mongo-cxx-driver/pcre/pcre_exec.c:716-756 | A capturing bracket tries its branches in order; when all fail the three saved slots are back at their entry values |
| `Match.MatchData.TryBranches` | src/mongo-cxx-driver/pcre/pcre_exec.c:739-749 | The branches are tried in order, stopping at the first answer other than NOMATCH |
| `Match.MatchData.MatchBracket` | src/mongo-cxx-driver/pcre/pcre_exec.c:777-804 | A non-capturing bracket gives the first outcome over its branches, also when the last branch is entered without a new call |
| `Match.MatchData.MatchAlt` | src/mongo-cxx-driver/pcre/pcre_exec.c:1402-1405 | The end of a branch that is not the last goes on behind the ket of the group with the same answer |
| `Match.MatchData.MatchZero` | src/mongo-cxx-driver/pcre/pcre_exec.c:1412-1432 | BRAZERO gives the outcomes with the group before those without it, BRAMINZERO the other way round |
| `Match.MatchData.MatchKet` | src/mongo-cxx-driver/pcre/pcre_exec.c:1442-1520 | At a ket the capture is closed, and the group goes round again only when its iteration was not empty by the remembered start |
| `Match.MatchData.CloseCapture` | src/mongo-cxx-driver/pcre/pcre_exec.c:1479-1496 | Closing a capture sets its pair from the saved start and raises the high water mark, or records overflow when there is no room |
| `Captures.GroupCaptures` | src/mongo-cxx-driver/pcre/pcre_exec.c:1479-1496 | In every outcome each pair that has changed is what a branch of a group of that number has matched; saved starts of enclosing groups are kept |
| `Match.MatchData.MatchRepeatedGroup` | src/mongo-cxx-driver/pcre/pcre_exec.c:1533-1559 | KETRMAX tries a further iteration before what follows, KETRMIN after |
| `Match.MatchData.MatchEnd` | src/mongo-cxx-driver/pcre/pcre_exec.c:1069-1110 | The end of the pattern is accepted exactly when the empty-match options allow it |
| `Match.MatchData.MatchQuantified` | src/mongo-cxx-driver/pcre/pcre_exec.c:2198-2380 | A repeated or bitmap item gives the first outcome over all run lengths the quantifier allows, in greedy, lazy or possessive order |
| `Match.MatchData.MatchRepeat` | src/mongo-cxx-driver/pcre/pcre_exec.c:2648-2882 | Minimum, then greedy, lazy or possessive continuation: the first outcome over the allowed run lengths |
| `Match.MatchData.MatchMinimum` | src/mongo-cxx-driver/pcre/pcre_exec.c:2831-2839 | Fails exactly when the subject does not have the minimum number of units in a row |
| `Match.MatchData.RunToEnd` | src/mongo-cxx-driver/pcre/pcre_exec.c:2861-2871 | Finds the longest run the quantifier allows |
| `Match.MatchData.MatchGreedy` | src/mongo-cxx-driver/pcre/pcre_exec.c:2874-2880 | Tries the rest of the pattern after ever shorter runs, longest first |
| `Match.MatchData.MatchLazy` | src/mongo-cxx-driver/pcre/pcre_exec.c:2843-2856 | Tries the rest after ever longer runs, shortest first |
| `Match.MatchData.MatchOne` | src/mongo-cxx-driver/pcre/pcre_exec.c:2505-2560 | A single unit moves on by one byte exactly when the unit accepts the byte |
| `DfaSteps.TypesMean` | src/mongo-cxx-driver/pcre/pcre_exec.c:1702-1760 | The dot accepts every byte but 10, and the types the bytes with bits 4, 1 and 16 of the ctypes table or without them |
| `DfaSteps.DfaTypesMean` | src/mongo-cxx-driver/pcre/pcre_dfa_exec.c:855-870 | The DFA engine tests them alike |
| `DfaSteps.CharsMean` | src/mongo-cxx-driver/pcre/pcre_exec.c:2198-2260 | A caseless literal accepts both cases, a negated one the other bytes, a class the bytes whose bits are set in its map |
| `MatchSteps.PatternFirst` | src/mongo-cxx-driver/pcre/pcre_exec.c:640-5120 | There is a first outcome iff the denotation has an acceptable match, and the outcome is such a match |
| `Outcomes.ItemsSound` | src/mongo-cxx-driver/pcre/pcre_exec.c:640-1562 | Every outcome of the ordered semantics ends where the denotation has a match |
| `Outcomes.ItemsComplete` | src/mongo-cxx-driver/pcre/pcre_exec.c:640-1562 | Every match of the denotation is the end of some outcome, even though empty iterations are cut off |
| `Outcomes.LoopComplete` | src/mongo-cxx-driver/pcre/pcre_exec.c:1502-1559 | Breaking off empty iterations of a repeating group loses no end of a match |
| `Captures.CapturesAreOrdered` | src/mongo-cxx-driver/pcre/pcre_exec.c:1479-1496 | In every outcome a capture unset at the start is unset, or an ordered pair inside the match below the high water mark, which is at most 2n + 2 |
| `Backtracking.EnterWork` | src/mongo-cxx-driver/pcre/pcre_exec.c:777-804 | Entering any branch of a group leaves strictly less work by the termination measure |
| `Backtracking.LoopWork` | src/mongo-cxx-driver/pcre/pcre_exec.c:1533-1559 | Going round a repeating group after an iteration that advanced leaves strictly less work |
| `DfaExec.Engine.Exec` | src/mongo-cxx-driver/pcre/pcre_dfa_exec.c:500-2640 | Unless a state list is full, the ends collected are exactly the acceptable ends of matches from the start, increasing; the vector holds as many as fit, longest first; the yield follows from their number and the vector size |
| `DfaExec.Engine.Scan` | src/mongo-cxx-driver/pcre/pcre_dfa_exec.c:593-2606 | For one character every active state is acted on once; skipping duplicates of (offset, count) loses no state of either list |
| `DfaExec.Engine.NextCharacter` | src/mongo-cxx-driver/pcre/pcre_dfa_exec.c:545-578 | After swapping the lists the recorded history is that of one more character, and the collected ends are those of the history |
| `DfaExec.Engine.Begin` | src/mongo-cxx-driver/pcre/pcre_dfa_exec.c:523-534 | The initial list is the first item of every branch, and the end of the pattern is its last ket |
| `DfaExec.Engine.Ket` | src/mongo-cxx-driver/pcre/pcre_dfa_exec.c:731-742 | A ket adds what follows the group and, when repeating, the group itself |
| `DfaExec.Engine.Bracket` | src/mongo-cxx-driver/pcre/pcre_dfa_exec.c:783-803 | A bracket adds the start of each branch in order |
| `DfaExec.Engine.Item` | src/mongo-cxx-driver/pcre/pcre_dfa_exec.c:855-1030 | A unit, perhaps counted, is left or kept as its quantifier allows, and a possessive repeat is not left while the byte still matches |
| `DfaExec.Engine.Matched` | src/mongo-cxx-driver/pcre/pcre_dfa_exec.c:743-772 | At the end of the pattern a match is recorded exactly when it may be reported: not empty, or empty matches allowed here |
| `DfaExec.Record` | src/mongo-cxx-driver/pcre/pcre_dfa_exec.c:749-760 | Recording one more (longer) match shifts the vector so that it again holds the longest matches first |
| `DfaExec.CollectedAreMatches` | src/mongo-cxx-driver/pcre/pcre_dfa_exec.c:540-2640 | What the run has collected is exactly the acceptable ends of matches |
| `DfaMeaning.EndsAreMatches` | src/mongo-cxx-driver/pcre/pcre_dfa_exec.c:500-2640 | The state machine can get from the start to the end of the pattern at an offset iff the denotation has a match ending there |
| `DfaMeaning.ItemsReach` | src/mongo-cxx-driver/pcre/pcre_dfa_exec.c:700-2606 | Every match of items is a path of the state machine |
| `DfaMeaning.SoundStay` | src/mongo-cxx-driver/pcre/pcre_dfa_exec.c:777-835 | A state added to the current list leads to no end the original state does not lead to |
| `DfaMeaning.SoundMove` | src/mongo-cxx-driver/pcre/pcre_dfa_exec.c:855-1100 | The same for a state added to the list for the next character |
| `DfaSteps.SameTest` | src/mongo-cxx-driver/pcre/pcre_dfa_exec.c:992-1012 | With consistent tables the engine's own test of a character agrees with the backtracking matcher's |
| `Engines.EnginesAgree` | src/mongo-cxx-driver/pcre/pcre_dfa_exec.c:500-2640 | Both engines agree on whether a start matches, and the backtracking matcher's end is one of the DFA engine's |
| `Engines.CollectedAgree` | src/mongo-cxx-driver/pcre/pcre_dfa_exec.c:743-772 | The backtracking matcher's end is among the collected ends and not beyond the longest |
| `Engines.OverflowExactly` | src/mongo-cxx-driver/pcre/pcre_dfa_exec.c:748-750 | A yield of 0 means too many matches for the vector, except exactly when at least two matches fill it completely |
| `Engines.TwoMatchesOverflow` | src/mongo-cxx-driver/pcre/pcre_dfa_exec.c:748-750 | Two matches in a vector with room for two: both are stored and the yield is 0 |
| `Study.FindMinlength` | src/mongo-cxx-driver/pcre/pcre_study.c:77-426 | The scan of the code, with assertions, conditions and atomic groups in it, yields the least length over the branches of the bracket; a condition with one branch adds nothing and assertions are passed over |
| `Study.BracketBound` | src/mongo-cxx-driver/pcre/pcre_study.c:77-426 | No match of a bracket consumes fewer bytes than that length, whatever its lookarounds, conditions and other tests turn out to be |
| `Lengths.MinGroupBound` | src/mongo-cxx-driver/pcre/pcre_study.c:77-426 | The same for groups of the code tree that the matchers run |
| `Lengths.AltsReached` | src/mongo-cxx-driver/pcre/pcre_study.c:77-426 | The bound is reached: without possessive repeats, and when each unit accepts some byte, there is a string of the least length that is matched wherever it stands |
| `FullCode.BracketEstimates` | src/mongo-cxx-driver/pcre/pcre_exec.c:1115-1165 | What surely matches may match; without capture tests, position tests, callouts and atomic groups the two estimates of what code with lookarounds and conditions matches coincide |
| `FullCode.EmbeddedMeans` | src/mongo-cxx-driver/pcre/pcre_exec.c:813-985 | On code without assertions and conditions both estimates are exactly the denotation that the matchers are proved against |
| `PcreStudy.LengthIsSound` | src/mongo-cxx-driver/pcre/pcre_study.c:941-943 | The recorded minimum length may be used to reject short subjects |
| `StartBits.SetTableBit` | src/mongo-cxx-driver/pcre/pcre_study.c:446-453 | Adds the bit of a byte, and of its other case when caseless, and no other bit |
| `StartBits.SetStartBits` | src/mongo-cxx-driver/pcre/pcre_study.c:481-858 | The bits added, and whether the scan gives up, continues or is done, are those specified for the bracket: positive lookaheads and atomic groups are looked into, other assertions passed over, conditions and position tests given up on, and of a marked capturing bracket the group number is read as code |
| `StartBits.ScanBranch` | src/mongo-cxx-driver/pcre/pcre_study.c:494-846 | The same for the parts of one branch |
| `StartBits.OrType` | src/mongo-cxx-driver/pcre/pcre_study.c:676-720 | The bytes added for a type from the class tables are exactly the bytes the type accepts, with the vertical tab taken out of the space class |
| `StartBits.OrMap` | src/mongo-cxx-driver/pcre/pcre_study.c:803-815 | The bytes added for a class are those it accepts |
| `StartBits.BracketBegins` | src/mongo-cxx-driver/pcre/pcre_study.c:481-858 | If no group number is misread, every match of a bracket begins with a byte whose bit is set, or is empty only when the scan said so; where a positive lookahead demands a byte the subject has it, although nothing is consumed |
| `StartBits.MarkedNumbersMislead` | src/mongo-cxx-driver/pcre/pcre_study.c:507-523 | (1?)+ as group 1536: the scan is done with the bytes that are no digits, and the group matches 1 |
| `StartBits.UnitStarts` | src/mongo-cxx-driver/pcre/pcre_study.c:612-720 | A pattern that begins with a literal, a type or a class gives exactly the bytes that this accepts |
| `PcreStudy.MapIsSound` | src/mongo-cxx-driver/pcre/pcre_study.c:928-939 | A scan that ends with SSB_DONE has a bit for the first byte of every match, and no match is empty |
| `PcreStudy.PcreStudy` | src/mongo-cxx-driver/pcre/pcre_study.c:880-982 | Studying adds facts that hold for every subject; a bitmap is added exactly when no better fact is known and every match must begin with one of the bytes found |
| `FixedLength.FindFixedlength` | src/mongo-cxx-driver/pcre/pcre_compile.c:1377-1562 | The scan yields the common length of the branches, or -1 |
| `FixedLength.GroupFixed` | src/mongo-cxx-driver/pcre/pcre_compile.c:1377-1562 | Where a length is found, and only bodies of length zero are repeated without limit, every match has exactly that length |
| `FixedLength.LoopExactly` | src/mongo-cxx-driver/pcre/pcre_compile.c:1409-1417 | For a repeated group around such a body, every match has the length found if and only if that length is zero or the body matches nowhere |
| `FixedLength.RangeExactly` | src/mongo-cxx-driver/pcre/pcre_compile.c:1541-1546 | A class range with minimum zero and no upper limit always has the length found if and only if the class accepts no byte |
| `FixedLength.LoopsAreMissed` | src/mongo-cxx-driver/pcre/pcre_compile.c:1409-1417 | A group repeated without limit is given the length of one iteration, although it matches more |
| `Emptiness.CouldBeEmptyBranch` | src/mongo-cxx-driver/pcre/pcre_compile.c:1798-2014 | The scan of a branch yields what is specified for its items |
| `Emptiness.AnyBranchCouldBeEmpty` | src/mongo-cxx-driver/pcre/pcre_compile.c:1855-1885 | The scan of an inner group yields whether some branch of it could be empty |
| `Emptiness.EmptyItemsExact` | src/mongo-cxx-driver/pcre/pcre_compile.c:1798-2014 | Without marked groups the answer is exact: yes iff the least length is zero |
| `Emptiness.NotEmpty` | src/mongo-cxx-driver/pcre/pcre_compile.c:1798-2014 | The answer no means that no match of the branch is empty, if every marked group the scan can meet has a first branch that could be empty |
| `Emptiness.MarkingExactly` | src/mongo-cxx-driver/pcre/pcre_compile.c:4384-4411 | Marking a repeating group by these answers meets what match() needs to terminate if and only if, where the least length is zero, some branch could be empty |
| `Marking.PatternSettled` | src/mongo-cxx-driver/pcre/pcre_compile.c:4384-4411 | The compiled pattern meets that demand everywhere if and only if the pattern is settled: the body of every group repeated without limit has no empty match, or has one that the scan sees |
| `Marking.NullableIs` | src/mongo-cxx-driver/pcre/pcre_compile.c:1798-2014 | The condition on the pattern is the least length of the code being zero |
| `Marking.SeenIs` | src/mongo-cxx-driver/pcre/pcre_compile.c:1798-2014 | The other condition on the pattern is the answer of could_be_empty_branch() on its code |
| `Marking.LoopsInLoops` | src/mongo-cxx-driver/pcre/pcre_compile.c:4384-4411 | (?:(?:a\|)+b)+ is settled, (?:(?:a\|)+)+ is not |
| `Emptiness.MarkedInside` | src/mongo-cxx-driver/pcre/pcre_compile.c:1855-1885 | A repeat of nothing but a marked group meets the demand iff the first branch of that group could be empty |
| `Emptiness.MarkedGroupsMislead` | src/mongo-cxx-driver/pcre/pcre_compile.c:1855-1857 | (?:(?:a\|)+)+ : the outer group is left unmarked although it can match nothing |
| `StartLine.AllLead` | src/mongo-cxx-driver/pcre/pcre_compile.c:6172-6223 | The scan answers whether every branch begins with an unlimited repeat of the given type |
| `StartLine.StartlineIsSound` | src/mongo-cxx-driver/pcre/pcre_compile.c:6248-6326 | Then a match inside a line could also have started one byte earlier |
| `StartLine.AnchoredSuffices` | src/mongo-cxx-driver/pcre/pcre_compile.c:6172-6223 | When . matches every byte, failure at the first start means failure at all later ones |
| `StartLine.FindStartFlags` | src/mongo-cxx-driver/pcre/pcre_compile.c:6822-6841 | The anchored and line-start flags are set exactly when the branches allow it and no better fact is known |
| `Syntax.EmitAllMeans` | src/mongo-cxx-driver/pcre/pcre_compile.c:3785-4411 | The code items of a branch match exactly what the parsed branch means, for every quantifier on units and groups |
| `Syntax.QuantifiedMeans` | src/mongo-cxx-driver/pcre/pcre_compile.c:3945-4136 | The one or two items written for a quantified unit match exactly the runs the quantifier allows |
| `Syntax.BranchesMean` | src/mongo-cxx-driver/pcre/pcre_compile.c:5841-6129 | The alternatives in the code match what the parsed alternatives mean |
| `CompileUnits.PutUnit` | src/mongo-cxx-driver/pcre/pcre_compile.c:5736-5738 | A unit is written well-formed and nothing before it changes |
| `CompileUnits.QuantifyUnit` | src/mongo-cxx-driver/pcre/pcre_compile.c:3935-4136 | The unit in the buffer is replaced in place by the items of its quantifier; {0} drops it, {1,n} leaves it standing |
| `CompileUnits.PutClassQuantifier` | src/mongo-cxx-driver/pcre/pcre_compile.c:4104-4136 | A class keeps its bitmap and gets the quantifier behind it |
| `Compile.CompileBranch` | src/mongo-cxx-driver/pcre/pcre_compile.c:2660-5800 | The real pass writes the items of a branch, within the length the first pass gave, and infers the first and required byte specified for it; nothing before the branch changes |
| `Compile.CompilePiece` | src/mongo-cxx-driver/pcre/pcre_compile.c:3785-4411 | One item with its quantifier: well-formed items of the pattern piece, within its first-pass length |
| `Compile.CompileGroup` | src/mongo-cxx-driver/pcre/pcre_compile.c:5400-5466 | A bracket with its number and branches becomes the well-formed group of the parsed pattern |
| `Compile.CompileRegex` | src/mongo-cxx-driver/pcre/pcre_compile.c:5841-6129 | Branches are written with back links that are reversed at the end: a well-formed group of all branches in order, within the first-pass length, with the merged first and required bytes |
| `Compile.OpenBranch` | src/mongo-cxx-driver/pcre/pcre_compile.c:6105-6124 | A further branch starts with an OP_ALT whose link points back to the branch before |
| `Compile.CloseRegex` | src/mongo-cxx-driver/pcre/pcre_compile.c:6031-6056 | Reversing the links and writing the ket closes the group; outside the header links nothing before the ket changes |
| `Compile.OpenClosed` | src/mongo-cxx-driver/pcre/pcre_compile.c:6105-6124 | The chain of open branches with one more branch written is again a chain |
| `Links.ReverseLinks` | src/mongo-cxx-driver/pcre/pcre_compile.c:6031-6050 | In-place reversal: following links from the bracket visits every branch once in source order and stops on the ket, whose link is the whole length; only bytes of the links on the chain change |
| `Links.HalfwayStep` | src/mongo-cxx-driver/pcre/pcre_compile.c:6036-6046 | One step of the reversal: the branches from here on are linked forwards, those before still backwards |
| `Replicate.RepeatGroup` | src/mongo-cxx-driver/pcre/pcre_compile.c:4146-4411 | Replicating a group in place yields well-formed code for min to max iterations, nested optional copies and marked loops included, and leaves everything before it as it was |
| `Replicate.CloseBrackets` | src/mongo-cxx-driver/pcre/pcre_compile.c:4364-4378 | Chaining back through the open brackets fills in the lengths and kets of all nested copies |
| `Replicate.OpenCopies` | src/mongo-cxx-driver/pcre/pcre_compile.c:4335-4362 | Each further optional copy is written behind the start of a bracket linked to the one before |
| `Replicate.CopyGroup` | src/mongo-cxx-driver/pcre/pcre_compile.c:4281-4296 | The copies for the minimum are well-formed copies of the group |
| `Replicate.LoopGroup` | src/mongo-cxx-driver/pcre/pcre_compile.c:4384-4411 | The last copy gets a repeating ket, and the marking by could_be_empty_branch() of its branches |
| `Repetition.RepeatMeans` | src/mongo-cxx-driver/pcre/pcre_compile.c:4146-4411 | The code of a repeated group matches exactly min to max iterations, or min and more |
| `Repetition.RepeatOrder` | src/mongo-cxx-driver/pcre/pcre_compile.c:4300-4377 | With a maximum, the outcomes come in the order of a greedy or lazy {min,max} |
| `LoopOrder.UnlimitedOrder` | src/mongo-cxx-driver/pcre/pcre_compile.c:4379-4411 | Without a maximum, the outcomes come in the order of a greedy or lazy {min,} if and only if no iteration that advanced and has a further one ends with the remembered start of an inner group at its end |
| `LoopOrder.OrderExactly` | src/mongo-cxx-driver/pcre/pcre_exec.c:1533-1559 | The same for the group with its repeating ket alone |
| `LoopOrder.QuantifierOrder` | src/mongo-cxx-driver/pcre/pcre_compile.c:4379-4411 | A group with no marked group inside, whether or not it can match nothing itself, has its outcomes in the order of the quantifier, for every minimum |
| `LoopOrder.LoopedRounds` | src/mongo-cxx-driver/pcre/pcre_exec.c:1451-1559 | What the repeating ket does: a further iteration is tried exactly when this one advanced and is not blocked by a remembered start left behind |
| `LoopOrder.ItemsOver` | src/mongo-cxx-driver/pcre/pcre_exec.c:1451-1456 | Remembered starts of enclosing groups change nothing: the outcomes are the same over any chain |
| `LoopOrder.CutWhenBlocked` | src/mongo-cxx-driver/pcre/pcre_exec.c:1451-1559 | For a group that can match nothing, an iteration is cut exactly when it advanced and is blocked, or a later one is cut |
| `LoopOrder.MarkedGroupsStop` | src/mongo-cxx-driver/pcre/pcre_exec.c:1451-1456 | (?:b\|(?:a\|)*)* on aab: a remembered start left behind by the inner group makes the outer one stop after aa, although its greedy order begins with aab |
| `Sizes.MeasurePattern` | src/mongo-cxx-driver/pcre/pcre_compile.c:6640-6662 | The first pass computes at least the length of the code plus one, and exactly that when no single item has a maximum of zero |
| `Sizes.MeasureBranch` | src/mongo-cxx-driver/pcre/pcre_compile.c:2763-2812 | Adding up what each cycle leaves in the work space gives the length specified for the branch |
| `Sizes.MeasureRegex` | src/mongo-cxx-driver/pcre/pcre_compile.c:5873-6129 | The same for all branches of a group |
| `Sizes.RepeatedGrowth` | src/mongo-cxx-driver/pcre/pcre_compile.c:4264-4331 | The growth computed from the length of one group |
| `Sizes.RepeatedExact` | src/mongo-cxx-driver/pcre/pcre_compile.c:4264-4331 | This growth is the real growth of the code, for equal group lengths |
| `Sizes.RegexLen` | src/mongo-cxx-driver/pcre/pcre_compile.c:6728-6737 | The code is never longer than the first pass says, and as long when nothing is dropped |
| `CompilePattern.PcreCompile` | src/mongo-cxx-driver/pcre/pcre_compile.c:6600-6860 | Too long a pattern is rejected exactly by the first-pass length; otherwise the code fits in that length, is well-formed and stands for the pattern, and the recorded facts are those inferred and hold for every subject |
| `CompilePattern.PatternUsable` | src/mongo-cxx-driver/pcre/pcre_compile.c:4384-4411 | Every compiled pattern keeps to its own group numbers, and meets the demands of set_start_bits() when the numbers of its marked capturing groups make the scan give up |
| `CompilePattern.CompiledFacts` | src/mongo-cxx-driver/pcre/pcre_compile.c:6820-6854 | The facts recorded at the end of compilation hold of every match |
| `FirstBytes.BranchesFit` | src/mongo-cxx-driver/pcre/pcre_compile.c:5958-5992 | Every match of a group starts with the inferred first byte and contains the inferred required byte, after the first byte if there is one; merging branches keeps this |
| `FirstBytes.AllFit` | src/mongo-cxx-driver/pcre/pcre_compile.c:3818-3822 | The same along a branch, with the back-off for items that can be left out |
| `FirstBytes.TimesFit` | src/mongo-cxx-driver/pcre/pcre_compile.c:5484-5528 | A repeated group keeps it, including the first byte taken as required byte for a minimum above one |
| `FirstBytes.MergeFits` | src/mongo-cxx-driver/pcre/pcre_compile.c:5958-5992 | Merging the bytes of two branches gives bytes that hold of matches of either |
| `FirstBytes.MarksAreSound` | src/mongo-cxx-driver/pcre/pcre_compile.c:6820-6854 | The recorded first and required byte, with the caseless flag dropped for bytes without another case, are sound |
| `FirstBytes.WordMarks` | src/mongo-cxx-driver/pcre/pcre_compile.c:5765-5785 | For a word the first byte found is its first and the required byte its last |
| `FirstBytes.WordBytes` | src/mongo-cxx-driver/pcre/pcre_compile.c:5736-5738 | The code of a word, byte by byte |
| `ByteCode.RepeatOpcodes` | src/mongo-cxx-driver/pcre/pcre_internal.h:1264-1366 | The opcode numbers of repeats, brackets and kets |
| `PossessCheck.CheckAutoPossessive` | src/mongo-cxx-driver/pcre/pcre_compile.c:2326-2636 | The check reads the next item, past white space and comments, and says yes only if it is a literal or type with no byte in common with the repeated item and not made optional by *, ? or {0, ; and it does not miss such a case, but for negated literals before a type |
| `PossessCheck.CheckExactly` | src/mongo-cxx-driver/pcre/pcre_compile.c:3893-3900 | When the check says yes, possessive and original have the same outcomes for everything that may follow the next item if and only if the quantifier that the compiler reads for that item, behind everything that it passes over, has a minimum above zero |
| `PossessCheck.ItemThere` | src/mongo-cxx-driver/pcre/pcre_compile.c:2364-2372 | An item that the check reads is the one that the compiler reads next |
| `PossessCheck.PassOver` | src/mongo-cxx-driver/pcre/pcre_compile.c:2823-2880 | Reading on behind an item, the compiler passes over an orphan \E, \Q, comments in brackets and, when extended, white space and # comments, and still applies a quantifier to that item |
| `PossessCheck.OptionalExactly` | src/mongo-cxx-driver/pcre/pcre_compile.c:2387-2389 | Every quantifier the check takes for optional has minimum zero; those with minimum zero it misses are exactly the ones behind something that it does not pass over but the compiler does, and the ones in braces whose first digit is not followed by a comma |
| `PossessCheck.IsCountedRepeat` | src/mongo-cxx-driver/pcre/pcre_compile.c:941-955 | Says whether a quantifier in braces stands there |
| `PossessCheck.ReadRepeatCounts` | src/mongo-cxx-driver/pcre/pcre_compile.c:978-1018 | The counts read, and the refusal of counts above 65535 or out of order |
| `Escapes.PlainEscapes` | src/mongo-cxx-driver/pcre/pcre_compile.c:547-829 | A backslash before a byte that is no letter or digit stands for that byte, and \0 begins an octal number of at most two more digits |
| `Escapes.LettersMean` | src/mongo-cxx-driver/pcre/pcre_compile.c:112-150 | What every letter behind a backslash stands for, as numbers: \n is 10, \r is 13, \d type 7, and so on |
| `Escapes.HexMeans` | src/mongo-cxx-driver/pcre/pcre_compile.c:765-800 | \x and the two hexadecimal digits of a byte, of either case, stand for the byte |
| `Escapes.BracedMeans` | src/mongo-cxx-driver/pcre/pcre_compile.c:735-763 | The same in braces |
| `Escapes.OctalMeans` | src/mongo-cxx-driver/pcre/pcre_compile.c:709-733 | \0 and two octal digits, or three that are no group number, stand for their byte |
| `Escapes.ControlMeans` | src/mongo-cxx-driver/pcre/pcre_compile.c:802-816 | \c maps letters of either case to control bytes and these back to the letters |
| `Escapes.ReferencesMean` | src/mongo-cxx-driver/pcre/pcre_compile.c:690-715 | A number is a reference when it is below ten or not above the number of groups |
| `PossessCheck.SignsMean` | src/mongo-cxx-driver/pcre/pcre_compile.c:3790-3806 | *, + and ? are {0,}, {1,} and {0,1} |
| `PossessCheck.BracesMean` | src/mongo-cxx-driver/pcre/pcre_compile.c:978-1018 | A quantifier in braces is read as the numbers it is written with, up to 65535 and in order |
| `PossessCheck.CommentEndsLine` | src/mongo-cxx-driver/pcre/pcre_compile.c:2870-2877 | A # comment ends behind the first byte 10 |
| `AutoPossess.ExcludesExactly` | src/mongo-cxx-driver/pcre/pcre_compile.c:2440-2636 | The comparison of two items finds exactly the pairs without a common byte |
| `AutoPossess.TablesExactly` | src/mongo-cxx-driver/pcre/pcre_compile.c:2440-2636 | The comparison is never wrong about a pair if and only if, in the tables, digits are word characters, spaces are not, no byte above 127 is any of these, and both cases of a letter are of the same classes |
| `AutoPossess.PossessiveSame` | src/mongo-cxx-driver/pcre/pcre_compile.c:3893-3900 | Before an item that starts with a unit sharing no byte, the possessive repeat and the original have the same outcomes, in the same order, for the whole continuation |
| `Possessing.PossessedSame` | src/mongo-cxx-driver/pcre/pcre_compile.c:3893-3900 | Making every repeat possessive for which the check says yes leaves a whole bracketed pattern with the same outcomes in the same order, from every state, when it misses no minimum of zero |
| `Possessing.DecidedExactly` | src/mongo-cxx-driver/pcre/pcre_compile.c:3893-3900 | For one repeat before an item that the check takes for mandatory this is right for everything that may follow if and only if the item has a minimum above zero |
| `Possessing.MissedMeans` | src/mongo-cxx-driver/pcre/pcre_compile.c:3893-3900 | a+b{0}a matches aa, and the pattern that is made of it matches nowhere in aa |
| `BranchText.DecidedAsChecked` | src/mongo-cxx-driver/pcre/pcre_compile.c:2326-2636 | What is read from the text behind a repeat decides about it exactly as the check does, which looks at the text itself |
| `BranchText.PossessedAsChecked` | src/mongo-cxx-driver/pcre/pcre_compile.c:3893-3935 | In a branch read from text, an unlimited repeat becomes possessive exactly when it was written so or the check says yes at the end of its quantifier |
| `BranchText.MissedText` | src/mongo-cxx-driver/pcre/pcre_compile.c:3785-3790 | a+b{0}a is read as the pattern of MissedMeans; in a+(?#)b the check does not see the b |
| `BranchText.ReadWritten` | src/mongo-cxx-driver/pcre/pcre_compile.c:2815-5800 | A branch of literals, types and dots with any quantifiers, written as text, is read back as it was |
| `Possessing.PossessedMeans` | src/mongo-cxx-driver/pcre/pcre_compile.c:3893-3900 | And with the same meaning |
| `Possessing.LocaleLetters` | src/mongo-cxx-driver/pcre/pcre_compile.c:2440-2636 | With tables in which a byte above 127 is a word character the comparison is wrong |
| `PossessCheck.ZeroRepeatIsMissed` | src/mongo-cxx-driver/pcre/pcre_compile.c:2387-2389 | a+b{0}a, a+b{00}a, a+b{00,1}a, and a+b*a or a+b?a with \E, \Q\E or a comment before the quantifier: the check says yes, and possessive is not the same |
| `Names.NameTable.Insert` | src/mongo-cxx-driver/pcre/pcre_compile.c:4947-5012 | A name is accepted or refused as specified, and an accepted one is inserted at its place; the table stays sorted |
| `Names.InsertedSorted` | src/mongo-cxx-driver/pcre/pcre_compile.c:4947-4986 | Insertion behind all names not later keeps the table sorted |
| `Names.CompareMeans` | src/mongo-cxx-driver/pcre/pcre_compile.c:4957-4960 | The first place where two names differ decides their order, and a name comes after all that it begins with |
| `Names.RefusedNames` | src/mongo-cxx-driver/pcre/pcre_compile.c:4961-5006 | Which error a second number for a name and a second name for a number get |
| `Names.NameTable.FindPlace` | src/mongo-cxx-driver/pcre/pcre_compile.c:4952-4986 | The scan finds the place, sees a duplicate of the name, and refuses a second number for it unless duplicates are allowed |
| `Names.NameTable.NumberTaken` | src/mongo-cxx-driver/pcre/pcre_compile.c:4990-5006 | The scan for a second name of a number skips the gap left for the new row |
| `Names.OneNameExactly` | src/mongo-cxx-driver/pcre/pcre_compile.c:4940-4946 | Accepting an entry keeps one name for each number, except exactly when the name was there before and the number has another name |
| `Names.TwoNames` | src/mongo-cxx-driver/pcre/pcre_compile.c:4988-5006 | a for 1, b for 2, a for 2: all accepted, and 2 has two names |
| `Names.NameTable.GetStringNumber` | src/mongo-cxx-driver/pcre/pcre_get.c:68-96 | Binary search finds a number of the name iff the name was inserted |
| `Names.NameTable.GetStringtableEntries` | src/mongo-cxx-driver/pcre/pcre_get.c:117-163 | The range returned is exactly the run of the name |
| `Names.NameTable.GetFirstSet` | src/mongo-cxx-driver/pcre/pcre_get.c:185-202 | With duplicate names, the number of the first entry of the name whose group is set, or of the first entry of the name when none is set |
| `Names.NameTable.NameCondition` | src/mongo-cxx-driver/pcre/pcre_exec.c:926-975 | The condition is true iff the group, or another group with the name of the first entry having its number, is set |
| `Names.NameTable.ScanRun` | src/mongo-cxx-driver/pcre/pcre_exec.c:944-970 | The scans down and up test exactly the entries that share the name |
| `Names.ConditionOnName` | src/mongo-cxx-driver/pcre/pcre_exec.c:926-975 | When a number has one name, a condition on a name tests all groups of that name |
| `Utf8.ValidUtf8` | src/mongo-cxx-driver/pcre/pcre_valid_utf8.c:77-163 | Accepts a byte string iff it is UTF8-octets of section 4 of RFC 3629; otherwise the offset lies within four bytes of the start of the first bad character, behind good ones |
| `Utf8.Ord2Utf8` | src/mongo-cxx-driver/pcre/pcre_ord2utf8.c:65-85 | Writes the encoding of the value at the start of the buffer and leaves the rest as it was |
| `Utf8.GetCharInc` | src/mongo-cxx-driver/pcre/pcre_internal.h:464-476 | Reads the value of the character and moves past all its bytes |
| `Utf8.RoundTrip` | src/mongo-cxx-driver/pcre/pcre_internal.h:464-476 | Decoding what was encoded gives the value back and consumes all its bytes, for 0 to 0x7fffffff |
| `Utf8.EncodingValid` | src/mongo-cxx-driver/pcre/pcre_ord2utf8.c:65-85 | An encoding is a character of the RFC 3629 grammar iff the value is a Unicode scalar value |
| `Utf8.DecodingScalar` | src/mongo-cxx-driver/pcre/pcre_internal.h:464-476 | A character of the grammar is the encoding of the scalar value the decoder reads |
| `Utf8.ValidExactly` | src/mongo-cxx-driver/pcre/pcre_valid_utf8.c:77-163 | A byte string is valid iff it is the encoding of some sequence of scalar values |
| `Rewriting.RE.GlobalReplace` | src/mongo-cxx-driver/pcre/pcrecpp.cc:380-454 | Terminates; the replaced matches are matches of the pattern with what its groups have matched, ordered and disjoint, and none is passed over unless a limit was hit; the result is the text with each of them expanded; a rewrite string without backslashes takes the place of each match, and rewriting to \0 leaves the text unchanged |
| `Rewriting.RE.TryMatch` | src/mongo-cxx-driver/pcre/pcrecpp.cc:502-556 | A positive yield comes with a match inside the text from the start position on, at it when anchored, non-empty when asked for |
| `Rewriting.Rewrite` | src/mongo-cxx-driver/pcre/pcrecpp.cc:613-642 | Appends the expansion of the rewrite string and fails exactly at a group the match does not have or a bad escape |
| `Rewriting.PlainExpands` | src/mongo-cxx-driver/pcre/pcrecpp.cc:613-642 | A rewrite string without backslashes stands for itself |
| `Rewriting.DoubledExpands` | src/mongo-cxx-driver/pcre/pcrecpp.cc:613-642 | A string with every backslash doubled stands for the string |
| `Rewriting.GroupExpands` | src/mongo-cxx-driver/pcre/pcrecpp.cc:621-629 | A backslash and a digit stand for the text between the offsets of the group, and fail at a group the match does not have |
| `Rewriting.EscapeFails` | src/mongo-cxx-driver/pcre/pcrecpp.cc:630-635 | Any other escape fails |
| `Rewriting.ExpandsJoin` | src/mongo-cxx-driver/pcre/pcrecpp.cc:613-642 | The expansion of two rewrite strings one after the other is the one expansion after the other |
| `Rewriting.PlainOutput` | src/mongo-cxx-driver/pcre/pcrecpp.cc:380-454 | With a plain rewrite string the output is the text with the string in place of each match |
| `Rewriting.RewriteToItself` | src/mongo-cxx-driver/pcre/pcrecpp.cc:380-454 | Rewriting every one of a list of ordered matches to \0 gives back the text before any position behind them |
| `Rewriting.QuoteMeta` | src/mongo-cxx-driver/pcre/pcrecpp.cc:467-499 | The result is the quoted string, byte by byte |
| `Rewriting.QuotedReads` | src/mongo-cxx-driver/pcre/pcre_compile.c:547-568 | The compiler reads a quoted string as exactly the literal bytes of the string iff no NUL in it has an octal digit after it |
| `Rewriting.DigitAfterNul` | src/mongo-cxx-driver/pcre/pcrecpp.cc:481-483 | NUL and 1 are quoted as \01, which is read as the single byte 1 |
| `CodeMoves.MoveItems` | src/mongo-cxx-driver/pcre/pcre_compile.c:4194-4240 | Well-formed items stay well-formed when moved or copied, since links are relative |

## Left out

- Parsing of pattern text: the compiler starts from a tree of units, quantifiers and groups. Only single items,
  quantifiers and branches without groups and classes are read from text (`Escapes.EscapeAt`,
  `PossessCheck.CountsAt`, `BranchText.ReadBranch`).
- PossessCheck.CheckAutoPossessive: at `\h`, `\H`, `\v` and `\V`, which the code compares, the model says no, since they are
  no items of the tree. Other escapes get the code's own answer, decimal numbers beyond 32 bits excepted.
- Study.FindMinlength: back references, recursion and backtracking verbs are not parts of the code, nor is OP_OPT.
- StartBits.SetStartBits: the same; marked groups numbered 6400 or more, at which the scan runs off the code, are excluded,
  and the caseless option does not change inside a pattern.
- StartBits.ScanBranch: the same.
- FullCode.BracketEstimates: position tests are taken for undecided, captures are not tracked, a callout standing before
  a condition and recursion tests inside a recursion are not modelled.
- FixedLength.FindFixedlength: assertions, conditions and atomic groups are not covered by this scan, whose other error
  results concern items that are not modelled.
- Emptiness.CouldBeEmptyBranch: the same, and brackets that are not closed yet, which only recursion looks into.
- Match.MatchData.Run: of the opcodes, those of the tree in ByteCode; assertions and BACKCHAR, atomic groups, conditions,
  back references, recursion, backtracking verbs, `\K`, `\G`, `^`, `$`, `\b`, `\R`, `\h`, `\v` and `\X` are not among
  them. Conditions on a named group are covered by the scan of the name table.
- DfaExec.Engine.Exec: of the opcodes, the same.
- Pipeline.Search: which of the matches at a start is reported, and with which spans, is stated by the pattern's own order
  under `Pipeline.InItsOrder`. Where an iteration can be cut the order is the one of the code
  (`LoopOrder.UnlimitedOrder` says when they differ), and the vector is described by `Exec.PcreExec`.
- Compile.CompileBranch: of the items, the same; it starts from a parsed tree.
- Compile.CompilePiece: `{0}` on a group (OP_SKIPZERO), and possessive quantifiers that become atomic groups, which are those
  on classes and groups and `{1,n}+` with n above 1, are not covered.
- Inline option settings (OP_OPT), the ungreedy option, `(?|`, callouts and `capture_last`.
- Partial matching, DFA restart and PCRE_DFA_SHORTEST, the outer loop of `pcre_dfa_exec()` over starts.
- The UTF-8 mode of compiler and matchers, and newlines other than LF with their CR-LF branches.
- The temporary offset vector for back references; a start offset beyond the subject, which `pcre_exec()`
  refuses with an error.
- ERR20 and ERR52, integer overflow of lengths and overrun of the work space: lengths are unbounded integers here,
  and a pattern over 65536 bytes of code is refused.
- `find_firstassertedchar()`: without assertions it finds nothing that was not inferred already.
- Names.NameTable.Insert: rows are separate sequences instead of one block of bytes, and the size of the table, which the
  first pass computes, is a demand on the caller.
- Rewriting.Rewrite: a backslash at the very end of the rewrite string makes the code look at the byte after it; the
  model takes this for a bad escape.
- Rewriting.RE.GlobalReplace: the CR-LF advance after an empty match; a match or recursion limit ends the search early,
  which the ghost result `limited` records.
- Argument parsing and scanning in `pcrecpp.cc`, `pcre_info()`, `pcre_config()`, memory management, `mongoR.cc`.
