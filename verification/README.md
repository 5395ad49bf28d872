# A verified model of ag

This Dafny project models the parts of the code searcher `ag` that decide what is found and what is
printed, and proves what they promise: the TRE regular-expression library it carries, the two literal
search engines, the file-name matcher, the protocol between the directory walk and the search threads,
the hash table behind the walk's loop check, and the two passes that turn matches into output.

Code that changes things in place is modelled by methods and classes with loops and `modifies`
clauses; each is proved against a function or a predicate on values, and the properties are proved
about that.

**From a pattern to a span.** `TreParse` is the parser with its own stack, as a state machine that stops
on every input and marks the nodes that stand for groups (`TreMarked`); `TreParsePrinted` prints a tree
with its submatches and no more groups than precedence asks for, and shows that parsing the text gives the
tree back; `TreFold` says what that tree means when case is ignored, and `TreAtoms` what the atoms no printed
tree shows mean and which patterns are refused. `TreExpand`
unrolls bounded repetition (and copies trees, with tag removal) without changing the language, and
`TreExpandTags` says which copies keep their tags and which directions change.
`TrePositions` computes nullable, firstpos and lastpos with an explicit stack; `TreAutomaton` proves that
the position automaton built from them accepts the language of the tree. `TreTaggedRuns` defines the runs of
a tree, which are its words with the tags set between their bytes, and `TreTaggedWalks` proves that the paths
of the automaton, with the tags on their transitions, are exactly these runs; `TreTnfa` and `TreCompile` lay
it out in one flat array in two passes. `TreParallel` gives the simulation as functions on lists, with
what holds for any number of tags; `TreLeftmost` proves leftmost-longest under an ordering condition on
tags; `TreOvertaken` gives the exact condition for any number of tags; `TreParallelRun` is the matcher
itself, with swapped reach lists and exchanged tag buffers. `TreArrivals` determines what a step keeps of its
arrivals, and `TreRegisters` proves that the tag values of a match are those of one run of the pattern.
`TreSubmatches` says where the tags of all
groups go and `TreRegset` which offsets they hold; `TreAddTags` is the loop of both passes with its symbol
stack, `TreTagNumbers` shows that counting and placing agree, and `TreTagPlaces` says of every group where the
tags of its start and its end stand, how they are optimized and in which order tags are numbered. When the whole match is the only
submatch, `TreTags` and `TreTagPositions` show that the tags meet the ordering condition, so that
the leftmost and longest occurrence is reported (`TreMatch`). With groups it need not be: `TreManyTags`
follows `ax|x(z*)(z*)` on "axz" through parsing, tagging, compilation and matching, and the match at
offset 0 is lost. What holds for every pattern with groups is in `TreGroups`: a match is reported exactly
when there is an occurrence, the span is one, and it is the leftmost-longest one if and only if no arrival
behind its end overtakes it. `TreRegex.Search` states all of this from the pattern's text on, and
`RegexSearch` is the loop that collects the matches of a buffer. `LineSearch` is the loop for single lines,
which counts the offset within a line twice, so that only the first match of a line is reported where it
is. `TreBacktrack` and `TreBacktrackRun` are the
backtracking matcher, whose retry loop can stop too early; `TreRetry` gives the exact condition.
`TreBracket` treats bracket expressions, where a negated one is right exactly when no item overlaps an
earlier one partially.

**Literals.** `BoyerMoore` and `HashSearch` both return the first occurrence, with and without case
folding, so they agree; `LiteralSearch` is the loop that collects matches. `InvertMatches` and
`PrintContext` shape the result, `Lines` and `PrintedLines` say what lines are and what is owed. The print
loop misses the start of a match that begins where the one before ends, and does not get past such a match
when it is empty: `MatchLines` says which lines it sees, and exactly when these are the lines with a match.
The scan of `InvertMatches` does not end exactly when the last match is empty and not at the end of the
buffer. `StarMatches` shows both for the pattern `x*`.

**Files.** `FnmatchChar` and `Fnmatch` match names, and `FnmatchText` shows what the text of a pattern means;
`DirectoryWalk` and `DirectoryReach` walk a graph of directories that may have cycles, and `DirectoryFound` says
what is found by the file system's answers and the options alone. `HashTable` is uthash with its bucket chains and its order list,
`WorkQueue` the linked queue, and `SearchProtocol` the threads around it as a state machine.

The model is of the 8-bit build (`src/unix/tre-config.h`): no wide characters, and every transition is
one range of bytes. Trees are values; a node pointer is the path from the root to the node. The file
system, the hash function, the platform's choice of engine and the tables' zero-initialised memory are
parameters. Indices and counters are unbounded integers; the eight-bit cells of the hash table of
`HashSearch`, the saturating line counter and the one wrap-around of `invert_matches` are written out.

Run `dafny verify dfyconfig.toml` to check everything.

## Model

| member | source | states |
|---|---|---|
| `TreParse.Parser.Parse` | tre/lib/tre-parse.c:949-1740 | The parser stops on every pattern; it returns the status and result of the specified run, REG_EPAREN when a group is left open, and on success leaves the stack as it found it |
| `TreParse.Parser.AtomCase` | tre/lib/tre-parse.c:1204-1697 | One atom: groups of both kinds, escapes, `.`, literals with and without case folding, and the empty expressions where an operator or the end comes instead; what these mean is in `TreFold` and `TreAtoms` |
| `TreParse.Parser.PostfixCase` | tre/lib/tre-parse.c:1114-1202 | One postfix operator becomes an iteration with its bounds, and doubled operators are refused |
| `TreParse.StepKeeps` | tre/lib/tre-parse.c:978-1729 | Every turn keeps the order of symbols on the stack and lowers a measure of what is left to read and to do, although catenation pushes symbols without reading |
| `TreParsePrinted.RoundTrip` | tre/lib/tre-parse.c:949-1740 | For every tree of literals, empty, union, catenation and repetition with any submatches, and all flags: parsing its printed text, where a submatch is a capturing group and precedence alone asks for `(?:...)`, gives that tree with the same submatches, its letters in both cases when case is ignored, hands out that many ids, reads all of it, and ends with depth 0, an empty stack and no error |
| `TreParsePrinted.PrintIsUnambiguous` | tre/lib/tre-parse.c:949-1740 | Different trees, or different submatches, are printed differently |
| `TreParsePrinted.ParsePrinted` | tre/lib/tre-parse.c:949-1740 | The parser itself returns REG_OK and the printed tree with its submatches |
| `TreParsePrinted.ReadChain` | tre/lib/tre-parse.c:1011-1073 | Catenations are read left-associatively: each further piece is joined to what was read before |
| `TreParsePrinted.ReadAlternatives` | tre/lib/tre-parse.c:1075-1112 | Unions are read left-associatively and bind weaker than catenations |
| `TreParsePrinted.ReadGroup` | tre/lib/tre-parse.c:1220-1358 | A group gives the tree inside it, marked with the next id if it captures, closes exactly its own parenthesis and restores the flags |
| `TreFold.PatternAnyCase` | tre/lib/tre-parse.c:1657-1692 | With REG_ICASE that tree means exactly the words of the printed tree in any case |
| `TreFold.ParsedAnyCase` | tre/lib/tre-parse.c:949-1740 | Parsing a printed tree with REG_ICASE ends well with everything read, and a word is in the language of the result exactly when a word of the printed tree has the same length and the same letters but for case |
| `TreAtoms.PeriodMeans` | tre/lib/tre-parse.c:1545-1575 | `.` reads any one byte, but no newline under REG_NEWLINE |
| `TreAtoms.EscapeMeans` | tre/lib/tre-parse.c:1381-1543 | A backslash at the end is refused; before a byte that is no macro, assertion, code or back reference it makes that byte stand for itself, also when case is ignored |
| `TreAtoms.NoAtom` | tre/lib/tre-parse.c:1630-1655 | Where an operator comes instead of an atom the atom is empty |
| `TreAtoms.LoneParenthesis` | tre/lib/tre-parse.c:1361-1379 | A closing parenthesis where no group is open stands for itself |
| `TreAtoms.MarkMeans` | tre/lib/tre-parse.c:1699-1720 | Marking a tree as a submatch keeps its language, and puts the new id in front of those inside, also when the tree is a submatch already |
| `TreAtoms.DoubledOperator` | tre/lib/tre-parse.c:1129-1165 | Behind every printed piece two operators in a row are refused with REG_BADRPT, except that `?` behind one asks for a minimal repetition |
| `TreAtoms.TrailingBackslash` | tre/lib/tre-parse.c:1425-1427 | A backslash at the end of a pattern is refused with REG_EESCAPE |
| `TreAtoms.UnclosedGroup` | tre/lib/tre-parse.c:1735-1736 | A group that is not closed leaves the depth for which REG_EPAREN is returned |
| `TreRegex.RunKeepsSound` | tre/lib/tre-parse.c:978-1729 | Every tree the parser builds has sane repetition bounds and no tags, as compilation requires |
| `TreRegex.ParsedMarks` | tre/lib/tre-parse.c:1699-1720 | The root of every parsed tree, and no other node, is submatch 0; no two nodes stand for the same submatch, none for one whose id was not handed out, and there are no more submatches than ids handed out |
| `TreRegex.Search` | tre/lib/regcomp.c:21-100 | For every pattern that parses, with or without capturing groups: a span is reported exactly when the tree's language occurs, it is an occurrence, and it is the leftmost-longest one under the exact condition of `TreGroups`, without any condition when no group captures; a printed tree is the one parsed, with its submatches, and with REG_ICASE the tree parsed means its words in any case |
| `TreBracket.Items.New` | tre/lib/tre-parse.c:94-120 | Appends the item; the array doubles when full and gives up only above 1024 slots |
| `TreBracket.ExpandCtype` | tre/lib/tre-parse.c:123-155 | A class becomes ranges that are non-empty, in order, apart from each other, and whose union is exactly its members, with case folding too; it fails only when the array cannot grow |
| `TreBracket.AddCounterpoints` | tre/lib/tre-parse.c:380-414 | The added items cover exactly the other cases of the letters in the range |
| `TreBracket.BuildBracket` | tre/lib/tre-parse.c:453-567 | The tree of a bracket reads exactly its items; negated, it never loses a byte outside them, and reads exactly the complement if and only if every item that starts inside what earlier items cover ends inside it |
| `TreBracket.PartialOverlap` | tre/lib/tre-parse.c:470-476 | The items of `[^a-cb-e]` break that condition |
| `TreExpand.CopyAst` | tre/lib/tre-compile.c:656-798 | The stack-driven copy is the tree, without tags or with its first tag's direction maximized as asked |
| `TreExpand.CopyKeepsLanguage` | tre/lib/tre-compile.c:656-798 | No way of copying changes the language |
| `TreExpand.UnrollCopies` | tre/lib/tre-compile.c:896-950 | The copying loops build the unrolled form of {min,max} |
| `TreExpand.UnrollLanguage` | tre/lib/tre-compile.c:896-950 | The unrolled form denotes between min and max repetitions |
| `TreExpand.ExpandAst` | tre/lib/tre-compile.c:807-974 | The in-place, stack-driven expansion is the bottom-up expansion of the tree |
| `TreExpand.ExpandKeepsLanguage` | tre/lib/tre-compile.c:807-974 | Expanding {m,n} at every nesting depth keeps the language of the whole tree |
| `TreExpand.ExpandIsSimple` | tre/lib/tre-compile.c:1820-1830 | Afterwards every iteration has max 1 or -1 and min 0 or 1, so the assertions of tre_ast_to_tnfa cannot fail |
| `TreExpand.ExpandTagFree` | tre/lib/tre-compile.c:807-974 | Trees without tags stay so, and no tag direction changes |
| `TreExpandTags.ExpandedTags` | tre/lib/tre-compile.c:896-950 | The tags after expansion, from left to right: of the copies that must be there the last one keeps its tags, and every further copy does |
| `TreExpandTags.ExpandKeepsTags` | tre/lib/tre-compile.c:807-974 | No tag is lost, none is invented, and the first tag stays the first |
| `TreExpandTags.ExpandedDirections` | tre/lib/tre-compile.c:700-715 | Exactly the tags that come first in what is repeated by count, at least once, are maximized afterwards; all other directions stay |
| `TrePositions.SetUnion` | tre/lib/tre-compile.c:1082-1188 | The union of position sets: the first set with the tags added, then the second |
| `TrePositions.MatchEmpty` | tre/lib/tre-compile.c:1190-1310 | The tags on the preferred empty path through a nullable tree, each once and in order, and the bound that sizes their array |
| `TrePositions.ComputeNpfl` | tre/lib/tre-compile.c:1312-1562 | With one explicit stack every node gets nullable, firstpos and lastpos, and each literal a position of its own |
| `TreAutomaton.EmptyWordIffNullable` | tre/lib/tre-compile.c:1330-1500 | A node is nullable exactly when its language has the empty word |
| `TreAutomaton.EndSetDescribes` | tre/lib/tre-compile.c:1330-1500 | firstpos and lastpos list exactly the positions at which a word can start or end, each once, with its range of bytes |
| `TreAutomaton.EdgesAreFollows` | tre/lib/tre-compile.c:1784-1838 | A transition is made from p to q exactly when q can follow p in a word, with p's range of bytes |
| `TreAutomaton.LangHasWalk` | tre/lib/tre-compile.c:1784-1838 | Every non-empty word of the language is spelled by a walk over positions |
| `TreAutomaton.WalkInLang` | tre/lib/tre-compile.c:1784-1838 | Every walk over positions spells a word of the language |
| `TreAutomaton.AutomatonIsClosed` | tre/lib/tre-compile.c:1976-2149 | Every state a transition or an initial entry names is one of the automaton's |
| `TreAutomaton.AcceptsIsLang` | tre/lib/tre-compile.c:1976-2149 | A word labels a path from an initial state to the final state exactly when it is in the language of the expanded tree |
| `TreTaggedRuns.OnlyEmptyRun` | tre/lib/tre-compile.c:1190-1310 | A tree has a run that reads nothing exactly if it is nullable, and then only one, which sets the tags of the preferred empty path |
| `TreTaggedWalks.PathsAreRuns` | tre/lib/tre-compile.c:1312-1838 | Tags included: a path from an initial state to the final one that reads a word, with certain tags set in each gap between its bytes, exists exactly if the tree has that run |
| `TreTnfa.TransTags` | tre/lib/tre-compile.c:1649-1697 | The tags of a transition: those of both positions, those of the first before the others |
| `TreTnfa.AddTransition` | tre/lib/tre-compile.c:1590-1624 | The transition goes behind those its state already has, with a terminator, and no other state's list changes |
| `TreTnfa.FillTransitions` | tre/lib/tre-compile.c:1575-1721 | The filling pass adds the transitions of all pairs, skipping a position that repeats the one before it |
| `TreTnfa.CountTransitions` | tre/lib/tre-compile.c:1763-1778 | The counting pass adds to each state's count the number of its transitions |
| `TreTnfa.AstToTnfa` | tre/lib/tre-compile.c:1784-1838 | The counting pass counts, and the filling pass adds, exactly the edges of the subtree |
| `TreCompile.Offsets` | tre/lib/tre-compile.c:2003-2017 | Every state gets room for its counted transitions and a terminator, without overlap, and the counts are reset |
| `TreCompile.LayOut` | tre/lib/tre-compile.c:1998-2028 | What was counted fits what is filled in: the array holds the transitions of every state |
| `TreCompile.FirstChar` | tre/lib/tre-compile.c:2030-2079 | first_char, when set, is the only byte that transitions of the listed states read |
| `TreCompile.InitialStates` | tre/lib/tre-compile.c:2106-2146 | One initial entry for each position of firstpos, with its tags, and a terminator |
| `TreCompile.BuildTnfa` | tre/lib/tre-compile.c:1976-2150 | The finished structure represents the position automaton of the tree with the dummy final literal, and first_char is sound |
| `TreCompile.CompileAst` | tre/lib/tre-compile.c:1965-2150 | The same from tre_expand_ast on, with the tag directions after expansion |
| `TreCompile.CompileKeepsLanguage` | tre/lib/tre-compile.c:1965-2150 | The compiled automaton accepts exactly the language of the parsed tree |
| `TreParallel.ParallelFindsMatch` | tre/lib/tre-match-parallel.c:270-487 | For any number of tags the matcher reports a match exactly when some stretch is accepted, and the reported end is the end of one; without tags it is the earliest end |
| `TreParallel.ParallelSpanIsAccepted` | tre/lib/tre-match-parallel.c:406-486 | For any number of tags, tag 0 being set on initial transitions only, the reported stretch is accepted |
| `TreParallel.VisitAllCovers` | tre/lib/tre-match-parallel.c:406-486 | After a step the list holds exactly the states arrived in, each once, with the tags of one of the arrivals |
| `TreArrivals.VisitAllHoldsBest` | tre/lib/tre-match-parallel.c:406-486 | And these are the tags of an arrival that no other arrival in that state beats, the states being listed in the order of their first arrivals |
| `TreArrivals.StepIsUnique` | tre/lib/tre-match-parallel.c:406-486 | That determines the list |
| `TreArrivals.WinsExactly` | tre/lib/tre-match-utils.h:177-201 | One list of tag values wins over another exactly if at the first tag where they differ its value is the smaller one, or the greater one for a maximized tag |
| `TreLeftmost.RankedIsLeftmostLongest` | tre/lib/tre-match-parallel.c:270-487 | When later arrivals in the list never win over earlier ones, the matcher returns the leftmost start and the longest end for it |
| `TreLeftmost.OneTagIsLeftmostLongest` | tre/lib/tre-match-parallel.c:270-487 | One minimized tag, set on the initial transitions only, meets that condition |
| `TreOvertaken.LeftmostExactly` | tre/lib/tre-match-parallel.c:270-487 | For any number of tags, tag 0 being minimized and set on the initial transitions only: the result is leftmost-longest if and only if no step behind the end of the best stretch has an arrival in the final state that wins over the first one there |
| `TreOvertaken.VisitAllMatch` | tre/lib/tre-match-parallel.c:434-486 | The match after a step: the first arrival in the final state replaces it only if it starts no later, a winning one always |
| `TreManyTags.PatternTags` | tre/lib/tre-compile.c:142-639 | The five tags that the pattern ax or x(z*)(z*) gets, their places and directions |
| `TreManyTags.PatternAutomaton` | tre/lib/tre-compile.c:1976-2149 | The automaton it is compiled to |
| `TreManyTags.PatternParsed` | tre/lib/tre-parse.c:949-1740 | That pattern is what the parser makes of its text, the groups being submatches 1 and 2 |
| `TreManyTags.GroupsLoseLeftmost` | tre/lib/tre-match-parallel.c:472-479 | For that pattern on "axz" the match at offset 0 is overwritten by one at offset 1, although tag 0 is set at the start only and minimized |
| `TreParallelRun.ParallelRun.SetRowTags` | tre/lib/tre-match-parallel.c:424-432 | The tags of a transition below the number of tags take the current position in one buffer, and no other buffer changes |
| `TreMatchUtils.TagOrder` | tre/lib/tre-match-utils.h:177-201 | The loop returns whether the first list of values beats the second at the first tag where they differ, by its direction |
| `TreParallelRun.ParallelRun.Arrive` | tre/lib/tre-match-parallel.c:425-486 | One arrival in the list under construction, on shared buffers: adding a state, or exchanging its buffer with the temporary one; no two slots ever share a buffer |
| `TreParallelRun.RoomForOne` | tre/lib/tre-match-parallel.c:186-195 | A list of distinct states has room for one more, so a step never holds more than num_states entries |
| `TreParallelRun.ParallelRun.SwapReach` | tre/lib/tre-match-parallel.c:352-355 | The list just built becomes the one to read, and the other one starts empty; no state is shared or lost |
| `TreParallelRun.TnfaRunParallel` | tre/lib/tre-match-parallel.c:107-499 | The whole matcher returns the result of the simulation on lists, and the tag values it returns are those of a run of the tree |
| `TreRegisters.ParallelTellsRun` | tre/lib/tre-match-parallel.c:107-499 | The tag values of the reported match are those of one run of the expanded tree, which ends where the match ends: each tag holds the last place where that run sets it, or -1 |
| `TreSubmatches.PlaceKeepsLanguage` | tre/lib/tre-compile.c:142-639 | The tags of any number of groups do not change the language |
| `TreSubmatches.WholeMatchTags` | tre/lib/tre-compile.c:142-639 | Without groups one start tag is placed before the first node that takes one, and for a union at the root one more behind each operand |
| `TreTagNumbers.PassesAgree` | tre/lib/tre-compile.c:142-639 | The two passes agree, as the assertion at the end requires: as many tags are placed as were counted, they are numbered from 0 on without gaps or repetitions, and exactly they have directions |
| `TreTagPlaces.GroupTags` | tre/lib/tre-compile.c:142-639 | Of every group: its start tag leads what the group reads, and its end tag leads the next node that takes one behind it, out of iterations and unions, or is the end tag when there is none; a tag is placed exactly where a start or an end waits and behind the operands of unions with groups; later is better behind an iteration or a union, earlier inside an iteration; and the numbers are in the order in which tags are compared |
| `TreAddTags.CountTags` | tre/lib/tre-compile.c:142-639 | The first pass with its symbol stack and its lifted regset leaves in every node the number of tags it takes, and the total is that of the root, as the assertion at the end requires |
| `TreAddTags.AddTags` | tre/lib/tre-compile.c:142-639 | Both passes: the second one, reading the numbers of the first, builds the specified tree with the specified tags and directions, and gives every waiting offset of every submatch the tag placed next; so what `TreTagPlaces` says of groups holds of what it returns |
| `TreRegset.WholeOffsets` | tre/lib/tre-compile.c:114-138 | The start of the whole match gets tag 0, or the end tag when no tag is placed, and its end gets the end tag, which is the number of tags |
| `TreTags.PlacedIsLed` | tre/lib/tre-compile.c:39-68 | The start tag comes before everything that reads a byte and outside all iterations, also after expansion |
| `TreTagPositions.LedIsOneTag` | tre/lib/tre-compile.c:1976-2149 | Then tag 0 is set on every initial transition and on no other |
| `TreTagPositions.UnionIsRanked` | tre/lib/tre-compile.c:142-653 | The three tags of a union at the root never let a later arrival win |
| `TreTagPositions.FinalHasNoSteps` | tre/lib/tre-compile.c:1976-1987 | The dummy final literal has no transitions |
| `TreMatch.MatchIsLeftmostLongest` | tre/lib/regexec.c:139-205 | The span that the parallel matcher yields for the tagged and expanded pattern is leftmost-longest |
| `TreGroups.WholeIsLed` | tre/lib/tre-compile.c:142-639 | Whatever groups a pattern has, tag 0 is minimized and stands before everything that reads a byte and outside all iterations, unless nothing reads a byte and there are no tags |
| `TreGroups.ExpandLed` | tre/lib/tre-compile.c:807-974 | Unrolling bounded repetition leaves it there, with its direction |
| `TreGroups.GroupsMatch` | tre/lib/regexec.c:139-205 | With any groups a match is found exactly when the pattern occurs, the span is an occurrence, and it is the leftmost-longest one if and only if it is not overtaken |
| `TreGroups.OnlyWholeStays` | tre/lib/tre-match-parallel.c:270-487 | A pattern without groups is never overtaken |
| `TreGroups.RegComp` | tre/lib/tre-compile.c:1917-2150 | Compiling leaves the automaton of the tagged and expanded tree, with its directions, and the tags of the submatch offsets |
| `TreGroups.FillPmatch` | tre/lib/regexec.c:54-88 | The ends of the register are the values of the tags of submatch 0, the end of the match standing for the end tag |
| `TreGroups.RegNExec` | tre/lib/regexec.c:139-205 | Matching with the compiled pattern reports a span exactly when the pattern occurs, an occurrence, the leftmost-longest one if and only if it is not overtaken |
| `TreGroups.RegExecGroups` | tre/lib/regexec.c:54-205 | The same for compiling and matching together; without groups the span is the leftmost-longest one |
| `RegexSearch.SearchMultiline` | src/search.c:122-148 | For every pattern, with or without groups: each match is an occurrence, and it is the first and longest of those that start behind the match before, at its end or later and past its start, if and only if the matcher is not overtaken on the rest of the buffer, and always when no group captures; behind the last match nothing occurs unless the limit stopped the search |
| `RegexSearch.ResumeMeans` | src/search.c:131-135 | Where the loop goes on is the first place that is behind the match before: its end, or one byte further if the match is empty |
| `RegexSearch.SpansAreUnique` | src/search.c:122-148 | Leftmost-longest matches determine the list |
| `RegexSearch.SpansInvert` | src/search.c:122-148 | For matches of any pattern: the list meets the condition of invert_matches exactly when its last match is not empty, unless that match lies at the very end |
| `RegexSearch.SpansPrint` | src/search.c:122-148 | For matches of any pattern: the list can be printed, and when no match reaches over the end of a line the output is right exactly if the matches from one that the print loop does not get past on are on its line, as they are when the pattern does not match the empty word |
| `LineSearch.GetLine` | src/util.c:620-627 | The length of a line up to its newline or the end of the buffer |
| `LineSearch.SearchLines` | src/search.c:149-187 | The loop for single lines finds, in each line and from behind the match before on, what the matcher reports for the rest of the line, and misses nothing; what it writes down is that match shifted by the offset at which the line was searched |
| `LineSearch.SearchedFrom` | src/search.c:153-179 | A line is searched from its start on, and again from the first place behind each match in it |
| `LineSearch.BehindMeans` | src/search.c:168-172 | That place is the end of the match, or one byte further if it is empty |
| `LineSearch.FirstOfLine` | src/search.c:162-176 | A match is an occurrence, and is reported where it is if and only if it is the first one of its line |
| `LineSearch.RightExactly` | src/search.c:162-176 | The reported list is right if and only if no line has two matches |
| `LineSearch.SecondIsElsewhere` | src/search.c:162-176 | For `x` on "xx" the match at offset 1 is reported at offset 2, behind the end of the buffer |
| `StarMatches.StarFound` | src/search.c:122-148 | The matches of `x*` on the two lines "xy" and "x": one, two empty ones, and one on line 2 |
| `StarMatches.LineTwoMissed` | src/print.c:165-200 | For these matches the print loop sees line 1 only, though both lines hold a match, so what it prints is wrong |
| `StarMatches.StarEmpties` | src/search.c:122-148 | The matches of `x*` on the line "ab": three empty ones, the last before the newline |
| `StarMatches.NeverInverted` | src/util.c:266-298 | For these matches the scan of invert_matches does not reach the end of the buffer in any number of turns |
| `TreBacktrack.AttemptIsLongest` | tre/lib/tre-match-backtrack.c:303-612 | One attempt terminates and records the longest accepted stretch from its start, or none exactly when there is none |
| `TreBacktrack.AttemptStartsAtTag` | tre/lib/tre-match-backtrack.c:303-401 | Its tag 0 is its start |
| `TreRetry.AttemptStops` | tre/lib/tre-match-backtrack.c:539-612 | An attempt ends where the path stops that takes, at each step, the choice explored last: the second one, or the only one |
| `TreRetry.AttemptsFind` | tre/lib/tre-match-backtrack.c:599-667 | The reported match is that of the first start with one, if and only if for every start before it that path stops short of the end of the string |
| `TreRetry.BacktrackExactly` | tre/lib/tre-match-backtrack.c:303-667 | With tag 0 at the start the result is leftmost-longest if and only if that holds for every start before the leftmost match |
| `TreRetry.MatchersAgree` | tre/lib/tre-match-backtrack.c:303-667 | With one tag the two matchers report the same span under the same condition, and only then |
| `TreRetry.MatchAtZeroIsLeftmostLongest` | tre/lib/tre-match-backtrack.c:303-667 | When a match starts at offset 0 the condition holds and the result is leftmost-longest |
| `TreRetry.BOrAACompiled` | tre/lib/tre-compile.c:1976-2149 | The automaton that the union of `b` and `aa` is compiled to |
| `TreRetry.RetryStopsEarly` | tre/lib/tre-match-backtrack.c:626-643 | For that union on "ab", without tags: `b` occurs at offset 1, the first attempt ends at the end of the string, and no match is reported |
| `TreBacktrackRun.TakeTransitions` | tre/lib/tre-match-backtrack.c:539-596 | The first transition that reads the byte is taken and the others are pushed, in the order of the specification |
| `TreBacktrackRun.RunAttempt` | tre/lib/tre-match-backtrack.c:303-625 | The loop, with its backtrack stack as a sequence, performs the specified attempt and leaves the offset of the last path explored |
| `TreBacktrackRun.TnfaRunBacktrack` | tre/lib/tre-match-backtrack.c:200-667 | The whole matcher returns the specified result |
| `Text.FirstIsUnique` | src/util.c:187-240 | The first occurrence is unique, so engines that return it agree |
| `Text.LetterPairs` | src/util.c:69-86 | Case changes the 26 letters into each other and nothing else |
| `BoyerMoore.IsPrefix` | src/util.c:88-103 | True exactly when the tail from pos is a prefix, that is, pos is a period |
| `BoyerMoore.SuffixLen` | src/util.c:106-121 | How far the two ends agree |
| `BoyerMoore.GenerateFindSkip` | src/util.c:124-144 | Every entry is the least shift that the strong good-suffix rule allows |
| `BoyerMoore.GenerateAlphaSkip` | src/util.c:69-86 | Every entry is the distance from the end of the last place of that byte, in either case when folding |
| `BoyerMoore.SkippedNone` | src/util.c:187-202 | No alignment that the larger of the two skips passes over is an occurrence |
| `BoyerMoore.Strnstr` | src/util.c:187-202 | The first occurrence or NULL; every step moves the alignment forward |
| `HashSearch.GenerateHash` | src/util.c:160-184 | The loops leave the specified table; for queries of up to 256 bytes, probing for any word of the query, in any capitalization, meets all its offsets, the larger ones first |
| `HashSearch.HashesExactly` | src/util.c:160-184 | Every word finds a free cell if and only if the cells that the words occupy are no more than there are, offsets whose eight-bit value is 0 occupying none: up to 16449 bytes when folding, up to 65794 bytes otherwise |
| `HashSearch.ProbingEnds` | src/util.c:175-177 | Looking for a free cell ends if and only if there is one |
| `HashSearch.Lookup` | src/util.c:206-226 | Looking one stepped word up finds the first occurrence among the starts that cover it |
| `HashSearch.Strnstr` | src/util.c:206-240 | The first occurrence or NULL, the tail loop included |
| `LiteralSearch.SetUp` | src/main.c:105-122 | The three tables of a lower-cased query satisfy both engines |
| `LiteralSearch.NextHit` | src/search.c:68-82 | Whichever engine is chosen, the first occurrence from the offset on |
| `LiteralSearch.FirstSkipIsPeriod` | src/util.c:131-143 | find_skip[0] - length + 1 is the shortest period of the query |
| `LiteralSearch.SkipIsSafe` | src/search.c:86-102 | The skip after a hit that is not a whole word passes over no occurrence |
| `LiteralSearch.WordBytes` | src/util.c:437-447 | The bytes of words are the letters, the digits and the underscore |
| `LiteralSearch.AcceptedAtEdges` | src/search.c:86-102 | With --word-regexp an occurrence counts exactly if each of its ends is at an end of the buffer or between a byte of a word and another byte |
| `LiteralSearch.ReallocMatches` | src/util.c:307-314 | There is room for one more match, and the matches so far are kept |
| `LiteralSearch.SearchLiteral` | src/search.c:62-118 | The matches are the greedy leftmost ones without overlap, none is missed behind the last one unless the limit stopped the search, and the spare slots are kept |
| `LiteralSearch.GreedyIsUnique` | src/search.c:62-118 | That determines the list |
| `LiteralSearch.GreedyIsSorted` | src/search.c:62-118 | Matches are in order, disjoint and inside the buffer |
| `InvertMatches.ScanTurn` | src/util.c:266-299 | One turn of the loop changes the variables and the array as the specified turn does |
| `InvertMatches.Invert` | src/util.c:242-305 | In place and reading every match before its slot is overwritten: the maximal stretches of lines that no match strikes, for all matches in order, with or without newlines; at most one slot beyond the matches is written; an empty buffer without matches gives the wrapped end |
| `InvertMatches.StruckIsTouched` | src/util.c:267-293 | These are the maximal stretches of match-free lines if and only if every match that is empty or ends with a newline is followed by a line that holds a match byte |
| `InvertMatches.EndsExactly` | src/util.c:266-298 | For every list of sorted and disjoint matches the scan from the start of the buffer on reaches its end if and only if the last match is not empty or lies at the very end |
| `InvertMatches.InversionIsUnique` | src/util.c:242-305 | There is only one list of such stretches |
| `InvertMatches.LiteralsInvert` | src/search.c:62-118 | The matches of a literal meet the condition, and those of one without a newline leave exactly the match-free lines |
| `InvertMatches.SearchInverted` | src/search.c:38-193 | With -v the matches that are found are inverted, and the spare slot suffices; for a literal without a newline and no limit on matches the bytes reported are exactly those of lines on which no accepted occurrence starts |
| `Lines.LineText` | src/print.c:203-215 | Each line is found, complete, under its number |
| `PrintedLines.StartLine` | src/print.c:165-194 | The mark and the ring's lines printed at the first match of a line are exactly what that match makes wanted |
| `PrintedLines.FinishLine` | src/print.c:208-232 | At the end of a line, printing it depends only on the distance to the last line with a match |
| `PrintedLines.StopEarly` | src/print.c:164-164 | Once the loop may stop, no later line is wanted |
| `PrintedLines.ReportTells` | src/print.c:137-316 | Different sets of lines with a match give different output |
| `PrintedLines.ReportIsPrinted` | src/print.c:142-232 | The output itself: every line within `before` above or `after` below a line with a match is printed, in order, once, under its number and with its mark of a match, and no other; when one of before, after and context is positive, a mark stands between two printed lines exactly if their numbers differ by more than one, never first, last or twice in a row, and otherwise there is none |
| `MatchLines.SeenExactly` | src/print.c:165-200 | For every list of sorted and disjoint matches: all lines with a match are seen if and only if every match whose start the loop does not notice ends on a seen line, at most one line below its start |
| `MatchLines.OneLineExactly` | src/print.c:165-200 | For matches that lie on one line each: all are seen if and only if the matches from one that the loop does not get past on are on its line |
| `MatchLines.HitIsHeld` | src/print.c:165-200 | The lines from the start of a match to its end are those with a byte of a match if and only if every match that is empty or ends with a newline ends on a line with such a byte |
| `MatchLines.LiteralsSeen` | src/search.c:62-118 | The matches of a literal without a newline lie on one line each, and all are seen |
| `PrintContext.Context.Append` | src/print.c:57-66 | The ring holds the last `before` lines, each in the slot of its number |
| `PrintContext.Context.ShowLeading` | src/print.c:182-191 | The lines read back from the ring are the right ones with the right numbers, and empty slots are skipped |
| `PrintContext.Context.ShowTrailing` | src/print.c:68-90 | Context below a match, and the saturating distance |
| `PrintContext.Context.PrintFileMatches` | src/print.c:137-316 | For every list of sorted and disjoint matches, empty ones and ones over several lines included: the output is that of `ReportIsPrinted` for the lines that the loop sees; it is what the lines with a match call for if and only if those are the lines seen |
| `FnmatchChar.ClassMatch` | src/infnmatch.c:123-160 | Recognizes exactly `[:name:]` of a known class, and says whether the character belongs to it |
| `FnmatchChar.MatchBracket` | src/infnmatch.c:179-277 | A closed bracket expression matches exactly the characters of its items, or the others when negated |
| `FnmatchChar.FnmatchCh` | src/infnmatch.c:169-306 | One element against one character, and where both pointers move |
| `FnmatchText.ClassMembers` | src/infnmatch.c:99-117 | The twelve classes have the members listed |
| `FnmatchText.ClassNames` | src/infnmatch.c:99-117 | Each class is found under its own name only |
| `FnmatchText.ReadSet` | src/infnmatch.c:179-277 | Bracket text with characters, ranges and classes, escaped or not, negated with `!` or `^`, is read back as what it lists, and ends at its closing bracket |
| `FnmatchText.SetFits` | src/infnmatch.c:179-277 | It matches exactly the characters in that list, or when negated exactly the others |
| `FnmatchText.UnclosedFits` | src/infnmatch.c:265-277 | A bracket that is never closed is an ordinary character |
| `Fnmatch.FirstFitSuffices` | src/infnmatch.c:422-494 | Behind a star, taking the first place where a fixed run fits loses no match when another star follows |
| `Fnmatch.LastRunIsAnchored` | src/infnmatch.c:399-420 | The last fixed run of a segment can only match at the segment's end |
| `Fnmatch.MatchSegment` | src/infnmatch.c:354-502 | The greedy work on one segment neither loses nor invents a match of the rest |
| `Fnmatch.AgFnmatch` | src/infnmatch.c:309-514 | With FNM_PATHNAME, 0 is returned exactly when the pattern matches under the recursive definition |
| `FnmatchText.ReadGlob` | src/infnmatch.c:309-514 | The text of a list of stars, question marks, slashes, characters and bracket expressions means that list under the recursive definition |
| `FnmatchText.MatchText` | src/infnmatch.c:309-514 | So ag_fnmatch on that text returns 0 exactly when the string is matched piece by piece |
| `WorkQueue.Queue.Enqueue` | src/search.c:663-674 | One path at the end of the list |
| `WorkQueue.Queue.Dequeue` | src/search.c:473-480 | The first path of the list |
| `SearchProtocol.RunKeepsInv` | src/search.c:460-488 | In every interleaving: one owner of the mutex, nothing lost or invented between walk, queue and workers, workers leave only behind done_adding_files, and a non-empty queue has an active worker |
| `SearchProtocol.TakenInOrder` | src/search.c:473-480 | Paths are taken in FIFO order |
| `SearchProtocol.LogGrows` | src/search.c:473-480 | What has been taken by whom is never revised, so each path goes to one worker |
| `SearchProtocol.NoLostWakeup` | src/search.c:663-674 | A non-empty queue leaves some worker neither waiting nor exited, except while the walk is between appending a path and signalling it |
| `SearchProtocol.NeverStuck` | src/search.c:460-488 | Until all is over some thread can move, without help of a spurious wake-up |
| `SearchProtocol.JoiningComesNearer` | src/main.c:194-203 | From pthread_join on, every step lowers a measure of the work left, and nobody waits |
| `SearchProtocol.JoinTerminates` | src/main.c:194-203 | So every run ends |
| `SearchProtocol.EndedWithAll` | src/main.c:194-203 | At the end the queue is empty and exactly the enqueued paths have been taken, in order |
| `DirectoryWalk.Walker.CheckSymloopEnter` | src/search.c:490-521 | Enters the directory's key, or reports a loop or a failed stat |
| `DirectoryWalk.Walker.CheckSymloopLeave` | src/search.c:523-543 | Takes the key out, unless it is zero or absent |
| `DirectoryWalk.Walker.SearchDir` | src/search.c:545-715 | The recursion terminates on every graph of directories, cyclic ones included, when the depth is limited or the stat calls the walk makes give finitely many keys, and its events and table are those of the specified walk |
| `DirectoryWalk.WalkRestores` | src/search.c:564-712 | Each call leaves the loop table as it found it, so it always holds the directories of the current path, if no key is zero |
| `DirectoryReach.WalkFindsExactly` | src/search.c:545-715 | The walk reports exactly the files below chains of directories that come to no directory twice |
| `DirectoryFound.FoundExactly` | src/search.c:618-712 | The events by the file system's answers and the options alone: no link is looked at unless links are followed, with --one-device nothing on another device, a directory is entered exactly if directories are recursed into and the depth allows, and a file gives the event that its regex result asks for |
| `DirectoryFound.EntriesInOrder` | src/search.c:618-712 | A directory gives what its entries give, in the order of the listing: nothing, one event, or what the directory entered gives |
| `DirectoryFound.FoundIsLookedAt` | src/search.c:623-643 | Nothing but the root itself is found on another device or, unless links are followed, is a link; only directories are searched as files right away |
| `DirectoryFound.LinksMakeNoDifference` | src/search.c:640-643 | When links are followed, which paths are links changes neither the events nor the table |
| `DirectoryReach.ChainPathsAreClosed` | src/search.c:618-712 | The paths that chains of directories from the root come to are closed under entering, so only their stat calls matter |
| `DirectoryReach.LoopFreeSuffices` | src/search.c:564-568 | Cutting loops loses no directory: each one reached at all is reached without a loop |
| `HashTable.MaskIsRemainder` | src/uthash.h:208-211 | The mask of a power of two is the remainder |
| `HashTable.PushFront` | src/uthash.h:655-668 | The item becomes the head of its bucket's doubly linked chain, all other chains stay |
| `HashTable.DelInBkt` | src/uthash.h:670-680 | The item leaves its bucket's chain, all other chains stay |
| `HashTable.DoubleBuckets` | src/uthash.h:711-752 | After doubling every item is in the bucket of its hash value, with right links, counts and expansion factors, and nonideal_items is the number of items beyond the ideal chain length |
| `HashTable.Table.Find` | src/uthash.h:103-113 | Agrees with the map of the items added and not deleted |
| `HashTable.Table.Add` | src/uthash.h:184-206 | The map and the insertion order grow by the item, and all of the written invariant (lines 286-330) holds again, after a doubling too |
| `HashTable.Table.Delete` | src/uthash.h:225-252 | The item leaves the map and the order list, and the invariant holds again |

## Left out

- HashSearch.GenerateHash: requires that every word finds a free cell, which is exactly when its loops end; HashesExactly says for which lengths that is.
- LiteralSearch.SetUp: requires the same.
- TreParse.Parser.Parse: bracket expressions, bounds, assertions, back references and flag letters end the run with the status Elsewhere.
- TreParse.Parser.AtomCase: reports bracket expressions, assertions, macros and back references as Elsewhere.
- TreParse.Parser.PostfixCase: reports braces and minimal operators as Elsewhere.
- TreRegex.Search: promises nothing for patterns that end as Elsewhere.
- TreSubmatches.PlaceKeepsLanguage: leaves out minimal repetition, as do both passes of TreAddTags.
- TreAddTags.AddTags: fills in so_tag and eo_tag of all submatches, but not their lists of parents; a node that has been dealt with waits on a second stack for its parent instead of being overwritten, and num_tags is kept in a tree of the same shape.
- PrintContext.Context.PrintFileMatches: requires before + after + 1 < INT_MAX, because the counter's start value INT_MAX, "no match yet", is otherwise taken for a real distance.
- InvertMatches.Invert: requires that the last match is not empty unless it is at the end of the buffer, which is exactly when the scan ends, as EndsExactly shows.
- TreBracket.BuildBracket: takes the items as qsort leaves them; how qsort orders items with the same start is not specified, and matters only where the condition fails.
- DirectoryWalk.Walker.SearchDir: requires a depth limit, or that stat succeeds on the paths that can be entered from the root, as a directory whose stat fails is walked without being entered in the loop table.
- Reading bracket items from the pattern (ranges, class names, collating elements), bounds `{m,n}`, assertions, macros, back references, minimal repetition and `(?i)`-like flags in the parser: reported as Elsewhere; the trees they lead to are covered from tre_expand_ast on where they consist of literals and repetitions.
- Basic regular expressions, REG_LITERAL, REG_UNGREEDY and REG_RIGHT_ASSOC.
- The registers of the submatches other than the whole match are not filled in; where their tags stand and what they hold is in TreTagPlaces and TreRegisters.
- The position numbers tre_expand_ast writes into literals: tre_compute_npfl overwrites them.
- Zero-width assertions, character classes on transitions (the 8-bit build expands them), back references and approximate matching in the automaton and the matchers.
- Wide and multibyte characters, user-supplied input sources, and locales other than "C".
- Running out of memory: allocations succeed, the AST is a value, and the parse and tree stacks are sequences.
- Colour, column numbers, truncation, --only-matching, ackmate and vimgrep output, streams, and the raw newline bytes: a printed line is an event with its number, separator and text. A buffer that ends with a newline has an empty last line, which is printed as context like any other.
- HASH_SORT, HASH_SELECT, the Bloom filter and the hash function's body: any function from keys to numbers will do.
- Option parsing, ignore lists, decompression, console code, logging and all other input and output.
