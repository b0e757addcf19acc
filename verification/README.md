# Verified models of a regular-expression matcher, a stream editor and their neighbours

The centre of this project is the regular-expression package inside GNU sed 1.18 (`programs/v1/sed.c`): a
compiler that turns a pattern into byte code by inserting instructions into code already emitted, a
backtracking machine that runs this code on a failure stack and rewrites it while it runs, and an index of
first bytes that lets a search skip positions. Around it stand sed's own script compiler and interpreter,
the GNU option scanner, and four small stateful programs: a hash table with tombstones, a round-robin
scheduler, the expansion of mutator groups and the splitting of work into batches.

How the regular-expression part is built up:

- `RegexAst`, `RegexSource`: patterns, the language they stand for (an independent, declarative definition:
  `BranchMatches`, `PatternMatches`), and patterns as sequences of tokens with their meaning.
- `Bytes`, `RegexCode`, `RegexLayout`, `RegexBracket`, `RegexBuild`, `RegexCompiler`, `RegexCompile`: the
  compiler as a class over a growing byte array, for patterns without groups.
- `RegexTree`, `RegexGrowth`, `RegexGroups`: the compiler with groups, nesting and any quantifier over any group.
- `RegexState`, `RegexStep`, `RegexFetch`, `RegexVm`: the machine over the byte array, refining the list of
  events in `RegexTrace`.
- `RegexReach`, `RegexGreedy`, `RegexTheorems`, `RegexShadow`, `RegexPopFree`, `RegexLimits`, `RegexFine`,
  `RegexCorrect`: why these events are right, and for which patterns and texts.
- `RegexExceptions`: where they are not, exactly.
- `RegexFlow`, `RegexNested`, `RegexFirst`, `RegexRuns`, `RegexFastmap`, `RegexPlain`, `RegexMiss`,
  `RegexSearch`: the index of first bytes for patterns with groups, and searching with it.

Outside the regular expressions: `OptionScan`, `OptionWords` and `Getopt`; `SedBlocks`, `SedTokens`, `SedRange` and
`SedSubstitute`; `HashTable`, `RoundRobin`, `Mutators` and `TaskBatches`. Wherever a method is proved against a
specification function, that function has a law of its own that does not mention it: a tree reads back as the steps
it was grown from, a command line is the words it reports, a compiled script does what its text says.

Bytes are `byte` values, texts sequences of them. The syntax is the one sed compiles with by default (POSIX
basic regular expressions, section 9.3 of IEEE Std 1003.1, with `\+`, `\?` and `\|`), without a translate
table. Memory never runs out except where the program limits it itself: 65536 bytes of code, 2560 failure
points.

## Model

| member | source | states |
|---|---|---|
| Bytes.NumberRoundTrip | programs/v1/sed.c:2586-2609 | A number stored in two bytes is read back unchanged if and only if it lies in -32768 to 32767. |
| RegexBuild.InsertOp1 | programs/v1/sed.c:4292-4306 | Afterwards the code up to the new end is what stood before the place, the opcode with its address, and what stood behind it; bytes beyond the new end stay. |
| RegexBuild.InsertOp2 | programs/v1/sed.c:4311-4325 | The same with two arguments and five bytes. |
| RegexCompiler.Compiler.GetBufferSpace | programs/v1/sed.c:3136-3167 | Doubling until n more bytes fit succeeds if and only if the code with them is at most 65536 bytes long; what has been emitted stays. |
| RegexBracket.FillBitMap | programs/v1/sed.c:4401-4444 | The 32 bytes of the map have bit c set exactly for the members of the ranges; everything before the map stays. |
| RegexBracket.TrimBitMap | programs/v1/sed.c:3722-3727 | Dropping trailing zero bytes leaves the shortest map with the same members, its length in front. |
| RegexSource.RunCollapses | programs/v1/sed.c:3436-3476 | For every run of `*`, `\+` and `\?`: the repetition counts the run allows, one operator applied to the other, are those of the single quantifier it is collapsed to. |
| RegexSource.LeadingOperator | programs/v1/sed.c:3421-3431 | An operator with nothing to repeat means what its own character means when it is escaped. |
| RegexAst.AnchorsMirror | programs/v1/sed.c:6049-6097 | `^` holds exactly where, the text read backwards, `$` holds, and likewise the buffer anchors; inside a text `^` holds exactly behind a newline. |
| RegexBracket.BracketMatches | programs/v1/sed.c:5779-5800 | A byte matches a bracket if and only if it lies in one of the ranges, ends included, or with `^` in none. |
| RegexSource.UngroupSame | programs/v1/sed.c:4201-4230 | Gathering neighbouring characters into runs of up to 255 matches the same stretches of every text as matching them one by one. |
| RegexCompiler.Compiler.NormalChar | programs/v1/sed.c:4201-4230 | A character starts a run or extends the run that ends the code; what has been compiled stands for the old pattern with the character behind it, and under a following quantifier it stands alone. |
| RegexCompiler.Compiler.Bracket | programs/v1/sed.c:3552-3728 | The bracket is compiled if and only if 34 bytes are left, and the code then stands for the old pattern with the set behind it. |
| RegexCompiler.Compiler.Repeat | programs/v1/sed.c:3417-3543 | The stored and inserted jumps turn the last character into that character under the quantifier; refused exactly when 3, 6 or 9 bytes are missing. |
| RegexCompiler.Compiler.Interval | programs/v1/sed.c:4010-4084 | For all bounds up to the limit: the three insertions and one store give the code of the last character under `\{lo,hi\}`, every relative address on the count or exit it is meant for. |
| RegexCompiler.Compiler.Alternative | programs/v1/sed.c:3891-3933 | The jump inserted before the alternative, the filled hole and the new hole make the code that of the finished alternatives and an empty new one. |
| RegexCompile.RegexCompile | programs/v1/sed.c:3264-4258 | For every sequence of tokens with quantifiers on single characters: compiled only if all are proper; a range error is reported only if the first improper token is a bracket with a range that ends before it starts, a bound error only if it is an interval with bounds out of order or out of range; too large only near the limit; the bytes are the code of a pattern that means what the tokens mean. |
| RegexVm.ReMatch2 | programs/v1/sed.c:5363-6543 | On every code in any state earlier matches have left it in, every text and every position: terminates, returns what the events of the pattern amount to, and leaves the code in such a state again. |
| RegexGreedy.NoClashExactly | programs/v1/sed.c:6215-6248 | The test of maybe_pop_jump finds no clash although the body can match the following byte if and only if the body is a plain bracket with a 32-byte map that contains the byte; otherwise it only errs on the side of not popping. |
| RegexGreedy.EvGood | programs/v1/sed.c:6136-6378 | In a pattern whose loops are popped rightly and whose failure points are kept, from every place of an alternative and every text position: each success met is a match of the rest, and if the rest matches at all, the first event is its longest match or stack overflow. |
| RegexTheorems.SingleIsLongest | programs/v1/sed.c:5576-5640 | Without alternation a match is found if and only if there is one, and its length is the greatest there is. |
| RegexShadow.MatchIsExact | programs/v1/sed.c:5576-5640 | With alternatives: a match is found if and only if there is one; what is returned is the end of a match; and it is the longest if and only if the pattern is not shadowed on this text. |
| RegexShadow.RestoredIsShadowed | programs/v1/sed.c:5614-5635 | A longer match is given up for a shorter one saved before if and only if a condition on pattern and text holds: an earlier alternative matches, the last one matches longer but not to the end of the text, and no way of matching it leaves a failure point. |
| RegexShadow.PlainLastShadows | programs/v1/sed.c:5614-5635 | If the last alternative has no quantifier, the condition is just that it matches longer than all others and short of the end of the text. |
| RegexPopFree.PopsChangeNothing | programs/v1/sed.c:6179-6293 | Without alternation, the value returned is that of a matcher that never pops a failure point early. |
| RegexLimits.ShortTextsFit | programs/v1/sed.c:4494-4512 | The failure stack cannot overflow with fewer than 2560 bytes of text left (one less with alternatives), whatever the pattern. |
| RegexFine.FineExactly | programs/v1/sed.c:6215-6528 | A condition on the pieces of a pattern and their neighbours holds if and only if no loop of its code is popped wrongly and no failure point is dropped or followed past the end of the code. |
| RegexCorrect.CompiledMatches | programs/v1/sed.c:3264-6543 | End to end: for every fine token sequence, its compiled form, text and position, unless the stack overflows, a match is found if and only if the meaning of the tokens has one, is one of its matches, and is the longest if and only if not shadowed - always, if there is no `\|`. |
| RegexCorrect.ShortFits | programs/v1/sed.c:3133-3136 | In code of at most 32767 bytes every jump over an alternative fits its two bytes. |
| RegexExceptions.PopIsRightExactly | programs/v1/sed.c:6232-6248 | `x*c` and `x\+c` are recognised on every text if and only if x is not a plain bracket with a 32-byte map containing c. |
| RegexExceptions.LineIsRightExactly | programs/v1/sed.c:6215-6248 | `x*$` and `x\+$` are recognised on every text if and only if x is no such bracket with a newline in it, or contains every byte. |
| RegexExceptions.DropIsHarmlessExactly | programs/v1/sed.c:6509-6528 | For every quantifier that leaves a failure point: it, `y\{0\}` and a piece p in a row are recognised on every text if and only if p is not under `*` or `\?`, or the quantifier needs a character no byte is. |
| RegexExceptions.SecondIsTriedExactly | programs/v1/sed.c:6509-6528 | A literal, `\|`, `y\{0\}` and a piece p are recognised on every text if and only if p is not under `*` or `\?`. |
| RegexExceptions.OverflowExactly | programs/v1/sed.c:4501-4512 | On texts of c only, `c*c` ends in stack overflow if and only if there are at least 2560 of them. |
| RegexExceptions.ShorterAlternativeWins | programs/v1/sed.c:5614-5635 | For two literals, the first a proper prefix of the second, where the second occurs: the shorter length is returned unless the longer match ends the text. |
| RegexGroups.InsertionKeepsJump | programs/v1/sed.c:4292-4325 | After an insertion a jump denotes the same instruction as before if and only if it and its target lie on the same side of the place; a jump from before the place to the place itself leads to what has been inserted. |
| RegexGroups.QuantifiedBlock | programs/v1/sed.c:3485-3542 | Whatever block stands last - a group with jumps and markers of its own, a quantified group - the insertions of any quantifier leave it byte for byte inside the quantifier's code. |
| RegexGroups.GroupCompiler.EmitOpen | programs/v1/sed.c:3780-3822 | The group pushed on the compile stack is the new innermost level of the pattern grown so far, numbered one higher. |
| RegexGroups.GroupCompiler.EmitClose | programs/v1/sed.c:3825-3888 | Succeeds if and only if a group is open; its inner count is then stored at the address remembered, and the group is one thing of the level around it, which is restored exactly. |
| RegexGrowth.PatternNumbered | programs/v1/sed.c:3858-3886 | In every pattern groups are numbered in the order they are opened, and each start and stop marker carries the number of groups inside. |
| RegexGrowth.TreeReadsBack | programs/v1/sed.c:3376-4247 | For every balanced pattern: its tree, written out again, is the pattern step by step - anchors, quantifiers, bars and parentheses all there and in order, a quantifier with nothing to repeat as its literal - and every quantifier in it applies to one single thing with the anchors behind it. |
| RegexGroups.CompileGroups | programs/v1/sed.c:3376-4247 | Accepts if and only if `\(` and `\)` balance at every point and at the end; the bytes are then the code of a tree that reads back as exactly the steps of the pattern. |
| RegexFlow.ExplorationIsExact | programs/v1/sed.c:4898-4927 | On every code whose jumps meet a local condition, the redirection at backward jumps loses and adds nothing: the first bytes found, and whether the end is reached, are those of all ways through the code, each loop body taken as often as one likes. |
| RegexFastmap.ReCompileFastmap | programs/v1/sed.c:4733-5003 | Under the local condition (pushes forward; a backward jump only to a push that leads beyond it) the exploration ends, nested loops, redirection and popping of an equal stack top included; can_be_null and the map are exactly what can be explored; failure only if the code needs 2560 remembered addresses. |
| RegexNested.CompiledFlows | programs/v1/sed.c:3485-4247 | The code of every well-formed pattern tree - groups nested and quantified at will - meets the local condition, provided its relative addresses fit and the last alternative of the whole pattern is not empty. |
| RegexGroups.LaidOutFlows | programs/v1/sed.c:3376-4247 | So does what the compiler lays out for a sequence of steps, if it is at most 32767 bytes long and does not end in an empty alternative. |
| RegexFirst.ExplorationIsFirst | programs/v1/sed.c:4787-4982 | For every pattern tree, groups included: the exploration reaches the end if and only if the pattern is nullable by its structure, and finds exactly the bytes of its structural first set. |
| RegexRuns.AcceptingStarts | programs/v1/sed.c:4898-4982 | Every accepting run of the self-modifying code, each choice made either way and counters as the run has left them, starts with a byte of the map, or the map says it can be null. |
| RegexRuns.MatchesStartInFirst | programs/v1/sed.c:5107-5152 | Hence no accepting run of a pattern with groups that is not nullable begins at a byte outside the first set, nor at the end of the text. |
| RegexRuns.PatternFastmap | programs/v1/sed.c:4733-5003 | For every pattern tree the map computed from its bytes is the structural first set, and cannot fail below 7680 bytes of code. |
| RegexPlain.PlainNeedsTwo | programs/v1/sed.c:4930-4956 | Without groups the exploration never remembers more than two addresses, so it cannot fail. |
| RegexMiss.MissIsFailure | programs/v1/sed.c:5123-5152 | Where the text does not go on with a byte of the first set of a pattern that is not nullable, matching fails, and not by overflow. |
| RegexSearch.SearchFindsFirst | programs/v1/sed.c:5120-5191 | Trying all starts in range gives the least one at which the pattern matches, -1 only if there is none, and -2 only if more than 2558 bytes of text follow the start. |
| RegexSearch.CompiledSearch | programs/v1/sed.c:5078-5192 | The same from the tokens: a search in the compiled form of a fine pattern returns the least start in range where the meaning of the tokens matches. |
| RegexSearch.PatternBuffer.ReSearch | programs/v1/sed.c:5078-5192 | Searching forward with the fastmap, the anchored shortcut and the early failure at the end returns what trying every start in range returns, and leaves the buffer fit for the next search. |
| OptionScan.LineKeepsOrder | programs/v1/sed.c:7507-7584 | Elements used up and elements left over are both in the order of the command line, and together they are the command line. |
| OptionWords.LineIsTold | programs/v1/sed.c:7507-7796 | A line put together from words - clusters of option characters with their arguments glued or in the next element, long options with `=` or the next element, unknown and ambiguous ones, a missing last argument, other elements, `--` - is read as these words: each reports itself with its own argument, or as the error it is, in order, and uses up exactly its elements. |
| OptionWords.LineHasWords | programs/v1/sed.c:7507-7796 | Every line whatever is put together from such words, so the law above covers all of them. |
| Getopt.Scanner.Exchange | programs/v1/sed.c:7387-7407 | Three copies through a temporary swap two neighbouring blocks of argv in place, each keeping its order, and the bounds follow. |
| Getopt.Scanner.GetoptInternal | programs/v1/sed.c:7465-7797 | Each call gives the next report of a left-to-right scan of the original line - which `OptionWords.LineIsTold` describes word by word - or EOF exactly when that scan is over, with argv partitioned. |
| Getopt.Scanner.AllOptions | programs/v1/sed.c:7465-7797 | Over a whole run: for the words the original line is put together from, the reports are what these words say, one by one and with their arguments; argv ends as the elements of the words followed by all others, each in order; and optind is where the latter begin. |
| SedBlocks.Compiler.CompileScript | programs/v1/sed.c:445-709 | A script is accepted if and only if its braces balance and every name jumped to is that of a label; it is then laid out in vectors that spell it out again token by token, every block entered from exactly the place its return link leads to, and of labels with the same name the last one is noted. |
| SedBlocks.ExecuteProgram | programs/v1/sed.c:1264-1340 | For every nesting and every sequence of address answers, following the links of flat vectors executes the same commands as structured recursion over the blocks. |
| SedTokens.RunScript | programs/v1/sed.c:445-709 | Compile, then execute: for every accepted script and every sequence of address answers, the commands executed are one by one what the text says - a `{` runs the tokens up to its `}`, one that is not addressed is skipped with its block, an ending command or a jump without a label ends the cycle, other jumps go on at the last label of that name. |
| SedRange.OneAddress | programs/v1/sed.c:1694-1723 | With one address or none, exactly the lines it is about are selected: all, the one numbered, the last, or those the regular expression matches. |
| SedRange.RangeCloses | programs/v1/sed.c:1273-1288 | A range that starts at a line ends, for a regular expression, at the first later line it matches, for a number or `$` at that line, which may be the first one; the next range is looked for behind it. |
| SedRange.RangeStaysOpen | programs/v1/sed.c:1273-1288 | A range whose end is not found takes in all following lines. |
| SedRange.BitIsRange | programs/v1/sed.c:1273-1288 | With the bit clear or set at any line, the one-bit machine selects a later line if and only if it lies in the union of the ranges defined declaratively. |
| SedRange.Command.SelectLines | programs/v1/sed.c:1273-1292 | A command executed once for each line is executed for exactly the lines in range, with `!` for exactly the others. |
| SedRange.SelectNumbered | programs/v1/sed.c:617-620 | For all m and n the address `m,n` selects exactly the lines m to the greater of m and n, none if m is less than 1. |
| SedSubstitute.CompileFlags | programs/v1/sed.c:781-840 | Options are accepted if and only if each is acceptable after those before it; the bits and the number are then those of the options, `g` overrides a number wherever it stands, and both bits are never set; otherwise the error is that of the first offending option: a second `p`, a second `g`, a second number, or an unknown character. |
| SedSubstitute.AllAcceptable | programs/v1/sed.c:791-837 | As a whole, options are acceptable if and only if all are known, `p` and `g` stand there at most once, and of any two numbers the second comes after a `g`. |
| SedSubstitute.DecimalValue | programs/v1/sed.c:822-829 | Every number written in decimal, with zeros in front or without, is read as that number. |
| SedSubstitute.EscapeMeans | programs/v1/sed.c:1585-1603 | `\0` in a replacement is the match, `\1` to `\9` what the group of that number matched, nothing if it took no part; a backslash before another character is that character. |
| SedSubstitute.ExpandReplacement | programs/v1/sed.c:1576-1606 | Copying the replacement in stretches gives what expanding it character by character gives. |
| SedSubstitute.Substitute | programs/v1/sed.c:1536-1632 | For every search that stays within the line, and every flags: the loop ends, and the new line is the old one with exactly the picked matches replaced and all text between kept. |
| SedSubstitute.OneIsReplaced | programs/v1/sed.c:1562-1618 | Without `g` exactly one match is replaced, the first or the numbered one, and the line stays the same if there is no such match - number 0 included. |
| SedSubstitute.AllReplaced | programs/v1/sed.c:1551-1623 | With `g` the new line is the text between the matches, unchanged, and the replacement for every match, in turn. |
| SedSubstitute.SearchedInTurn | programs/v1/sed.c:1551-1617 | The next search begins at the end of a match that is not empty and one character behind an empty one, and the last search fails or would begin behind the line. |
| SedSubstitute.RebuiltIsIdentity | programs/v1/sed.c:1551-1623 | With the replacement `&`, under all flags, or with nothing picked, the line is unchanged, empty matches included. |
| HashTable.ProbingOrder | hash/hash.c:17-36 | Probing begins at the remainder of the key by the size and goes on cell by cell, from the last back to the first. |
| HashTable.NullMeansAbsent | hash/hash.c:21-39 | In a sound table, a NULL met while probing for a key means that the key is in no cell at all. |
| HashTable.OthersStayFindable | hash/hash.c:62-87 | Deleting under one key leaves every other key findable in the same cell, across the tombstone. |
| HashTable.Table.Search | hash/hash.c:21-39 | Terminates while a NULL is left; finds nothing if and only if no entry has the key, otherwise the first entry with the key in probing order. |
| HashTable.Table.Insert | hash/hash.c:41-60 | One more entry in the multiset of entries, in the first NULL or deleted cell; the table stays sound. |
| HashTable.Table.Delete | hash/hash.c:62-87 | Exactly the entry search would return leaves the multiset; nothing changes if and only if there is none. |
| Mutators.Expand | lib/Mutators/MutatorsFactory.cpp:72-81 | For every acyclic mapping the recursion ends, with exactly the names reachable from the groups that are no groups themselves. |
| Mutators.ExpansionIsIdempotent | lib/Mutators/MutatorsFactory.cpp:72-81 | Expanding an expansion gives it back. |
| Mutators.LessIsDictionary | lib/Mutators/MutatorsFactory.cpp:269-271 | The order of the names: a proper prefix first, otherwise by the first character that differs. |
| Mutators.Factory.Choose | lib/Mutators/MutatorsFactory.cpp:244-287 | Chosen, in strictly ascending order, are exactly the known names of the expansion that are not ignored; unknown names are exactly those warned about; what was not chosen stays in the factory. |
| TaskBatches.Batches | lib/Parallelization/TaskExecutor.cpp:7-35 | The batches add up to all items; each has the rounded-down share, the first n mod m one more. |
| RoundRobin.TurnConserves | programs/round_robin/round_robin.c:29-62 | At every turn and for arbitrary arrivals, time spent and work left add up to the work there is, and x counts the unfinished. |
| RoundRobin.Schedule | programs/round_robin/round_robin.c:29-62 | If every process has arrived when those before it could be finished, the loop ends with one line for each process, whatever the arrivals: turnaround plus arrival is the clock at the turn in which the process finished, that clock is the sum of the times all processes have had by then, and wait is turnaround less burst; with all arrivals 0 that clock is the closed form (every process up to it served r quanta, every later one r - 1). |
| RoundRobin.NobodyEarly | programs/round_robin/round_robin.c:50-61 | At every turn, no process but the first is at hand or has been served before it has arrived. |
| RoundRobin.GapNeverEnds | programs/round_robin/round_robin.c:50-61 | If not, no number of turns ends the loop. |

## Findings

Where the code departs from what its documentation promises. Each condition is an if-and-only-if proved in
the member named.

| source | departs on | exactly when |
|---|---|---|
| programs/v1/sed.c:6237 | `[a\377]*a` does not match the text `a`: eight times a map length of 32 is truncated to 0 by the cast, the loop is popped, and no `a` is given back. | `RegexExceptions.PopIsRightExactly`, `LineIsRightExactly`, `RegexGreedy.NoClashExactly`: the body of a `*` or `\+` is a plain bracket with a member of 248 or more that contains the byte that follows (before `$`, a newline, but not every byte). |
| programs/v1/sed.c:6509-6528 | `a*b\{0\}c*` does not match the empty text: the jump over `b` is taken for the end of a loop, and the failure point that resumes there is dropped. Likewise `a\|b\{0\}c*`. | `RegexExceptions.DropIsHarmlessExactly`, `SecondIsTriedExactly`: a failure point resumes at `\{0\}` with `*` or `\?` behind it. |
| programs/v1/sed.c:6503-6518 | `a*b\{0\}` has the byte behind the compiled pattern looked at. | `RegexFine.FineExactly`: a failure point resumes at a `\{0\}` that ends the pattern (`Grounded`). |
| programs/v1/sed.c:5614-5635 | `a\|ab` on the text `abc` gives length 1: with no failure point left, the match saved before is restored without a comparison with the one just found. | `RegexShadow.RestoredIsShadowed`, `MatchIsExact`; for two literals `RegexExceptions.ShorterAlternativeWins`. |
| programs/v1/sed.c:4501-4512 | `c*c` on 2560 or more `c` gives -2. | `RegexExceptions.OverflowExactly`; never on shorter texts (`RegexLimits.ShortTextsFit`). |
| programs/v1/sed.c:445-453 | A jump without a name ends the cycle - unless the script has a label without a name (`:` alone), which it then jumps to: the lists are compared name by name, empty or not. | `SedTokens.RunScript`: the empty name is that of some label. |
| programs/round_robin/round_robin.c:50-61 | Two processes with burst times 1 that arrive at 0 and 5: nobody waits for the second one to arrive, and the loop never ends. | `RoundRobin.Schedule`, `GapNeverEnds`: some process arrives later than the sum of the burst times before it. |

A condition on the whole pattern is sufficient in general (`RegexCorrect.CompiledMatches` asks for `Fine`) and
exact for the shapes above: a piece that can never be reached on any text may break the condition without a
wrong result.

## Left out

- RegexTheorems.SingleIsLongest: patterns without groups and results other than stack overflow; the item-level condition `Sound` excludes the patterns listed under Findings.
- RegexShadow.MatchIsExact: the same; groups and back-references are outside the language it speaks of.
- RegexPopFree.PopsChangeNothing: for one alternative; with several, `RegexShadow.MatchIsExact` says which positions match and which end is returned.
- RegexVm.ReMatch2: instructions for groups, back-references, words and `push_dummy_failure` are not executed; without groups there are no registers to save, so each failure point takes four slots; a pattern in which a failure point resumes at a final `\{0\}` is excluded because the code reads past the end of its buffer.
- RegexCompile.RegexCompile: it reads tokens, not characters; a quantifier on an anchor, a second quantifier after an interval and groups are in `RegexGroups.CompileGroups` only; when the space runs out, nothing is said about errors in the tokens that follow.
- RegexGroups.CompileGroups: at most 255 groups (beyond that the source emits no markers); literal runs are given as one step, and the buffer grows without a limit.
- RegexNested.CompiledFlows: an empty last alternative of the whole pattern is excluded, because the exploration then reads the byte behind the pattern.
- RegexRuns.MatchesStartInFirst: a run may resume any failure point, so it covers every order of choices but says nothing about which one is taken first; `.` counts as a possible start at a NUL byte, as in the source.
- RegexRuns.PatternFastmap: above 7680 bytes of code the exploration may fail for want of stack.
- RegexSearch.PatternBuffer.ReSearch: one string, forward, patterns without groups, no translate table.
- RegexSearch.SearchFindsFirst: for `Sound` patterns only, as `RegexShadow.MatchIsExact`.
- RegexBracket.FillBitMap: members come as ranges; character classes such as `[:alpha:]` depend on the locale.
- Getopt.Scanner.GetoptInternal: option strings that start with `+` or `-`, `long_only`, `optopt`, the flag variables of long options and the messages.
- SedBlocks.Compiler.CompileScript: one script, read as tokens; its only errors are braces that do not balance and jumps without their label.
- SedTokens.RunScript: one cycle; jumps to labels of a sibling or inner block are excluded, as for `SedBlocks.ExecuteProgram`.
- SedBlocks.ExecuteProgram: `t` is a branch like `b`, its flag being one of the answers; `D` does not restart; labels lie in the same block or in the program itself, because from a sibling or inner block the source returns through the links of the wrong block; whether an address matches is an answer given from outside.
- SedRange.SelectNumbered: lines are numbered from 1 and the command is met once for each.
- SedRange.Command.SelectLines: a command skipped by a branch on some lines is not covered; a number as second address after a regular expression is treated as the source does, without a promise.
- SedSubstitute.CompileFlags: numbers do not overflow, and writing to the file of `w` is not part of this model.
- SedSubstitute.Substitute: the search is an oracle that stays within the line; lines end in a newline.
- HashTable.Table.Search: a table without a NULL cell, on which the source does not stop for an absent key, and negative keys; likewise Delete.
- HashTable.Table.Insert: a table with neither a NULL nor a deleted cell, on which the source does not stop.
- Mutators.Expand: cyclic mappings, on which the source does not stop.
- TaskBatches.Batches: counts that do not fit `int`.
- RoundRobin.Schedule: the averages printed at the end, and counts that do not fit `int`.
- Back-references, register contents, `group_match_null_string_p` and the rest of the matcher's group bookkeeping: sed's own results depend on them only for `\1` to `\9`.
- The word operators: they index a table by a signed character.
- Translate tables, the split into two strings, backward search and the Emacs opcodes: sed does not use them.
- Lexing of patterns and scripts, input and output, the remaining commands of sed, messages and exits.
- Mull's drivers, reporters, compiler plumbing and the trivial sample programs: they would only add easy members.
