# c-secure-build: a verified model

This project models, in Dafny, the parts of c-secure-build that carry algorithmic claims, and proves
those claims for every input and every run.

- **Samplers** (`Sampling`, `SamplerLaws`, `SamplerRotation`, `SamplerBounds`, `SamplerOrder`,
  `Samplers`, `SamplerLimits`): the two
  capped round-robin draws of the evaluation set. One specification (`Selection`) covers both: the
  draw with a family cap is v2, the draw without one is v1. The two methods are the sources' loops.
- **Marker scan** (`MarkerScan`): the backward scan for the comment that governs a line, against
  forward running sums, against a stack of blocks, and against brace-by-brace nesting.
- **Hardened shell** (`CString`, `Tokenizer`, `Decimal`, `Integers`, `ShellSession`, `ShellLaws`,
  `HardenedShell`): ring history with owned heap strings, in-place tokenization, checked integers and
  the read loop, refined to a shell that only keeps the list of lines; `ShellLaws` says what that
  shell does. `HISTORY_SLOTS`, the size of
  `last_command` and `MAX_ARGS` are any numbers from 1 up. A heap block is known by its allocation
  number and is either live or freed with the bytes it held; freeing needs a live block.
- **Scrubbing** (`Rewriting`, `Renaming`, `Scrub`, `PromptLines`): each text pass is the list of
  stretches it keeps or replaces, so that a kept character can be followed through the passes.
- **Evaluation log** (`EvalLog`): invocations that may stop between any two records.
- **Arithmetic and grammar** (`Wilson`, `CvssRoundup`, `CvssVector`, `CvssScore`, `CvssLaws`): the
  score interval in exact reals, rounding, and the vector grammar and base score of the CVSS v3.1
  specification (section 6, section 7.1 and appendix A).

Names that the samplers only compare and sort are numbered by their rank in sorted order; the seeded
shuffle is any function that permutes each group; the caps are parameters. The model behind triage is
any list of replies, and a list that runs out is a process that is stopped. `math.sqrt` is its defining
property. What the label patterns match is any predicate. `strtok_r` follows POSIX.1-2008 and `strtol`
section 7.22.1.4 of C17, both as loops.

`dafny verify dfyconfig.toml` checks the project.

## Where the code and its documentation differ

- `marker_above` says it skips sibling blocks. It counts braces net per line, so on a line like
  `} else {` it stays in the block that was left. `NetIsExactWhenNotCrossing` gives the exact
  condition on a line, and `CrossingLineMisleads` builds, for every line that breaks it, a file on
  which the answer is a marker of a block already left.
- Both `select` functions speak of a maximum share per rule. The cap is a share of the size asked for,
  so a short draw can exceed it: `OneRuleIsTheWholeDraw`. For v1 `FifthExactlyWhen` gives the exact
  condition on the pool. For v2 the fifth holds once the draw has five times the cap
  (`LargeDrawMeetsFifth`), so whenever a quota of five or more is met, and for every shuffle when the
  caps allow ten times the cap (`AmplePoolMeetsFifth`). It fails for every draw of one to four items,
  so for every quota below five, where v2 raises the cap to 1 (`FewerThanFiveBreakFifth`). In between
  no condition on the pool decides it: two shuffles of one pool come out differently
  (`FifthDependsOnTheShuffle`).
- `--max-cost-usd` says the run stops once the recorded cost reaches the cap. An invocation that
  starts at or over the cap still writes one record (`OverCapWritesOne`), so the log grows by one per
  restart at most (`OverCapGrowsByRestarts`).
- The scrub is said to keep the line count, and `start_line` of a v2 item to name the line flagged.
  Both the record and `numbered` count lines as `splitlines` does, but the passes put back newlines
  only. The flagged line carries the recorded number in the prompt exactly when every other separator
  above it (a form feed, a vertical tab, ...) gets there too (`RecordedLineExactlyWhen`), that is, when
  none of them stands in something to hide; otherwise the recorded number is too high
  (`SeparatorsReachUnlessHidden`). A form feed inside a comment above the function is enough
  (`CommentedFormFeedMisnumbers`), also above a function with a label in its name
  (`LabelledFunctionIsMisnumbered`), and a file with newlines alone is always right
  (`NewlineFilesShowTheRecordedLine`).

## Model

| member | source | states |
|---|---|---|
| Samplers.SelectV1 | llm-eval/harness/build_items.py:200-227 | The draw is the selection from the shuffled groups of the items in pool order; it is part of the pool, within the size and the rule cap, fair across CWEs, rotating over rules and going round the CWEs in order; what left a group was picked from the last item back; and its size is exactly min(total, sum over rules of min(cap, supply)) for every shuffle |
| Samplers.SelectV2 | llm-eval/harness/build_v2.py:150-184 | The same under both caps, from the shuffled groups of the pool sorted by key; discards are of full families only; when it falls short of the quota every item left out has a full rule or a full family, and no selection that obeys the caps has more than twice as many items |
| Samplers.DrawV1 | llm-eval/harness/build_items.py:211-227 | The loops compute the specified selection |
| Samplers.DrawV2 | llm-eval/harness/build_v2.py:161-184 | The loops compute the specified selection |
| Samplers.VisitV2 | llm-eval/harness/build_v2.py:170-181 | The inner loop is a visit: discards until an item with room in its family is picked or no rule is left |
| SamplerLaws.TurnKeepsSound | llm-eval/harness/build_v2.py:172-180 | A turn loses nothing, keeps both counters equal to the counts of what was picked, passes neither cap, and discards only items of a full family |
| Sampling.Grouped | llm-eval/harness/build_v2.py:153-159 | Each group is the shuffle of the items of its CWE and rule in the order given, and the groups hold exactly the pool |
| Sampling.OnlyAt | llm-eval/harness/build_v2.py:155-156 | Those items in their order: each stands behind as many as come before it in the pool, and there are no others |
| SamplerOrder.ByKeySorts | llm-eval/harness/build_v2.py:155 | The sorted pool has the same items with ascending keys, and items of one key in pool order |
| SamplerOrder.SortForgetsOrder | llm-eval/harness/build_v2.py:155 | When no two items share a key, the sorted pool, and so the draw of v2, does not depend on the order of the pool |
| SamplerOrder.RoundsKeepEnd | llm-eval/harness/build_v2.py:173-178 | Over a whole draw a group loses items from its end only, and they are picked or discarded in that order |
| SamplerOrder.RoundsGoRound | llm-eval/harness/build_v2.py:165-184 | The picks come in rounds: all first picks of a CWE in order of CWE, then all second picks, and so on, over the whole draw |
| SamplerOrder.RulesRise | llm-eval/harness/build_v2.py:169 | The rules a CWE can draw from are listed in ascending order |
| Samplers.SelectionFinishes | llm-eval/harness/build_v2.py:165-184 | The specified selection, from any shuffled groups, has all the promises of a finished draw |
| SamplerLaws.RoundsKeepSound | llm-eval/harness/build_v2.py:161-184 | Over a whole draw nothing is lost, both counters equal the counts of what was picked, neither cap is passed, and only items of full families are discarded |
| SamplerLaws.ShortDrawIsShut | llm-eval/harness/build_v2.py:165-184 | A draw below its quota has left every CWE with no rule to draw from |
| SamplerLaws.TurnKeepsShut | llm-eval/harness/build_v2.py:170-181 | A CWE that cannot be drawn from stays so after any turn |
| SamplerRotation.RoundsAreFair | llm-eval/harness/build_v2.py:165-184 | If a CWE can still be drawn from at the end, no CWE has more than one pick more |
| SamplerRotation.RoundsKeepStep | llm-eval/harness/build_items.py:216-224 | While a CWE has lost no rule, its turns have been dealt round and round over its rules |
| SamplerRotation.InStepRotates | llm-eval/harness/build_items.py:217-223 | So two rules of a CWE that has lost none differ by at most one turn |
| SamplerBounds.AtLeastHalfOfAnyRival | llm-eval/harness/build_v2.py:150-184 | A maximal draw has at least half the items of any selection under the same caps, and as many when only rules are capped |
| SamplerLimits.HalfIsReached | llm-eval/harness/build_v2.py:161-184 | The factor of two is attained with two items per family: on a pool of six the selection picks two items where four obey the caps |
| SamplerBounds.ExactSize | llm-eval/harness/build_items.py:203-227 | With rules alone capped, a maximal draw has exactly min(quota, capacity) items |
| SamplerBounds.FifthExactlyWhen | llm-eval/harness/build_items.py:200-203 | In v1 no rule exceeds a fifth of the draw exactly when no rule's capped supply exceeds a fifth of what the pool can give |
| SamplerBounds.LargeDrawMeetsFifth | llm-eval/harness/build_v2.py:150-160 | In either sampler a draw of at least five times the cap gives no rule more than a fifth |
| SamplerBounds.AmplePoolMeetsFifth | llm-eval/harness/build_v2.py:150-184 | When some selection under the caps has ten times the cap, every draw meets the fifth, short or not |
| SamplerBounds.FewerThanFiveBreakFifth | llm-eval/harness/build_v2.py:160 | A draw of one to four items never meets it, so v2 never does for a quota below five |
| SamplerLimits.FifthDependsOnTheShuffle | llm-eval/harness/build_v2.py:156-184 | One pool, a quota of five, two per family: one shuffle's draw meets the fifth and another's does not |
| SamplerBounds.OneRuleIsTheWholeDraw | llm-eval/harness/build_items.py:200-203 | A pool of one rule yields a draw made of that rule alone |
| MarkerScan.MarkerAbove | llm-eval/harness/build_v2.py:88-100 | The loop returns the last standalone marker of the range whose block is still open at the line, or none; equally, the topmost marker of the forward stack |
| MarkerScan.DepthIsLargestSum | llm-eval/harness/build_v2.py:93-99 | The clamped backward depth is the largest forward partial sum of closes minus opens |
| MarkerScan.ScanFindsLastGoverning | llm-eval/harness/build_v2.py:94-100 | From any line on, the scan gives the last marker above it with no positive running sum below it |
| MarkerScan.ScanIsTopOfStack | llm-eval/harness/build_v2.py:89-99 | Scanning up at depth d answers what a forward stack of blocks answers after leaving d blocks |
| MarkerScan.ScanIsTrueWithoutCrossing | llm-eval/harness/build_v2.py:89-99 | Without crossing lines the scan agrees with nesting followed brace by brace |
| MarkerScan.WalkIsShape | llm-eval/harness/build_v2.py:99 | Following a line's braces one by one closes and then opens what the line's reduced shape says |
| MarkerScan.NetIsExactWhenNotCrossing | llm-eval/harness/build_v2.py:99 | Counting net is exact for a line, whatever blocks are open, exactly when the line does not leave one block and enter another |
| MarkerScan.CrossingLineMisleads | llm-eval/harness/build_v2.py:89-99 | For every other line there is a range, which closes no block it has not opened, on which the scan answers with a marker of a block already left |
| HardenedShell.Shell.constructor | src/hardened_shell.c:14-26 | The static state and the zeroed flags are the image of no lines at all |
| HardenedShell.Shell.RecordHistory | src/hardened_shell.c:36-51 | Recording keeps the ring, the flags, the heap and last_command the image of the list of lines, one line longer |
| HardenedShell.Shell.StoreLine | src/hardened_shell.c:41-50 | The block of the reused slot is wiped and freed, the new line owned by the slot, and every other block untouched |
| HardenedShell.Shell.KeepPrevious | src/hardened_shell.c:37-39 | last_command becomes the first size-1 characters of the line before the new one, or stays empty |
| HardenedShell.Shell.CopyTruncated | src/hardened_shell.c:39 | The bounded copy leaves a terminated prefix |
| HardenedShell.Shell.WipeAndFree | src/hardened_shell.c:28-33 | A live string is freed with every byte zero; null does nothing; a freed block cannot be passed |
| HardenedShell.RecordKeepsHeap | src/hardened_shell.c:41-50 | After a record, exactly the blocks of the latest line of each slot are live and all others are freed and zero |
| HardenedShell.RecordKeepsRing | src/hardened_shell.c:41-50 | After a record, each slot points to the latest line of its number and its flag is set exactly when it is filled |
| HardenedShell.SlotReads | src/hardened_shell.c:61-65 | A filled slot points to a live block that reads back as its line |
| HardenedShell.Shell.RecallSlot | src/hardened_shell.c:55-66 | recall prints the latest line of the slot, or says that it is empty or out of range |
| HardenedShell.Shell.DispatchBuiltin | src/hardened_shell.c:132-154 | Each builtin says what the shell with the full list of lines says, and other commands are left alone |
| HardenedShell.Shell.ExecuteCommand | src/hardened_shell.c:98-108 | The vector handed on is the words of the line, and nothing is run for a blank line |
| HardenedShell.Shell.HandleLine | src/hardened_shell.c:188-205 | The whole line is recorded before it is tokenized in place, and the outcome is that of the reference shell |
| HardenedShell.Shell.ReadLine | src/hardened_shell.c:169-183 | The buffer holds the line without its newline and up to the first NUL, in the old buffer or a larger one |
| HardenedShell.Shell.TakeEvent | src/hardened_shell.c:165-206 | One turn of the loop is one event of the reference session |
| HardenedShell.Shell.FreeHistory | src/hardened_shell.c:213-215 | After the cleanup every block ever allocated has been freed with all its bytes zero |
| HardenedShell.Shell.Run | src/hardened_shell.c:156-221 | A whole session prints, executes and returns what the shell with the full list of lines does; afterwards no block is live and the input buffer and last_command are zero |
| ShellSession.LatestIsNewest | src/hardened_shell.c:50 | The line a slot stands for is the newest with its number modulo the number of slots |
| ShellLaws.LineWithoutNewline | src/hardened_shell.c:169-183 | A line is read without its newline, or as it is when the input ends without one |
| ShellLaws.LineEndsAtNul | src/hardened_shell.c:169-183 | What follows a NUL in a line is not seen |
| ShellLaws.HistoryShows | src/hardened_shell.c:36-53 | `history` prints the longest prefix of the line before it that has at most size-1 characters, and nothing but a newline on the first line |
| ShellLaws.RecalledSays | src/hardened_shell.c:55-66 | A slot says the newest line whose number falls on it, that it is empty when there is none, or that it is out of range |
| ShellLaws.RecallAloneIsRecallZero | src/hardened_shell.c:144-151 | `recall` without an argument is `recall 0` |
| ShellLaws.RecallReads | src/hardened_shell.c:144-151 | With an argument it reads the slot the argument denotes when that fits an int, and says that it is no number otherwise; further arguments are not looked at |
| ShellLaws.FirstRecallSaysItself | src/hardened_shell.c:41-66 | The line is recorded before it is performed: a first line `recall` prints itself |
| ShellLaws.OtherCommands | src/hardened_shell.c:132-154 | Only `exit` ends the session, and says nothing; a blank line does nothing; every other first word is executed with its arguments |
| ShellLaws.TooManyAreRefused | src/hardened_shell.c:87-90 | More words than fit beside the null pointer are refused, builtin or not |
| ShellLaws.SessionStops | src/hardened_shell.c:156-221 | A session ends at its first `exit` with status 0 and no farewell, else at the end of the input with status 0 or at a read error with status 1, and with the farewell; what it recorded is the lines typed up to there |
| ShellLaws.StepPastLine | src/hardened_shell.c:165-206 | Any other line is recorded, unless it is empty, and what it prints comes between its prompt and the rest of the session |
| ShellLaws.NothingMoreToRead | src/hardened_shell.c:166-181 | All that is printed when the input ends or fails where a line is asked for |
| Tokenizer.StrtokR | src/hardened_shell.c:85-91 | A call reads the next word off the string, ends it in place, and leaves the rest of the string to later calls |
| Tokenizer.ParseInput | src/hardened_shell.c:82-96 | True exactly when the words fit beside the null pointer, and then reading the mutated buffer at the i-th pointer gives the i-th word |
| Tokenizer.ParsingSteps | src/hardened_shell.c:87-92 | Storing a token and asking for the next keeps every earlier token readable |
| CString.WordsOfLayout | src/hardened_shell.c:81-96 | The words of a line are the words it was laid out from, whatever the blanks around them |
| CString.EveryLineIsALayout | src/hardened_shell.c:81-96 | Every line is laid out from its words with blank gaps between them |
| CString.BlanksAre | src/hardened_shell.c:85-91 | The separators of words are the tab and the space |
| Integers.Strtol | src/hardened_shell.c:70-71 | The loop reads the number, clamps it to long, and flags a range error exactly when clamping changed it, for digit strings of any length |
| Integers.ParseInt | src/hardened_shell.c:68-79 | Accepts exactly white space, sign and digits whose value fits an int, and otherwise leaves the output alone |
| Integers.WholeExactlyWhenDenotes | src/hardened_shell.c:71-75 | What strtol consumes to the end is the documented grammar, with one value |
| Integers.ReadsBackEveryInt | src/hardened_shell.c:68-79 | Parsing inverts decimal printing of every int and refuses every other printed integer |
| Integers.ReadsExactlyInts | src/hardened_shell.c:73-77 | A printed integer is read exactly when it fits 32 bits |
| Integers.ClampedExactlyBeyond | src/hardened_shell.c:70-75 | What strtol clamps is what does not fit 64 bits |
| Integers.SpacesAre | src/hardened_shell.c:70-71 | White space is the space and the characters from horizontal tab to carriage return |
| Decimal.DigitsInOrder | src/hardened_shell.c:70-71 | The digits stand for 0 to 9 in order |
| Rewriting.SurvivorKeepsLine | llm-eval/harness/run_eval.py:80-96 | A character kept by every pass is unchanged and has as many newlines before it as at the start |
| Rewriting.SurvivesUnlessLost | llm-eval/harness/run_eval.py:80-96 | A character survives exactly when no pass replaces the stretch in which it arrives there |
| Rewriting.FollowLosesOthers | llm-eval/harness/run_eval.py:80-96 | Above a surviving character the other line separators can only get fewer, and stay as many exactly when each of them survives |
| Rewriting.SameLinesThroughout | llm-eval/harness/run_eval.py:81-96 | The passes keep the number of lines |
| Rewriting.OthersAre | llm-eval/harness/run_eval.py:103-105 | The line separators of `splitlines` besides the newline |
| Scrub.PassesAreLinked | llm-eval/harness/run_eval.py:82-96 | The five passes each read what the one before wrote and keep every line number |
| Scrub.LostForAReason | llm-eval/harness/run_eval.py:82-96 | What a pass replaces is a comment or the tail of one, a directive line, a literal that leaks, or a labelled word, and only characters in such a stretch are lost |
| Scrub.ReplacedExactlyWhen | llm-eval/harness/run_eval.py:82-96 | Reading from the left, each pass replaces what it comes to exactly when a comment, a directive line, a leaking literal or a labelled word starts there, and what it writes is given: the newlines of a comment or of a comment tail, nothing for a directive line, the literal with each character of its body an x, the name of the word |
| Scrub.BodyEndExactly | llm-eval/harness/run_eval.py:88-90 | A literal ends at the first quote that no backslash takes, and there is none across a line break |
| Scrub.LostExactlyWhenHidden | llm-eval/harness/run_eval.py:82-96 | A character is lost exactly when it stands in something to hide |
| Scrub.ScrubbedIsLabelFree | llm-eval/harness/run_eval.py:80-96 | No word of the scrubbed text bears a label, when no name handed out does |
| Scrub.CommentsIsPass | llm-eval/harness/run_eval.py:86 | Replacing comments by their newlines keeps line numbers |
| Scrub.StringsIsPass | llm-eval/harness/run_eval.py:88-90 | Masking the bodies of literals keeps line numbers |
| Scrub.StrayCloseIsPass | llm-eval/harness/run_eval.py:82-85 | So does emptying a comment the text opens inside |
| Scrub.PreprocIsPass | llm-eval/harness/run_eval.py:87 | So does blanking preprocessor lines |
| Scrub.Literal | llm-eval/harness/run_eval.py:88-90 | A literal is replaced by one of the same length |
| Scrub.Scrub | llm-eval/harness/run_eval.py:80-100 | The result is the composition of the passes, with the line count of the input and no label word, or none when a label word is left |
| Renaming.Substitute | llm-eval/harness/run_eval.py:91-96 | Replacing words as they are met gives every labelled word its name in one final dictionary |
| Renaming.NamesAreInjective | llm-eval/harness/run_eval.py:91-96 | No two words share a name, for a counter over names and for draws without repeats |
| Renaming.KthWordIsIdK | llm-eval/harness/run_eval.py:93-96 | The k-th distinct label-bearing word becomes id_k |
| Renaming.NamedAtFirst | llm-eval/harness/run_eval.py:91-96 | A labelled word is named at its first appearance, by how many names there were and how many matches came before |
| Renaming.DrawnAtFirst | llm-eval/harness/build_v2.py:123-127 | For prompt_code, which draws at every match, the name is the one drawn at the first match of the word |
| Renaming.IdIs | llm-eval/harness/run_eval.py:94 | The k-th name is id_ and the numeral of k without leading zeros |
| Renaming.WordCharsAre | llm-eval/harness/run_eval.py:91-96 | Words are made of ASCII letters, digits and the underscore |
| Renaming.LabelFreeExactlyWhen | llm-eval/harness/run_eval.py:91-96 | Renaming leaves no labelled word exactly when no name it gave bears a label, for either way of naming |
| Renaming.RenamingIsReversibleExactlyWhen | llm-eval/harness/build_v2.py:123-127 | For either way of naming, the inverse dictionary restores the text exactly when no other word of it was one of the names |
| Renaming.ScrubNamesReversibleExactlyWhen | llm-eval/harness/run_eval.py:91-96 | For scrub, exactly when none of id_1 to id_n was an unlabelled word before |
| Renaming.DrawnNamesReversibleExactlyWhen | llm-eval/harness/build_v2.py:103-127 | For prompt_code, exactly when no unlabelled word was one of the names drawn and given |
| PromptLines.PromptCode | llm-eval/harness/build_v2.py:111-133 | The code is the scrubbed text without its leading blank lines, cut at the cap; every surviving character of the function stands at most on the line that offset names, and on it exactly when every other separator above survives |
| PromptLines.LeadIsBlankLines | llm-eval/harness/build_v2.py:128-130 | What is dropped ends with a newline, and what is left starts with no blank line |
| PromptLines.CutOnlyBeyondCap | llm-eval/harness/build_v2.py:131-132 | Code of up to 24000 characters is sent as it is; of longer code the first 24000 and a note |
| PromptLines.RecordedLineExactlyWhen | llm-eval/harness/build_v2.py:204-251 | From file to prompt: a flagged character that gets there shows in its column of a numbered line, whose number is the recorded one exactly when every separator other than the newline above it gets there too, and smaller otherwise |
| PromptLines.SeparatorsReachUnlessHidden | llm-eval/harness/build_v2.py:115-127 | Those separators all get there exactly when none stands, in either scrub, in a comment, a directive line, a leaking literal or a labelled word |
| PromptLines.NewlineFilesShowTheRecordedLine | llm-eval/harness/build_v2.py:231-251 | In a file with newlines alone it shows in the line that carries the recorded number |
| PromptLines.CommentedFormFeedMisnumbers | llm-eval/harness/build_v2.py:111-133 | Behind a comment that holds a form feed, whatever the function, the patterns and the names drawn: if the first character of the function gets to the prompt, its line is numbered below the recorded one |
| PromptLines.LabelledFunctionIsMisnumbered | llm-eval/harness/build_v2.py:210-251 | It does get there for a function whose name bears a label and whose text has no comment, directive or literal: shown as line 1, recorded as line 2 |
| PromptLines.VisibleIsPastLead | llm-eval/harness/build_v2.py:128-130 | A visible character is never dropped with the leading blank lines |
| PromptLines.PromptNumbered | llm-eval/harness/run_eval.py:127-131 | The code is scrubbed again when the prompt is built, and the number shown follows from the separators lost in both scrubs |
| PromptLines.NoLabelReachesThePrompt | llm-eval/harness/run_eval.py:127-131 | Neither the scrubbed text of an item nor the text in its prompt has a labelled word, when the names given bear none |
| PromptLines.ShownOnItsLine | llm-eval/harness/run_eval.py:103-105 | A character shows in the numbered line with as many lines above it as breaks before it, at its column |
| PromptLines.LinesWithoutBreaks | llm-eval/harness/run_eval.py:103-105 | The numbered lines are the lines of the text, each without the break that ends it |
| EvalLog.CmdRun | llm-eval/harness/run_eval.py:271-309 | Appends to the log; each new record has the id of its item and the cost of its answer, and the run ends for the cap, for a failed request or complete exactly as WorksOut says of the replies; spent is the summed cost of the readable log |
| EvalLog.WorkWorksOut | llm-eval/harness/run_eval.py:293-305 | Told from the replies: one record for each answer, in the order of the items, with its cost; the costs answered reach the cap at the last record or nowhere; the run is complete when every item has its record, and else the next reply is missing or failed |
| EvalLog.WorksOutOneWay | llm-eval/harness/run_eval.py:293-305 | No other records and no other ending do so |
| EvalLog.TodoIs | llm-eval/harness/run_eval.py:290-291 | What is left to do is the items of the source asked for whose ids are not logged, each at its place in the file order |
| EvalLog.DoneIs | llm-eval/harness/run_eval.py:276-282 | An id is done exactly when a readable record has it |
| EvalLog.SpentIs | llm-eval/harness/run_eval.py:283-289 | The cost of a log is the sum over its lines, with nothing for a line without one |
| EvalLog.ReadLog | llm-eval/harness/run_eval.py:276-289 | Reading the file back gives the ids of its readable records and the sum of their costs |
| EvalLog.Resumption | llm-eval/harness/run_eval.py:276-309 | Over any stops and restarts on one source the logged ids are a prefix of the filtered list without repeats, and the whole list once a run completes |
| EvalLog.DistinctExactlyWhen | llm-eval/harness/run_eval.py:290-291 | Every history is free of repeats exactly when the filtered ids are distinct |
| EvalLog.NeverLoggedTwice | llm-eval/harness/run_eval.py:276-309 | With distinct ids nothing is logged twice, whatever source each restart asks for and whatever the file held |
| EvalLog.StopsAtFirstOverCap | llm-eval/harness/run_eval.py:302-305 | An invocation stops for the cap at the first record whose total reaches it and not before |
| EvalLog.OverCapWritesOne | llm-eval/harness/run_eval.py:283-305 | One that starts at or over the cap writes a record exactly when there is an item and it is answered, and never two |
| EvalLog.OverCapGrowsByRestarts | llm-eval/harness/run_eval.py:283-305 | A log over the cap grows by at most one record per restart |
| Wilson.BetweenExactlyWhenAccepted | llm-eval/harness/stats.py:31-34 | x lies between centre - half and centre + half exactly when n(x - k/n)^2 <= z^2 x(1 - x) |
| Wilson.IntervalIsScoreTest | llm-eval/harness/stats.py:27-35 | The interval holds k/n, lies in [0, 1] so both clamps do nothing, and is exactly the set of shares the score test accepts |
| Wilson.Interval | llm-eval/harness/stats.py:29-30 | There is no interval exactly for an empty sample |
| Wilson.Mirror | llm-eval/harness/stats.py:27-35 | Swapping hits and misses mirrors the interval |
| Wilson.EndsRise | llm-eval/harness/stats.py:27-35 | Both ends strictly rise with k |
| Wilson.RadicandNonNeg | llm-eval/harness/stats.py:33 | The square root is taken of a non-negative number whenever k <= n |
| CvssRoundup.RoundupIsLeastTenth | scripts/cvss.py:27-32 | The result is the least multiple of a tenth not below the value rounded to five decimals, in both branches |
| CvssRoundup.RoundupIs | scripts/cvss.py:27-32 | Which values give which tenth, exactly |
| CvssRoundup.Round | scripts/cvss.py:29 | The nearest integer, and of two the even one |
| CvssRoundup.RoundupMonotone | scripts/cvss.py:27-32 | The function is monotone |
| CvssRoundup.NoiseDoesNotAddATenth | scripts/cvss.py:28 | A float error below half the fifth decimal does not move a score off its tenth |
| CvssRoundup.RoundupIdempotent | scripts/cvss.py:27-32 | The function is idempotent |
| CvssRoundup.RoundupIsClose | scripts/cvss.py:27-32 | How far the result can be from the value |
| CvssVector.Parse | scripts/cvss.py:35-51 | The loop accepts a string exactly when it prints a full set of metrics in some order, and then returns that set; its errors are those of the source, in the same order |
| CvssVector.ErrorIsBlamed | scripts/cvss.py:35-51 | The error is about the first part that is wrong, and says why: no known metric, a name given before, a value not tabled; when every part is right it lists what is missing in table order; without the prefix it says that and nothing else |
| CvssVector.AcceptsExactlyPrinted | scripts/cvss.py:35-51 | The accepted strings are exactly the prefix and the eight NAME:VALUE parts, each name once with a tabled value |
| CvssVector.PrintedParses | scripts/cvss.py:35-51 | Printing the metrics in any order and parsing gives them back |
| CvssVector.SplitOfJoin | scripts/cvss.py:39 | Splitting undoes joining for parts without the separator |
| CvssVector.JoinOfSplit | scripts/cvss.py:39 | Joining undoes splitting for every text |
| CvssScore.BaseScore | scripts/cvss.py:54-74 | The score depends on the metrics only, not on their order, and is a tenth from 0 to 10; an unreadable vector gives its error |
| CvssLaws.ScoreFollowsSeverity | scripts/cvss.py:54-74 | Exchanging one metric other than S for a more severe value never lowers the score, for all vectors |
| CvssLaws.ZeroExactlyWithoutImpact | scripts/cvss.py:66-67 | The score is 0 exactly when C, I and A are all N |
| CvssLaws.PublishedUnchanged | tests/test_cvss.py:14-27 | The published scores of the vectors of unchanged scope |
| CvssLaws.PublishedChanged | tests/test_cvss.py:14-27 | And of those of changed scope |
| CvssLaws.OneStepFromTheWorst | scripts/cvss.py:13-24 | The scores that show each weight of the exploitability |
| CvssLaws.VectorReads | scripts/cvss.py:35-51 | A vector written out in table order parses to its eight metrics |

## Left out

- `function_spans`, `enclosing` and `code_context`: a line scan with two states whose facts follow from its body.
- `classify` and the drop counters of `cmd_items`: finite case tables.
- `fork`, `execvp`, `waitpid` and terminal output: a command is one opaque step carrying its argument vector.
- Allocation failures in the shell: they end the process.
- Buffers that `getline` releases while growing: they are not wiped by the source either; the input buffer held at the end is.
- `slot_used` as a heap block: it is a fixed array here, so its single allocation and release are not stated.
- The literal regular expressions for labels, leaks and preprocessor lines: any predicates; the comment, literal and word scanners are written out for ASCII word characters.
- `neutral_name`: any supply of words that never repeats, since its loop ends only with probability one.
- Torn writes to the log, and log lines that are JSON but not objects.
- A carriage return followed by a newline as one separator: a file is read in text mode, which leaves no carriage return.
- The width to which `numbered` pads a line number, and the analyzers' own line numbers.
- HTTP, JSON and SARIF decoding, reports, training and shell scripts.
- Floating-point rounding: `wilson`, `roundup` and the scores are over exact reals, and `int(total * 0.20)` is a parameter.
- Semantic preservation by `scrub`: its comment pass does not know about string literals, so only lines and names are meant.
- Severity bands of the CVSS score: a finite table.
