# Verification of simlib

simlib is a C++ utility library together with an engine that judges solutions of programming problems.
This project models its algorithms and protocols in Dafny and proves what they promise, for every input,
every reachable state or every interleaving. `dafny verify dfyconfig.toml` checks all of it.

Each file is one module:

- `AhoCorasick`: the pattern automaton. Sorted son arrays form a trie, a breadth-first pass links every node
  to the longest proper suffix in the trie, and the scan reports the longest pattern ending at each position.
- `InteractiveJudge`: the handshake between the solution supervisor and the checker supervisor, as a state
  machine over two program counters and four promises that their readers re-arm.
- `BoundedQueue`, `JobProcessor`: the semaphore protocol of the queue for any number of threads, and the
  worker pool on top of it.
- `EventQueue`: timed and file handlers, the poll array that is compacted in place while callbacks edit it,
  and the event loop.
- `Wrappers`, `Unsigned`: optional values and 64-bit sums, shared by the others.
- `Ctype`, `ConfigValue`, `ConfigFile`, `ConfigLaws`: the reader of configuration files, the escapers, and the
  laws that tie them together.
- `ConfigGrammar`: the grammar of configuration files as trees. A text loads exactly when it is the text of a
  tree, and what is loaded is the meaning of the tree.
- `ConfigPrint`: printed lines, as a dumped Simfile consists of, load as what was printed.
- `ProcessTests`, `AutoScoring`: judging with early skipping, and distributing 100 points over test groups.
- `Kmp`, `VersionCompare`, `Lexicographic`, `NumberText`: substring search, the version order, and integers
  as text.
- `Path`, `SimfilePaths`, `PackageContents`: resolving paths, the solutions of a Simfile, and the ordered set of
  package entries.
- `Keccak`: the sponge loop against the construction of section 4 of FIPS 202, with the padding of its
  section 5.1.

Code that changes state in place is a class or a method over arrays with loop invariants; each such method
is tied to a specification whose own properties are proved. Promises, semaphores and mutexes are
primitives. The clock, the results of `ppoll` and what callbacks do are arbitrary inputs. `double` is modelled
by `real`. The permutation of Keccak is an arbitrary function on 200 bytes.

Some promises turn out to hold only under a condition. For each of these there is an if-and-only-if and a
concrete input on which the promise fails:

- A complete run of the interactive judge ends in a deadlock exactly when `sandbox.run` of the solution returned
  without having called its after-fork callback and the checker did not throw on that test
  (`InteractiveJudge.CompleteRunStuckIff`, input `SkippedCallbackDeadlocks`).
- `add_file_handler` keeps the event queue consistent exactly for non-negative descriptors
  (`EventQueue.EventQueue.AddFileHandler`, input `NegativeDescriptorBreaks`).
- An escaped string reads back exactly when it has no NUL byte (`ConfigValue.RoundTrip`, input
  `NulDoesNotComeBack`), and so do the solutions of a Simfile (`SimfilePaths.SolutionsAreFixed`).
- Automatic scoring in a Simfile comes to a group without anything left to divide by exactly when group zero is
  there under another spelling than "0" (`AutoScoring.AutoScore`, input `OddZeroHappens`). The assertion at
  `src/sim/simfile.cc:397` fails there, or without assertions the division after it.
- Scoring in `Conver` conserves the total exactly when no group is scored automatically, or the explicit scores
  stay below 2 to the 64, or their wrapped sum is at least 100 (`AutoScoring.ConverConserves`, input
  `ConverOverflows`).
- `path_absolute` returns a canonical path exactly when the part of the directory that survives is canonical
  (`Path.CanonicalIff`, input `NotCanonicalInDottedDirectory`); the comment in `include/simlib/path.hh:7-9`
  promises it always.
- `rfind` returns the last occurrence exactly when the pattern is not empty or the text is: the empty pattern is
  found at 0, while its last occurrence is at the end (`Kmp.Rfind`; any non-empty text with the empty pattern is
  an input).
- The comment at `include/simlib/string_compare.hh:79` puts a digit below any non-digit and below the empty
  string. Where no digits stand before it, the code puts the digit below exactly the characters above '9'; the
  end of the string and the characters below '0' come first (`VersionCompare.DigitIsLowerIff`, inputs
  `DigitIsNotAlwaysLower`). Where digits stand before it, the digit makes a longer number
  (`VersionCompare.DigitLengthensRun`).

## Model

| member | source | states |
|---|---|---|
| AhoCorasick.FindSon | src/aho_corasick.cc:5-24 | binary search over the sorted sons finds the son for a character, 0 when there is none |
| AhoCorasick.ChildSpells | src/aho_corasick.cc:26-48 | a node has a son for c just when its word followed by c is in the trie, and the son spells that word |
| AhoCorasick.NewSonKeepsTrie | src/aho_corasick.cc:26-48 | inserting a son at its sorted place keeps the trie well formed: distinct words, sorted sons, a parent for every node |
| AhoCorasick.AhoCorasick.constructor | include/simlib/aho_corasick.hh:28 | a new automaton has the root only and no patterns |
| AhoCorasick.AhoCorasick.Son | src/aho_corasick.cc:26-48 | returns the node for the longer word, creating it only when missing and changing no id and no fail edge |
| AhoCorasick.AhoCorasick.AddPattern | src/aho_corasick.cc:50-56 | the map from patterns to ids gains exactly this pattern (an id of 0 removes it) |
| AhoCorasick.PatternsAfterSet | src/aho_corasick.cc:50-56 | setting one id changes the pattern map at that word only |
| AhoCorasick.AhoCorasick.FindNode | src/aho_corasick.cc:58-68 | the node that spells the string, 0 when it is not in the trie |
| AhoCorasick.FailStep | src/aho_corasick.cc:82-84 | following a fail edge shortens the word strictly and skips no longer extension, so the inner loop ends |
| AhoCorasick.WalkEnds | src/aho_corasick.cc:82-85 | where the walk over fail edges stops, the son is the longest trie word that is a suffix of the text with c |
| AhoCorasick.Advance | src/aho_corasick.cc:80-85 | the fail walk returns the longest suffix of the longer text; its steps are paid for by lost depth |
| AhoCorasick.UnseenIsBelowQueue | src/aho_corasick.cc:70-90 | breadth-first order: a node not yet seen is strictly deeper than some queued node |
| AhoCorasick.LinkStep | src/aho_corasick.cc:79-88 | linking one son keeps the breadth-first invariant, so every shallower fail edge is already right |
| AhoCorasick.AllLinked | src/aho_corasick.cc:70-90 | with an empty queue every node is linked to its longest proper suffix and its next pattern |
| AhoCorasick.AhoCorasick.LinkSons | src/aho_corasick.cc:79-88 | links and queues all sons of one node, changing nothing but links |
| AhoCorasick.AhoCorasick.BuildFailEdges | src/aho_corasick.cc:70-90 | afterwards every fail edge is the longest proper suffix in the trie and every next pattern the longest shorter pattern; words and patterns are unchanged |
| AhoCorasick.PatternAtLongest | src/aho_corasick.cc:86 | the node itself, or its next pattern, is the longest pattern that is a suffix of the text |
| AhoCorasick.LongestInPatterns | src/aho_corasick.cc:102 | the reported node stands for the longest match in the map of patterns, 0 for none |
| AhoCorasick.AhoCorasick.SearchIn | src/aho_corasick.cc:92-106 | entry i is the longest registered pattern ending at position i, 0 for none; the fail steps of the whole scan are at most the length of the text |
| AhoCorasick.ChainListsPatterns | src/aho_corasick.cc:76-90 | following next_pattern until 0 lists exactly all patterns ending there, once each, strictly shorter every time |
| InteractiveJudge.StepKeepsInv | src/sim/judge_worker.cc:475-735 | every step of either thread, exceptions included, keeps the joint invariant of both program counters and the four promises |
| InteractiveJudge.RunsKeepInv | src/sim/judge_worker.cc:475-735 | the invariant holds after every interleaving over any number of tests |
| InteractiveJudge.PromisesAreUsedOnce | src/sim/judge_worker.cc:475-628 | no promise is set or read twice or re-armed early; the i-th verdict read is of test i; checker_finished and the killed pid belong to their own test |
| InteractiveJudge.FlagReadIff | src/sim/judge_worker.cc:525-615 | in every run, the flag checker_finished is read as true for a test if and only if the checker has stored it for that test before the read |
| InteractiveJudge.KilledIff | src/sim/judge_worker.cc:536-548 | in every run, once the checker has dealt with a test, the solution was killed if and only if the checker gave less than the full score and the solution had been forked |
| InteractiveJudge.StuckIffCallbackSkipped | src/sandbox.cc:1030-1033 | both threads are blocked exactly when the solution waits for a verdict, the checker waits for the pid, and the after-fork callback was skipped |
| InteractiveJudge.NeverSkipped | src/sim/judge_worker.cc:598-612 | the callback counts as skipped only in a run with such an early return |
| InteractiveJudge.NoDeadlock | src/sim/judge_worker.cc:475-735 | a run without that early return never blocks both threads |
| InteractiveJudge.SkippedCallbackDeadlocks | src/sandbox.cc:1030-1033 | a concrete run in which the early return leaves both threads waiting for ever |
| InteractiveJudge.DoomedIff | src/sandbox.cc:1030-1033 | the run alone decides: both threads are headed for the deadlock exactly when some step skipped the callback while the checker had not thrown, and it has not thrown since |
| InteractiveJudge.CompleteRunStuckIff | src/sim/judge_worker.cc:475-735 | a run in which nothing more can happen is a deadlock exactly in that case, and has finished both threads otherwise |
| InteractiveJudge.StepAdvances | src/sim/judge_worker.cc:475-735 | every step moves its thread strictly forward |
| InteractiveJudge.RunsAreBounded | src/sim/judge_worker.cc:475-735 | over n tests both threads together take at most 24 n + 27 steps |
| InteractiveJudge.NormalEndHasAllVerdicts | src/sim/judge_worker.cc:712-735 | when testing ends normally, each test begun has had its own verdict read, in order, and the checker is idle |
| BoundedQueue.StepKeepsInv | include/simlib/concurrent/bounded_queue.hh:20-114 | each atomic step keeps the conservation of tokens, of slots, of the mutex and of the order of elements |
| BoundedQueue.RunsKeepInv | include/simlib/concurrent/bounded_queue.hh:20-114 | these laws hold after every interleaving of any number of threads |
| BoundedQueue.BoundedFifo | include/simlib/concurrent/bounded_queue.hh:96-113 | never more elements than the bound plus the increments; what was pushed is what was popped followed by what is queued |
| BoundedQueue.NoMoreMeansDone | include/simlib/concurrent/bounded_queue.hh:69-94 | a consumer learns that there is no more only after the signal and when everything pushed was popped |
| BoundedQueue.SignalledConsumersAdvance | include/simlib/concurrent/bounded_queue.hh:34-54 | after the signal, when nobody can move, no consumer is waiting for a token |
| BoundedQueue.TokenHolderAdvances | include/simlib/concurrent/bounded_queue.hh:34-54 | while elements or signals are outstanding and no token is free, some thread holding one can go on |
| JobProcessor.RunsKeepPool | include/simlib/concurrent/job_processor.hh:14-55 | in every run the threads keep their roles, the signal is sent once at the end of production, and the queue's laws hold |
| JobProcessor.RunsConserve | include/simlib/concurrent/job_processor.hh:14-23 | every copy of a job that left the queue is processed or in the hands of one thread |
| JobProcessor.EveryJobOnce | include/simlib/concurrent/job_processor.hh:44-55 | once all threads have returned, the processed jobs are exactly the produced ones, as multisets |
| JobProcessor.NoJobTwice | include/simlib/concurrent/job_processor.hh:14-23 | at every moment no job has been processed more often than it was produced |
| JobProcessor.NeverAllBlocked | include/simlib/concurrent/job_processor.hh:44-55 | as long as some thread has not returned, some thread can go on |
| JobProcessor.RunsAreBounded | include/simlib/concurrent/job_processor.hh:44-55 | a run over n jobs has at most 9 n + 4 (workers + 1) + 1 steps |
| EventQueue.EventQueue.constructor | src/event_queue.cc:13-26 | a new queue is consistent and watches only its pause descriptor |
| EventQueue.EventQueue.AddTimeHandler | src/event_queue.cc:91-101 | adds a pending timer under a fresh id and keeps the cross-indexing invariant |
| EventQueue.EventQueue.AddFileHandler | include/simlib/event_queue.hh:110-147 | appends a slot and its id; the invariant survives if and only if the descriptor is not negative |
| EventQueue.NegativeDescriptorBreaks | include/simlib/event_queue.hh:126-137 | descriptor -1 breaks even an empty queue |
| EventQueue.EventQueue.RemoveHandler | src/event_queue.cc:117-132 | removes exactly this handler, killing its slot in place, and keeps the invariant |
| EventQueue.EventQueue.RunCallback | src/event_queue.cc:171 | an arbitrary callback runs by the next script and keeps the invariant: old handlers go or stay as they are, new ones have fresh ids and slots without events |
| EventQueue.EventQueue.ProcessTimedHandlers | src/event_queue.cc:146-176 | fires only pending timers, earliest (time, id) first and not before their time; unless paused or thrown out of, the round ends with none due at the last reading of the clock, or with one fired and the quantum used up since the first reading |
| EventQueue.MovedOk | src/event_queue.cc:198-208 | moving a live slot to the front keeps slots and file handlers in bijection |
| EventQueue.EventQueue.MoveSlot | src/event_queue.cc:198-208 | moves a live slot with its id and its handler's index, and disables the old one |
| EventQueue.EventQueue.VisitSlot | src/event_queue.cc:193-256 | one turn of the pass: consistent whatever the callbacks did, also on a throw or a pause in mid-compaction |
| EventQueue.EventQueue.CallHandler | src/event_queue.cc:233-245 | the callback of the slot's own handler runs, for the events polled at the start of the pass |
| EventQueue.ResizeOk | src/event_queue.cc:258-259 | the final resize drops only dead slots |
| EventQueue.EventQueue.ProcessFileEvents | src/event_queue.cc:178-260 | every file callback of the pass is due: a handler present at the start with events, at most once, not removed earlier, none added meanwhile; a pass that is not paused has called every such handler that is still there and leaves no slot of a handler removed before the pass |
| EventQueue.PassDelivers | src/event_queue.cc:178-260 | after a pass that has run through, everyone for whom the last ppoll reported something has been called or is gone |
| EventQueue.AskedComesBack | include/simlib/event_queue.hh:98-107 | what a handler asks for is what it is told of when ppoll reports it |
| EventQueue.EventQueue.Deliver | src/event_queue.cc:230-255 | the handler is called for its events, ignorable events are skipped, and any other event throws |
| EventQueue.EventQueue.ApplyPoll | src/event_queue.cc:296 | ppoll writes the reported events of live slots and nothing else, and what it reported by handler enters the history |
| EventQueue.EventQueue.Wait | src/event_queue.cc:277-300 | fails exactly when ppoll was called and failed for another reason than a signal; otherwise records what was reported, which is nothing when ppoll was interrupted or not called |
| EventQueue.EventQueue.Turn | src/event_queue.cc:277-307 | one turn of the loop: unless an exception or a pause comes first, a round of timed handlers has ended and all that ppoll reported has been delivered |
| EventQueue.CallsFollowReports | src/event_queue.cc:263-308 | in every sound history each file callback goes back to the last ppoll, which reported exactly these events for this handler, with no other call of it in between |
| EventQueue.OneCallPerPoll | src/event_queue.cc:263-308 | in every sound history a handler is called at most once between two returns of ppoll |
| EventQueue.ReportsAreDelivered | src/event_queue.cc:263-308 | in every sound history, what one ppoll reports for a handler is delivered with exactly these events before the next ppoll of the same run, unless the handler is removed in between |
| EventQueue.TimersComeFirst | src/event_queue.cc:302-307 | in every sound history, a round of timed handlers lies between two returns of ppoll of the same run; it leaves a due timer only after firing one and using up the quantum |
| EventQueue.WentOn | src/event_queue.cc:146-260 | parts of a run compose: callbacks run by their scripts in order, none after a pause is requested or an exception thrown, and every pause and exception has its cause |
| EventQueue.FileHandlersBySize | include/simlib/event_queue.hh:59-61 | file handlers exist just when there are more handlers than timers |
| EventQueue.EventQueue.AreThereFileHandlers | include/simlib/event_queue.hh:59-61 | comparing the two sizes answers whether some handler is a file handler |
| EventQueue.EventQueue.Run | src/event_queue.cc:134-309 | after any observed behaviour, throwing callbacks included, the queue is consistent and the whole history is sound: each ppoll but the first of a run comes only when all that the last one reported is delivered; it returns only when paused or when no handler but its own is left, and it throws only when the last callback did, ppoll failed or reported an unknown event |
| ConfigValue.ExtractValue | src/config_file.cc:108-206 | reading one value never leaves the buffer and computes the grammar of the three kinds of strings, with each error case |
| ConfigValue.ReadPiece | src/config_file.cc:137-170 | one character or escape sequence of a double-quoted string, errors included |
| ConfigValue.ReadLiteral | src/config_file.cc:176-205 | a literal ends at its delimiter and loses trailing white space |
| ConfigValue.EscapeToSingleQuoted | src/config_file.cc:363-373 | doubles the quotes inside |
| ConfigValue.EscapeToDoubleQuoted | src/config_file.cc:375-412 | concatenates the escape of each character |
| ConfigValue.EscapeString | src/config_file.cc:414-440 | picks double quotes, the plain literal or single quotes |
| ConfigValue.SingleQuotedReads | src/config_file.cc:112-127 | a single-quoted string reads back exactly when it has no newline, and is an error otherwise |
| ConfigValue.ChunkReads | src/config_file.cc:380-400 | each escaped byte reads back as itself, except NUL, which is refused |
| ConfigValue.DoubleQuotedReads | src/config_file.cc:130-174 | a double-quoted string reads back exactly when it has no NUL, and is an error otherwise |
| ConfigValue.LiteralReads | src/config_file.cc:343-361 | every string accepted as a literal reads back before every legal delimiter |
| ConfigValue.RoundTrip | src/config_file.cc:414-440 | an escaped string before any legal delimiter, in an array or not, reads back as the string and leaves the delimiter, if and only if it has no NUL byte |
| ConfigValue.EscapeRoundTrip | src/config_file.cc:414-426 | the same for escape_string, without any hypothesis on the characters to escape |
| ConfigValue.FullEscapeRoundTrip | src/config_file.cc:428-440 | the same for full_escape_string |
| ConfigValue.NulDoesNotComeBack | src/config_file.cc:382 | a single NUL byte is printed as an escape that the reader refuses |
| ConfigFile.ReadItem | src/config_file.cc:274-318 | one turn of the array loop, each of its exits with its position, and the item already stored when an unknown sequence follows it |
| ConfigFile.ReadArray | src/config_file.cc:269-319 | an array is read as its items, or the position of the error, and the items stored before it |
| ConfigFile.ItemsAreRead | src/config_file.cc:274-318 | an array that is read completely is made of the items read |
| ConfigFile.ReadDirective | src/config_file.cc:208-338 | one turn of the main loop is that of `Directive`, whose meaning `ConfigGrammar.LoadsIff` and `ConfigGrammar.FileLoads` give |
| ConfigFile.Directive | src/config_file.cc:208-338 | every turn that succeeds consumes input and stays in the buffer |
| ConfigFile.ConfigFile.LoadConfigFromString | src/config_file.cc:24-341 | the variables become the old ones overwritten by the entries of the text in order (only known ones unless all are loaded); it fails exactly when the text has an error, and then the variable of the faulty line holds what had been stored of it |
| ConfigGrammar.FileLoads | src/config_file.cc:208-341 | the text of a tree of lines, with white space anywhere between name, operator and value, either operator, comments, blank lines, and values of every kind, loads as the assignments of the tree in order, with their spans |
| ConfigGrammar.LoadsIff | src/config_file.cc:208-341 | a text loads without an error if and only if it is the text of such a tree |
| ConfigGrammar.RowReads | src/config_file.cc:208-341 | wherever it stands, a line is read as its assignment and a blank or comment line as nothing, up to its newline |
| ConfigGrammar.HeadReads | src/config_file.cc:211-242 | name and operator, = or :, with any white space around them |
| ConfigGrammar.TailReads | src/config_file.cc:325-338 | after the value only white space and a comment may come before the newline |
| ConfigGrammar.InsideReads | src/config_file.cc:269-319 | between brackets, items, extra commas, white space and comments in any order are read as the items |
| ConfigGrammar.InsideOf | src/config_file.cc:269-319 | every array that is accepted is such a text |
| ConfigGrammar.WordReads | src/config_file.cc:108-206 | bare, single-quoted and double-quoted values before any legal delimiter are read as what they mean |
| ConfigGrammar.WordOf | src/config_file.cc:108-206 | every value that is accepted is one of these texts |
| ConfigGrammar.ChReads | src/config_file.cc:137-170 | a character between double quotes as itself, as its backslash sequence, or by its number in hexadecimal digits of either case |
| ConfigGrammar.EqualsAssigns | src/config_file.cc:237-242 | a = 1 assigns 1 to a, with the span of the 1 |
| ConfigLaws.LastWins | src/config_file.cc:246-264 | after loading, a variable that is known or loaded is set to the last value assigned to its name, as a string or an array |
| ConfigLaws.OthersKept | src/config_file.cc:246-264 | a variable that is not assigned is as before, and without loading all no variable is added |
| ConfigLaws.ExtractShift | src/config_file.cc:108-206 | a value depends only on the text it spans and the delimiter: the same text elsewhere gives the same value |
| ConfigLaws.ValueAlone | src/config_file.cc:244-323 | a scalar or an array cut out of its file reads as the same value |
| ConfigLaws.SpansReparse | src/config_file.cc:260-323 | for every file, each recorded value span read alone gives the recorded value |
| ConfigLaws.HalfArray | src/config_file.cc:271-317 | after an error inside an array the variable holds exactly the array that closing the bracket at that point would give |
| ConfigLaws.UnknownSequenceKeepsItem | src/config_file.cc:296-317 | an array broken off by an unknown sequence after its first item keeps that item |
| ConfigPrint.ItemsPrinted | src/sim/simfile.cc:78-85 | items printed on one line read back as the items, and are an error exactly when one has a NUL byte |
| ConfigPrint.RowsPrinted | src/sim/simfile.cc:15-52 | items printed on lines of their own, with empty lines between them, read back in the same way |
| ConfigPrint.LineReads | src/config_file.cc:208-338 | wherever it stands in a file, a `name: text` line is read as the assignment of what the text is read as |
| ConfigPrint.FieldsLoad | src/sim/simfile.cc:56-121 | any sequence of printed lines, with the newline that loading appends, loads as exactly these assignments in order if and only if no value has a NUL byte, and is an error otherwise |
| ConfigPrint.EntryAt | src/sim/simfile.cc:56-121 | the k-th assignment has the name and the value of the k-th printed line |
| ProcessTests.PointsShrink | src/sim/judge_worker.cc:380-382 | a smaller ratio gives a score nearer to zero, on either side of it |
| ProcessTests.RatioInRange | src/sim/judge_worker.cc:394-408 | the ratio of a group stays between 0 and 1 |
| ProcessTests.RatioIsLeast | src/sim/judge_worker.cc:394-408 | the ratio of a group is the least of 1 and what each of its tests is worth: the checker's ratio, cut down by the part of the time limit used |
| ProcessTests.FatalVoidsGroup | src/sim/judge_worker.cc:678 | a group with a test that ran out of time or memory or crashed scores nothing |
| ProcessTests.RoundIsNearest | src/sim/judge_worker.cc:380-382 | points are rounded to a nearest integer, ties away from zero |
| ProcessTests.ChosenShare | src/sim/judge_worker.cc:369-374 | each group is in exactly one of the two reports: the one with id 0 in the initial one, the others in the final one, in order |
| ProcessTests.ScoreInRange | src/sim/judge_worker.cc:416-418 | a group's score lies between 0 and its maximum, for a negative maximum too |
| ProcessTests.TotalsInRange | src/sim/judge_worker.cc:416-423 | the whole score is at most the whole maximum, which groups with a negative maximum do not change |
| ProcessTests.ReportShows | src/sim/judge_worker.cc:392 | a full report shows each test with its own name, status, runtime and limit |
| ProcessTests.JudgeGroup | src/sim/judge_worker.cc:376-426 | with or without skipping, the score is that of judging every test; when skipping is allowed, exactly the tests after the first one that leaves a ratio below 1e-6 worth no points are SKIPPED, and the flag tells whether there are any |
| ProcessTests.JudgeSkipped | src/sim/judge_worker.cc:444-453 | the second round fills in exactly the skipped tests and keeps the scores |
| ProcessTests.FirstRound | src/sim/judge_worker.cc:365-426 | selects the groups of the report in order, reports each as above and scores it as if everything had been judged; totals are modulo 2^64 |
| ProcessTests.SecondRound | src/sim/judge_worker.cc:434-455 | afterwards the report is the one of judging everything |
| ProcessTests.ProcessTests | src/sim/judge_worker.cc:355-460 | the final report equals judging everything, no test is SKIPPED, each is judged exactly once; a partial report is made exactly when there is a callback and some selected group leaves tests out, it shows exactly those as SKIPPED, and it shows the final scores |
| AutoScoring.SharesAreAll | src/sim/conver.cc:585-593 | dividing what is left by who is left hands out the whole pool |
| AutoScoring.NextShare | src/sim/conver.cc:588 | each division in the loop yields the closed-form share, so the shares depend only on pool and count |
| AutoScoring.SharesAreEven | src/sim/conver.cc:588 | two shares differ by at most 1, and no later one is smaller |
| AutoScoring.DistributeScores | src/sim/conver.cc:562-594 | every group ends with its explicit score, 0 for an unscored group zero in first place, or its share of what the wrapped 64-bit sum leaves of 100 |
| AutoScoring.ConverConserves | src/sim/conver.cc:562-594 | positive scores sum to max(100, explicit positives) when a non-zero group was unscored and to the explicit positives otherwise, exactly unless the 64-bit sum wraps around to less than 100 |
| AutoScoring.ConverOverflows | src/sim/conver.cc:562-573 | groups whose explicit scores sum to 2 to the 64 are given 100 points more |
| AutoScoring.ConverIsEven | src/sim/conver.cc:585-593 | automatically given scores are not negative, differ by at most 1 and never fall from one group to a later one |
| AutoScoring.AutoScore | src/sim/simfile.cc:391-401 | nothing is left to divide by exactly when group zero is spelled other than "0"; otherwise each group gets its share of 100 |
| AutoScoring.OddZeroHappens | src/sim/simfile.cc:392-397 | groups 00 and 1 are such a case |
| AutoScoring.CountMismatch | src/sim/simfile.cc:392-397 | the number of groups the loop serves and the number it divides by differ only through a group zero with another spelling |
| AutoScoring.SimfileConserves | src/sim/simfile.cc:391-401 | the scores sum to 100 as soon as there is a group other than "0" |
| AutoScoring.SimfileIsEven | src/sim/simfile.cc:395-400 | scores of groups other than "0" are not negative, differ by at most 1 and never fall from one group to a later one |
| Kmp.FillTable | include/simlib/string_view.hh:235-252 | the failure table holds the longest border of every prefix |
| Kmp.FallBack | include/simlib/string_view.hh:244-262 | falling back along the table loses no longer match |
| Kmp.Find | include/simlib/string_view.hh:235-268 | the smallest index where the pattern occurs, npos exactly when it does not |
| Kmp.FillTableBackwards | include/simlib/string_view.hh:327-345 | the mirrored table holds the longest border of every suffix |
| Kmp.OccursReversed | include/simlib/string_view.hh:327-361 | an occurrence is an occurrence of the reversed pattern in the reversed text |
| Kmp.Rfind | include/simlib/string_view.hh:327-361 | the last occurrence, npos when there is none, if and only if the pattern is not empty or the text is; 0 for the empty pattern |
| Lexicographic.Transitive | include/simlib/string_view.hh:222-226 | the order of strings is transitive |
| Lexicographic.Trichotomous | include/simlib/string_view.hh:222-226 | any two strings are ordered or equal |
| Lexicographic.DropPrefix | include/simlib/string_view.hh:222-226 | a common prefix does not influence the order |
| VersionCompare.VersionLess | include/simlib/string_compare.hh:59-110 | the comparator computes the order on positions: first difference, digit runs around it, leading zeros |
| VersionCompare.LessIsTokensLess | include/simlib/string_compare.hh:59-110 | that order is the lexicographic order on sequences of digit runs and single characters |
| VersionCompare.RunLessByValue | include/simlib/string_compare.hh:94-97 | two runs of digits without leading zeros are ordered as the numbers they mean |
| VersionCompare.RunLessByZeros | include/simlib/string_compare.hh:84-107 | otherwise more leading zeros come first, and with equally many the text after them decides |
| VersionCompare.NumbersDecide | include/simlib/string_compare.hh:59-107 | strings that first differ within a number are ordered by the whole runs of digits there |
| VersionCompare.TextDecides | include/simlib/string_compare.hh:66-82 | strings that first differ outside a number are ordered by the characters there, a prefix coming first |
| VersionCompare.TokensDetermine | include/simlib/string_compare.hh:59-110 | a string is the concatenation of its tokens |
| VersionCompare.TokensTransitive | include/simlib/string_compare.hh:59-110 | the order on token sequences is transitive |
| VersionCompare.TokensTrichotomous | include/simlib/string_compare.hh:59-110 | any two token sequences are ordered or equal |
| VersionCompare.StrictTotalOrder | include/simlib/string_compare.hh:59-110 | the comparator is irreflexive, transitive and trichotomous on all strings |
| VersionCompare.DigitIsLowerIff | include/simlib/string_compare.hh:79-82 | a digit that meets a non-digit or the end, with no digit before it, is the lower one exactly when the other goes on with a character above 9 |
| VersionCompare.DigitLengthensRun | include/simlib/string_compare.hh:71-107 | with digits before it, the string with the further digit is the lower one exactly when those digits are all zeros |
| VersionCompare.DigitIsNotAlwaysLower | include/simlib/string_compare.hh:79-82 | the empty string and a full stop come before the digit 1 |
| NumberText.Str2Num | include/simlib/string_transform.hh:189-225 | for every width and signedness: a value exactly for an optional minus (signed only) and digits whose value the type has, and then that value |
| NumberText.Str2NumIn | include/simlib/string_transform.hh:281-292 | a value exactly for the numerals within the bounds |
| NumberText.ValueGrows | include/simlib/string_transform.hh:206-221 | more digits never make the value smaller, so an overflow on the way is an overflow of the whole |
| NumberText.ToString | include/simlib/to_string.hh:100-146 | the buffer holds the decimal text, ended by a NUL, with every write inside it |
| NumberText.Capacity | include/simlib/to_string.hh:111 | the text of every value, the least one included, fits the buffer sized by the greatest |
| NumberText.TextMeans | include/simlib/to_string.hh:100-146 | the text of every value of a type is a numeral of that type and means the value, so reading inverts writing |
| NumberText.MeaningText | include/simlib/to_string.hh:100-146 | writing inverts reading exactly for numerals without needless zeros |
| NumberText.NumLessIsLess | include/simlib/string_compare.hh:48-54 | on digit strings the comparator is the order of the numbers, leading zeros or not |
| NumberText.StrNumCompare | include/simlib/string_compare.hh:48-54 | shorter first, then lexicographic, after leading zeros are dropped; on digits that is the order of the numbers |
| NumberText.IsDigitNotGreaterThan | include/simlib/string_compare.hh:160-166 | true exactly for non-empty digit strings of value at most the bound |
| NumberText.IsDigitNotLessThan | include/simlib/string_compare.hh:168-174 | true exactly for non-empty digit strings of value at least the bound |
| Path.EraseLastComponent | src/path.cc:22-29 | erasing the end of the text is dropping the last name |
| Path.ProcessComponent | src/path.cc:31-47 | editing the text for one component is one step of the walk on names |
| Path.PathAbsolute | src/path.cc:8-64 | the text returned is that of walking the components on a stack of names, from the directory or from the root |
| Path.ParseSpells | src/path.cc:8-64 | every text is the text of a list of names, so nothing is assumed of the directory |
| Path.CanonicalIff | include/simlib/path.hh:7-10 | the result is absolute without repeated separators and dot components exactly when the names kept from the directory are proper |
| Path.NotCanonicalInDottedDirectory | include/simlib/path.hh:7-10 | an input on which the comment's promise fails |
| Path.DefaultIsCanonical | include/simlib/path.hh:7-10 | with the default directory the promise always holds |
| Path.CanonicalIsFixed | src/path.cc:8-64 | a canonical path resolves to itself in any directory |
| Path.Idempotent | src/path.cc:8-64 | resolving twice is resolving once |
| Path.Composes | src/path.cc:8-64 | resolving p and then q from there equals resolving p/q, exactly when p does not leave a relative directory completely (or nothing is left in the end) |
| Path.EnterName | src/path.cc:35-46 | a single name is appended to any directory after exactly one slash |
| Path.ParentUndoes | src/path.cc:22-34 | entering a name and going up is staying |
| Path.ParentOfTop | src/path.cc:22-29 | there is nothing above the root |
| Path.EndsInSlash | src/path.cc:59-61 | in an absolute directory the result ends in a slash exactly when it is the root, the path ends in a slash, or its last component is a dot or two |
| SimfilePaths.LoadSolutions | src/sim/simfile.cc:217-231 | every solution is resolved from the root without the leading slash; no solution at all is an error |
| SimfilePaths.DumpSolutions | src/sim/simfile.cc:78-85 | prints the escaped solutions between brackets, separated by commas, for all byte strings |
| SimfilePaths.SecuredIsFixed | src/sim/simfile.cc:225-228 | securing a path twice changes nothing more |
| SimfilePaths.SecuredStaysInside | src/sim/simfile.cc:225-228 | a secured path is relative and each of its components is a proper name, so it does not go outside the package |
| SimfilePaths.SolutionsAreFixed | src/sim/simfile.cc:217-231 | solutions that were loaded and dumped, between any other printed fields, read back the same, and the dump is an error exactly when a printed value has a NUL byte; loading them again keeps them; NUL-free paths give NUL-free solutions |
| PackageContents.PrefixIsConvex | include/simlib/sim/problem_package.hh:70-91 | an entry between two entries with a prefix has the prefix |
| PackageContents.PrefixRange | include/simlib/sim/problem_package.hh:70-75 | the entries with a prefix are exactly those from its lower bound to the first entry without it |
| PackageContents.SortedIsUnique | include/simlib/sim/problem_package.hh:37 | the ordered entries are determined by which strings are among them |
| PackageContents.PackageContents.AddEntry | include/simlib/sim/problem_package.hh:53-58 | the set gains exactly this entry and stays sorted while the buffer grows |
| PackageContents.PackageContents.Remove | include/simlib/sim/problem_package.hh:60-68 | the set loses exactly this entry; tells whether it was there |
| PackageContents.RemoveUndoesAdd | include/simlib/sim/problem_package.hh:53-68 | removing an entry just added restores the same entries in the same order |
| PackageContents.AddUndoesRemove | include/simlib/sim/problem_package.hh:53-68 | adding an entry just removed restores the same entries in the same order |
| PackageContents.PackageContents.RemoveWithPrefix | include/simlib/sim/problem_package.hh:70-75 | the set loses exactly the entries with the prefix |
| PackageContents.PackageContents.ForEachWithPrefix | include/simlib/sim/problem_package.hh:77-91 | visits exactly the entries with the prefix, once each, in order |
| PackageContents.PackageContents.Exists | include/simlib/sim/problem_package.hh:93-95 | membership |
| PackageContents.PackageContents.FindMainDir | include/simlib/sim/problem_package.hh:97-117 | looking at the first and the last entry finds the directory all entries are in, "" when there is none |
| PackageContents.PackageContents.LoadFromZip | src/sim/problem_package.cc:46-61 | adds exactly the entries of the archive, or fails just when one is unsafe |
| PackageContents.ZipMainDir | src/sim/problem_package.cc:63-90 | the linear scan finds the same directory; it throws exactly when an unsafe entry comes before the first entry that decides against a main directory |
| PackageContents.UnsafeIff | src/sim/problem_package.cc:54-69 | an entry is refused if and only if splitting it at slashes gives a .. that is not the last component |
| PackageContents.MainDirOfSet | src/sim/problem_package.cc:63-90 | the main directory depends only on which entries there are, so both ways of finding it agree |
| Keccak.PaddingIsPad101 | 3rdparty/3rdparty/sha3.c:324-335 | bit for bit, the padded message is the message, the suffix bits and pad10*1, for every non-zero suffix byte |
| Keccak.AbsorbConcat | 3rdparty/3rdparty/sha3.c:310-322 | absorbing in two parts is absorbing the whole |
| Keccak.AbsorbInput | 3rdparty/3rdparty/sha3.c:310-322 | whole blocks are absorbed and the rest is xored in, its length being the length of the message modulo the rate |
| Keccak.PadAndPermute | 3rdparty/3rdparty/sha3.c:324-335 | finishing the block in place is absorbing the tail with its padding, over one or two blocks |
| Keccak.SqueezeOutput | 3rdparty/3rdparty/sha3.c:337-346 | the output is that of squeezing, for every length |
| Keccak.Keccak | 3rdparty/3rdparty/sha3.c:295-347 | the loop computes the sponge of the whole padded message for every message, suffix byte, byte-aligned rate and output length; other parameters are refused |
| Keccak.SpongeIsStandard | 3rdparty/3rdparty/sha3.c:295-347 | for every permutation, message, non-zero suffix byte, rate and length, the bits of that sponge are those of Algorithm 8 of FIPS 202 for the message followed by the suffix bits |
| Keccak.XorOnBits | 3rdparty/3rdparty/sha3.c:314 | the xor of two bytes is their bitwise exclusive or |

## Left out

- Sandboxing, spawning, signals, file manipulation, archives, databases, logging and inotify: system calls and foreign libraries.
- Thread creation and joining that fail, and exceptions thrown by `process_job` or `produce_jobs`.
- Move construction and assignment of an event queue, nested `run` calls, and allocation failures while adding handlers.
- EventQueue.EventQueue.RemoveHandler: requires the handler to exist, as the source does; scripts of callbacks skip removals the source forbids.
- EventQueue.EventQueue.RunCallback: callbacks add non-negative descriptors only, because a negative one breaks the queue (`AddFileHandler`).
- EventQueue.EventQueue.Run: speaks about finitely many callbacks and poll results at a time, each of them arbitrary; `timed_handlers_` is a set whose least element is taken.
- EventQueue.EventQueue.Wait: how long ppoll waits is not modelled, only what it returns.
- Line, column and diagnostics of parse errors, apart from the position of the error.
- ProcessTests.ProcessTests: ratios and scores are real numbers instead of doubles, checker ratios are not negative, the score-cut parameter is between 0 and 1 and time limits are positive; the log is not modelled.
- Parsing explicit scoring items and time limits in `Conver` and `Simfile`.
- NumberText.Str2Num: the `bool` and floating-point variants are not modelled.
- Keccak.Keccak: the permutation itself is a parameter; rate 0 with capacity 1600 is excluded, because there the source loops for ever on a non-empty input and writes outside the state on an empty one; rate + capacity does not wrap around.
- SimfilePaths.SolutionsAreFixed: the other lines of the dump are arbitrary printed fields; which names and texts a Simfile gives them is not modelled.
- `load_from_directory` of package contents, which walks the file system.
- `UrlDispatcher`, URI encoding, `InplaceArray`, the comparator of test names and size formatting.
