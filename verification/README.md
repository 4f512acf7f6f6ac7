# Verified models of the build and test tooling

Dafny models of the algorithms in the repository's build and test scripts that keep
state, recurse or interleave, with proofs of what they promise.

| file | what it models |
|---|---|
| `Libdeps.dfy`, `LibdepsTheorems.dfy`, `LibdepsReports.dfy` | the memoised depth-first search for library dependencies, with its per-node flags, its cache that is never invalidated and its cycle error |
| `FileLock.dfy`, `FileLockTheorems.dfy` | the two-level lock around `Map.map` (a semaphore per JVM, a file lock between JVMs) as a transition system over any number of JVMs, threads and lock names, with failing steps |
| `ErrorCodes.dfy` | the error-code allocator, which re-reads the whole tree for every placeholder while files are being rewritten |
| `TextInside.dfy` | the bracket matcher of the linter |
| `MultiLineComments.dfy` | the in-place remover of multi-line comments |
| `CppString.dfy` | the counting test for being inside a string constant |
| `ClassStack.dfy` | the stack of open classes with one brace count each |
| `IncludeOrder.dfy` | the include-order machine |
| `LintState.dfy` | error filters and error counts |
| `LogAppender.dfy` | the retrying log batcher and its final loop |
| `FailFile.dfy` | the lists of failed tests during a run and the fail file between runs |
| `CrossProduct.dfy` | the generator of all tuples over several sequences |

`Wrappers.dfy` holds the option type. An exception or a failing assertion in a script is an
extra outcome of the operation (`CycleError`, `AssertionFails`, `None`, `raised`,
`thenRaises`). The clock, the server's answers, test outcomes, the end of a pattern match
and JVM crashes are inputs.

Some promises one would expect do not hold of the code. They are shown false and given
the condition under which they hold:

- A dependency cycle that can be reached need not be reported. The `raise` at
  `site_scons/libdeps.py:115` is inside the `if`, so the frame just above a complete cycle
  drops the error and caches the set it has so far (`CycleMissed`, `FrameAboveCycle`).
  All answers are exact if and only if the graph has no cycle (`AllExactIffAcyclic`).
  Let a node lead to the first of its direct dependencies from which a cycle can be
  reached. No sequence of queries leaves a cycle unreported if and only if from every node
  that can reach a cycle the leads come back to that node (`AllReportedIff`). A single
  query, whatever is cached, reports a cycle if and only if the leads come back to its node
  after the nodes that drop the error have been peeled off one by one (`ReportedIff`).
- Log lines need not be delivered in arrival order: a post puts the recent lines before the
  retried ones (`Overtaken`). A line overtakes an earlier one if it arrives after that one was
  rejected, nothing has been accepted since that one arrived, and the first post from its own
  arrival on is accepted. What is delivered is a prefix of the input if no line overtakes
  another, and for distinct entries only if (`HistoryInOrderIff`).
- The counting test for strings is not a lexer: it agrees with the plain reader of quotes
  and backslashes if and only if an even number of quotes is written as a character
  constant (`AgreesIff`), and with a reader that knows character constants if and only if
  the quotes counted as such and those that are in one have the same parity
  (`AgreesWithLexIff`), which tidy lines have (`AgreesWithLex`).
- The class stack sees only the difference of the brace counts of a line, so a line that
  closes a class and opens another brace puts it out of step (`ReopenedOnOneLine`). It is
  right throughout a file if and only if every line meets a condition on its braces and
  semicolons (`AlwaysRightIff`).

## Model

| member | source | states |
|---|---|---|
| `Libdeps.Get` | site_scons/libdeps.py:83-119 | one query of the search, cached or not, ends on every graph and leaves the exploring flags as it found them on both exits |
| `Libdeps.NodeAttributes.GetLibdeps` | site_scons/libdeps.py:83-93 | the in-place query gives the answer, and leaves the tables, that the recursive search `Get` describes |
| `Libdeps.NodeAttributes.ComputeLibdeps` | site_scons/libdeps.py:95-119 | the frame of one node, with its flag set and cleared and its error appended to, raised again or dropped, is `Compute` |
| `Libdeps.NodeAttributes.ExploreChildren` | site_scons/libdeps.py:105-110 | the loop over the children, falsy entries skipped, is `Explore`: the set gathered, the error that stopped it and the tables |
| `LibdepsTheorems.EveryRun` | site_scons/libdeps.py:83-119 | over every sequence of queries: every cached or returned set holds only nodes reachable by one or more edges, and all of them where no cycle can be reached; every escaping error is a simple cycle through the queried node; between queries no flag is set |
| `LibdepsTheorems.OutermostQuery` | site_scons/libdeps.py:83-119 | the same for one query in any state with a sound cache, however partial |
| `LibdepsTheorems.GetTrail` | site_scons/libdeps.py:98-115 | at every depth of the search: each trail entry depends directly on the one before it, the last is the node asked about, all after the first are distinct and off the stack, and the first is a node still being explored or closes the cycle |
| `LibdepsTheorems.ErrorPassesIff` | site_scons/libdeps.py:112-115 | a frame lets an error through exactly when the re-entered node is itself or a frame below it |
| `LibdepsTheorems.EscapesIff` | site_scons/libdeps.py:112-117 | the error that reaches the frame of an outermost query comes out exactly when the re-entered node is the queried one |
| `LibdepsTheorems.FrameAboveCycle` | site_scons/libdeps.py:91-93 | a frame that returns in spite of an error is just above a complete simple cycle, which starts at one of its children, and it caches the set it has so far |
| `LibdepsTheorems.AnswerMadeOf` | site_scons/libdeps.py:103-119 | the set of a query not answered from the cache is exactly the direct dependencies and their cached sets, all of them if no error was met, and otherwise those before the one where the dropped cycle starts, and that node alone |
| `LibdepsTheorems.EveryRunMadeOf` | site_scons/libdeps.py:91-119 | over every sequence of queries each set in the cache is made of direct dependencies and their own cached sets in this way |
| `LibdepsTheorems.AnswerStays` | site_scons/libdeps.py:91-93 | a set once answered is the answer from then on, whatever is asked in between |
| `LibdepsTheorems.AllExactIffAcyclic` | site_scons/libdeps.py:83-119 | every answer of every sequence of queries is the exact closure if and only if the graph has no cycle |
| `LibdepsTheorems.CyclicNodeNotExact` | site_scons/libdeps.py:98-119 | a node on a cycle, asked about first, gets an error or a set without itself |
| `LibdepsReports.ReportedIff` | site_scons/libdeps.py:83-119 | in every cache an outermost query raises if and only if, cached nodes being leaves, the walk along the first dependencies that can reach a cycle comes back to the queried node, after the node just before the re-entered one has been made a leaf as often as needed |
| `LibdepsReports.AllReportedIff` | site_scons/libdeps.py:83-119 | every query on a node that can reach a cycle is answered by an error, in every sequence of queries, if and only if from each such node that walk comes back to the node |
| `LibdepsReports.OnLoopReported` | site_scons/libdeps.py:104-115 | a query on a node to which the walk comes back raises in any cache holding only nodes that reach no cycle, and leaves such a cache |
| `LibdepsReports.WalkDrops` | site_scons/libdeps.py:112-119 | the frame just before the node to which the walk comes back drops the error and is the one node cached that can reach a cycle |
| `LibdepsReports.GetLeaves` | site_scons/libdeps.py:91-93 | the direct dependencies of cached nodes play no part in a query |
| `LibdepsReports.TwinsGet` | site_scons/libdeps.py:83-119 | two caches that differ only in nodes from which no cycle can be reached, but through nodes cached in both, give the same error or both a set, and go on differing in such nodes only |
| `LibdepsReports.PeelSame` | site_scons/libdeps.py:91-119 | making the node that drops the error a leaf does not change whether a query raises |
| `LibdepsTheorems.CycleMissed` | site_scons/libdeps.py:112-119 | in general a query on a node that is on a cycle can return a set without an error |
| `FileLockTheorems.MutualExclusion` | buildscripts/emr/FileLock.java:32-58 | in every interleaving at most one thread per lock name over all JVMs, and at most one thread per JVM whatever the name, is in the critical section |
| `FileLockTheorems.PermitsConserved` | buildscripts/emr/FileLock.java:34-58 | per JVM, free permits, calls past `acquire` and lost permits always add up to one, through all failures; the `finally` block never adds a surplus permit |
| `FileLockTheorems.ObjectsUsedOnce` | buildscripts/emr/emr.java:146-175 | with a fresh object per call `lock()` never finds it locked, and `unlock()` finds it unlocked only in a call that owes no permit |
| `FileLockTheorems.NeverOverlapsIff` | buildscripts/emr/FileLock.java:51-55 | no thread ever asks for a file lock that its own JVM holds or waits for, if and only if the file is released before the permit |
| `FileLockTheorems.PermitFirstOverlaps` | buildscripts/emr/FileLock.java:54-55 | with the two releases swapped some interleaving makes a thread ask for a file lock its own JVM holds |
| `FileLockTheorems.LostForGood` | buildscripts/emr/FileLock.java:37-45 | one failure after `acquire` shuts the JVM out until it is restarted: no thread of it is past `acquire` or can get there |
| `FileLockTheorems.ShutOutIff` | buildscripts/emr/FileLock.java:32-58 | in every reachable state, no continuation without a restart lets a thread of the JVM past `acquire`, if and only if the JVM has lost its permit |
| `FileLockTheorems.PermitsBySteps` | buildscripts/emr/FileLock.java:37-55 | in every run the free permits of a JVM are one, less its acquires and plus its releases since it was started, and a permit is lost if and only if one of its calls has failed after `acquire` |
| `FileLockTheorems.ShutOutBySteps` | buildscripts/emr/FileLock.java:37-55 | in every run no thread of a running JVM can get past `acquire` any more if and only if opening, locking or releasing the file has failed there since it was started |
| `FileLockTheorems.FilesBySteps` | buildscripts/emr/FileLock.java:44-54 | in every run the file locks held are exactly those taken and neither released since nor ended with their JVM |
| `FileLockTheorems.CallsBySteps` | buildscripts/emr/emr.java:146-175 | in every run the calls in progress are those begun that have neither ended nor lost their JVM |
| `FileLockTheorems.FailuresPossible` | buildscripts/emr/FileLock.java:37-54 | wherever a call can be interrupted or fail, some run goes on with that failure |
| `FileLockTheorems.RunKeepsInv` | buildscripts/emr/FileLock.java:32-68 | every step of every run keeps: permits conserved, `_lock` set exactly from taking the file lock on, every held file owned by its JVM's one holder or left by a failed release |
| `ErrorCodes.SourceTree.CheckErrorCodes` | buildscripts/errorcodes.py:115-126 | a bare assert anywhere makes the pass raise with the tree untouched; otherwise the placeholders, as many as there are, get the numbers after the greatest code, the later the greater, nothing else changes, and the answer is true if and only if no two codes of the tree as it then stands agree |
| `ErrorCodes.SourceTree.GetNextCode` | buildscripts/errorcodes.py:106-113 | a number above all codes handed out for the current file and all codes on disk, one more than one of them or 1; or the exception of a bare assert |
| `ErrorCodes.SourceTree.AssignLine` | buildscripts/errorcodes.py:52-94 | the placeholders of a line get consecutive numbers from the next free code on, other codes go to the duplicate check, and it raises exactly on a bare assert, in the line or met by a re-scan |
| `ErrorCodes.SourceTree.AssignFile` | buildscripts/errorcodes.py:45-97 | the same for a file, with the need to rewrite it told exactly |
| `ErrorCodes.SourceTree.PassFile` | buildscripts/errorcodes.py:97-103 | writing back the file keeps the state of the pass: files so far numbered, their codes noted, the tree untouched if there was nothing to replace |
| `ErrorCodes.NumberedInScanOrder` | buildscripts/errorcodes.py:69-91 | with `m` the greatest code, or 0, the placeholders become `m + 1`, `m + 2`, ... in scan order across lines and files, and every other code stays |
| `ErrorCodes.NumberedByPlace` | buildscripts/errorcodes.py:69-103 | the same told by file, line and place in the line, with all files and lines kept |
| `ErrorCodes.PlaceInScan` | buildscripts/errorcodes.py:45-69 | the scan meets every code of the tree |
| `ErrorCodes.ScanFromPlace` | buildscripts/errorcodes.py:45-69 | the scan meets nothing but codes of the tree |
| `ErrorCodes.ScanInOrder` | buildscripts/errorcodes.py:45-69 | the scan goes file by file and line by line, so it meets no place twice |
| `ErrorCodes.NextFreeMidway` | buildscripts/errorcodes.py:47-113 | midway through the tree the next free code is as many above the greatest original code as there were placeholders in the files already rewritten |
| `ErrorCodes.DuplicatesFound` | buildscripts/errorcodes.py:77-87 | no duplicate is met if and only if the numbered codes are distinct, although the new codes are never checked |
| `TextInside.GetTextInside` | buildscripts/cpplint.py:2470-2500 | the assertion fails if and only if the match does not end with an opening bracket; otherwise a text is returned if and only if there is one that is well nested over the three kinds of brackets and followed by the closer of that bracket, and it is that text |
| `TextInside.InsideUnique` | buildscripts/cpplint.py:2470-2500 | there is at most one such text |
| `TextInside.Example` | buildscripts/cpplint.py:2470-2500 | the text inside a call with all three kinds of brackets, and a call without one |
| `TextInside.ScanExact` | buildscripts/cpplint.py:2484-2500 | the stack scan succeeds exactly when there is such a text, and stops just after its closer |
| `MultiLineComments.RemoveMultiLineComments` | buildscripts/cpplint.py:891-904 | it terminates, and the lines and the report are those of a reading line by line: lines in a closed comment become the dummy, a comment never closed is reported |
| `MultiLineComments.RemoveNext` | buildscripts/cpplint.py:893-904 | a round of the loop removes the next comment and keeps what is cleaned so far, or finds that there is none or that it is never closed |
| `MultiLineComments.StripIs` | buildscripts/cpplint.py:866-877 | stripping a line takes away exactly the white space at both ends |
| `MultiLineComments.Examples` | buildscripts/cpplint.py:863-880 | lines that open a comment going beyond them and lines that end one, among them slash, star and slash, which does both |
| `MultiLineComments.FindNextMultiLineCommentStart` | buildscripts/cpplint.py:863-871 | the first line from a position on that opens a comment going beyond it, or the end |
| `MultiLineComments.FindNextMultiLineCommentEnd` | buildscripts/cpplint.py:874-880 | the first line from a position on that ends a comment, or the end |
| `MultiLineComments.RemoveMultiLineCommentsFromRange` | buildscripts/cpplint.py:883-888 | exactly the lines of the range become the dummy |
| `MultiLineComments.CleanTwice` | buildscripts/cpplint.py:891-904 | doing it twice is doing it once, with the same report, also when it stops at a comment never closed; without a report no line opens a multi-line comment any more |
| `MultiLineComments.ChangedInBlocks` | buildscripts/cpplint.py:893-904 | a line changes only to the dummy, inside a block from a comment start to the first comment end after it, all of which is blanked |
| `MultiLineComments.UnclosedLeftAlone` | buildscripts/cpplint.py:898-902 | the reported line opens a comment, and from it on nothing ends one and nothing changes |
| `CppString.AgreesIff` | buildscripts/cpplint.py:846-860 | for every line: the test agrees with the reader in which a backslash takes the next character along and any other double quote toggles, if and only if the number of quotes written as character constants is even |
| `CppString.AgreesWithLexIff` | buildscripts/cpplint.py:859-860 | for every line: the test agrees with the reader that knows strings and character constants, if and only if the quotes it takes for character constants and the quotes read in character constants have the same parity |
| `CppString.AgreesWithLex` | buildscripts/cpplint.py:859-860 | it agrees with that reader on every line whose character constants have one character and on which no string begins or ends between two single quotes |
| `CppString.AgreesWithoutSingleQuote` | buildscripts/cpplint.py:859-860 | it agrees with the plain reader on every line without a single quote |
| `ClassStack.ClassState.CheckLine` | buildscripts/cpplint.py:1408-1485 | the stack after a line is what `Track` says, so after the lines of a file it is what `TrackFile` says |
| `ClassStack.ClassState.CheckFinished` | buildscripts/cpplint.py:1301-1315 | after the lines of an orderly file a class is reported if and only if a class brace is open or a head waits for its brace, and it is the outermost |
| `ClassStack.LineInStepIff` | buildscripts/cpplint.py:1408-1485 | from a right stack a line leads to a right stack if and only if it is orderly: no head is met while another waits; the innermost class stays open, or is closed with nothing opened instead; a waiting head opens first and stays open, or is ended by a semicolon or closed again with the class around undisturbed |
| `ClassStack.AlwaysRightIff` | buildscripts/cpplint.py:1403-1485 | throughout a file the stack is the run-length code of the truly open braces from the outermost class brace upward, with a waiting head on top, if and only if every line is orderly |
| `ClassStack.SecondHead` | buildscripts/cpplint.py:1408-1440 | a class head met while another still waits for its brace always puts the stack out of step |
| `ClassStack.SimpleIsOrderly` | buildscripts/cpplint.py:1403-1440 | files with at most one brace on a line, whose class heads open on their own line or are forward declarations, are orderly, so the stack is right for them |
| `ClassStack.StackHoldsOpenClasses` | buildscripts/cpplint.py:1467-1485 | a class is on the stack exactly while its own brace is open or awaited, so it is popped at its own closing line |
| `ClassStack.ComplaintIff` | buildscripts/cpplint.py:1301-1315 | at the end there is a complaint exactly when a class brace is left open or a head waits, and it names the outermost |
| `ClassStack.ReopenedOnOneLine` | buildscripts/cpplint.py:1467-1485 | closing a class and opening another brace on one line always puts the stack out of step |
| `IncludeOrder.IncludeState.CheckNextIncludeOrder` | buildscripts/cpplint.py:437-488 | the error and the new section and last name are those of the machine `AfterOrder` |
| `IncludeOrder.IncludeState.IsInAlphabeticalOrder` | buildscripts/cpplint.py:422-435 | true exactly when the last name is not greater than the canonical name, which then replaces it |
| `IncludeOrder.IncludeState.Include` | buildscripts/cpplint.py:2405-2434 | a repeated header changes nothing; any other is reported out of order by the headers before it, and out of alphabet if and only if one of them overtakes it in the sense of `AlphaErrorIff` |
| `IncludeOrder.NoOrderErrorIff` | buildscripts/cpplint.py:437-488 | no order error over a whole list if and only if it is own headers, then C, then C++, then own and other headers |
| `IncludeOrder.SectionGrows` | buildscripts/cpplint.py:377-383 | the section never decreases |
| `IncludeOrder.SectionIs` | buildscripts/cpplint.py:437-488 | the section told from the kinds of headers met, in whatever order |
| `IncludeOrder.OrderErrorIff` | buildscripts/cpplint.py:437-488 | a header is out of order if and only if it is a C header after a C++ one, an other one or a late own one, or a C++ header after one of the last two |
| `StringOrder.FirstDifference` | buildscripts/cpplint.py:432 | of two names that differ the one with the smaller character at the first difference comes first |
| `StringOrder.PrefixFirst` | buildscripts/cpplint.py:432 | of two names without a difference the shorter one comes first |
| `IncludeOrder.LastIsGreatest` | buildscripts/cpplint.py:432-486 | the last name remembered is the greatest canonical name since the last header that was out of order or brought a new section, that one included |
| `IncludeOrder.AlphaErrorIff` | buildscripts/cpplint.py:422-486 | a header is reported if and only if an earlier one has a greater name and no header after that one, up to this one, is out of order or brings a new section |
| `IncludeOrder.BlockSortedIff` | buildscripts/cpplint.py:422-488 | a longest stretch without a new section or an order error gets no alphabetical report if and only if it is sorted |
| `LintState.CppLintState.SetFilters` | buildscripts/cpplint.py:521-544 | the filters become the default ones and those given, and an error is raised if and only if one of them has no sign, with the filters set all the same |
| `LintState.CppLintState.ShouldPrintError` | buildscripts/cpplint.py:765-789 | printed if and only if not suppressed, confident enough, and the last filter whose body is a prefix of the category is not negative; the assertion fails if and only if the filters are consulted and one has no sign |
| `LintState.CppLintState.IncrementErrorCount` | buildscripts/cpplint.py:551-559 | the counters keep telling the history of errors since the last reset |
| `LintState.CountsAddUp` | buildscripts/cpplint.py:551-559 | the counts by category add up to the number of errors, in both counting styles |
| `LintState.DetailedCounts` | buildscripts/cpplint.py:551-559 | the detailed table maps each category to how often it is in the history, and in the total style there is no table |
| `LintState.TopLevelAggregates` | buildscripts/cpplint.py:551-559 | for every history the top-level table is the detailed table added up by the part before the slash |
| `LogAppender.Appender.Call` | buildscripts/buildlogger.py:265-272 | a line is buffered and a post is made exactly when the buffer or the delay has reached its limit; afterwards the buffer is below the limit, or empty if the limit is not positive |
| `LogAppender.Appender.Submit` | buildscripts/buildlogger.py:274-290 | with nothing outstanding nothing is posted; an accepted post empties both buffers, a rejected one moves the buffer behind the retry buffer |
| `LogAppender.Appender.Drain` | buildscripts/buildlogger.py:342-349 | at most six attempts; nothing is left outstanding if and only if nothing was or one of the six is accepted; no line is lost |
| `LogAppender.Conserved` | buildscripts/buildlogger.py:265-290 | over every history the input is the accepted batches end to end, then the retry buffer, then the buffer |
| `LogAppender.DeliveredOnce` | buildscripts/buildlogger.py:278-286 | each line of the accepted batches is posted exactly once |
| `LogAppender.NoEmptyPost` | buildscripts/buildlogger.py:274-290 | nothing is posted when nothing is outstanding; a post empties the buffer, and an accepted one also the retry buffer |
| `LogAppender.NeverRejected` | buildscripts/buildlogger.py:283-290 | if no post is rejected nothing is retried, so every batch is in arrival order |
| `LogAppender.InOrderIff` | buildscripts/buildlogger.py:278-286 | lines are delivered in arrival order if no accepted batch holds both recent and retried ones, and for distinct entries only if |
| `LogAppender.RetryIff` | buildscripts/buildlogger.py:283-290 | over every history there is something to retry if and only if some line went through a rejected post and nothing has been accepted since it arrived |
| `LogAppender.MixedIff` | buildscripts/buildlogger.py:278-290 | an accepted post is made with both buffers filled if and only if it makes a line overtake one that was rejected before it arrived |
| `LogAppender.HistoryInOrderIff` | buildscripts/buildlogger.py:265-290 | over every history of arrivals and submits: what is delivered is a prefix of the input if no line overtakes another, and for distinct entries only if; overtaking is told from the events alone |
| `LogAppender.Overtaken` | buildscripts/buildlogger.py:278-279 | a rejected line is overtaken by the next one |
| `FailFile.PopAll` | buildscripts/smoke.py:1103-1104 | deleting ascending positions one by one, each shifted by the number of deletions so far, is filtering those positions out, order kept |
| `FailFile.KeepAt` | buildscripts/smoke.py:1103-1104 | an entry that is kept comes after exactly those kept before it, and there is nothing else |
| `FailFile.PickedAt` | buildscripts/smoke.py:698-701 | a test in a list of results comes after exactly those put there before it, and there is nothing else |
| `FailFile.Smoke.RunTests` | buildscripts/smoke.py:680-746 | the loop ends early with the first test that has a server failure, an exception or, unless told to continue, a failure; of the tests begun those neither passed nor skipped stay in `fails`, and the passed ones are added to `winners`, in order |
| `FailFile.BegunPartition` | buildscripts/smoke.py:693-746 | the tests begun are those passed, those failed and those skipped |
| `FailFile.Smoke.RunEntry` | buildscripts/smoke.py:1088-1101 | a missing file counts as passed and as a winner, a test is passed if it added a winner, and an exception leaves no note |
| `FailFile.Smoke.RunOldFails` | buildscripts/smoke.py:1060-1111 | without a readable file of this version the file is removed; otherwise the entries removed are, in order, those of the winners added, but for a winner at the entry where an exception ends the loop; entries of tests that fail again and all entries from an exception on are kept |
| `FailFile.Smoke.AddToFailfile` | buildscripts/smoke.py:1115-1128 | the failures are merged into the list on file, whatever version wrote it |
| `FailFile.MergedHolds` | buildscripts/smoke.py:1122-1124 | the merged list holds the old entries and the new failures, and nothing else |
| `FailFile.MergedInOrder` | buildscripts/smoke.py:1122-1124 | new entries stand behind the old ones, in the order in which their tests first failed |
| `FailFile.UseKeepsDistinct` | buildscripts/smoke.py:1060-1128 | each of the uses of the fail file keeps its entries distinct |
| `FailFile.NeverTwice` | buildscripts/smoke.py:1060-1128 | over every history of full runs, old-fails runs and resets, by any versions of the script, no (test, options) pair is in the file twice |
| `CrossProduct.TupleCount` | buildscripts/packager.py:220-234 | for one or more sequences there are as many tuples as the product of the lengths |
| `CrossProduct.TupleAt` | buildscripts/packager.py:220-234 | component `i` of tuple `k` is the element of sequence `i` at `k` divided by the product of the later lengths, modulo its own length |
| `CrossProduct.EachCombinationOnce` | buildscripts/packager.py:220-234 | every combination of positions belongs to exactly one tuple number |
| `CrossProduct.InLexicographicOrder` | buildscripts/packager.py:229-234 | the tuples come in lexicographic order of their positions |

## Left out

- The server and its pub/sub commands: their source is not part of this model.
- `site_scons/libdeps.py`: the emitter that builds the direct dependencies, the system libraries and the sorting of the result; the direct dependencies are fixed before the first query.
- `buildscripts/emr/FileLock.java`: the constructor's creation and closing of a missing file, outside the lock; on systems where closing one channel of a file drops the locks its JVM holds on it, that close can drop a held file lock, which the model does not capture.
- `buildscripts/emr`: fairness and liveness of the lock, and the job submission around it; `Semaphore` and `FileChannel.lock` are taken by their documented behaviour.
- `buildscripts/errorcodes.py`: the regular expressions that find codes and bare asserts, the spaces normalised in rewritten lines, the error document, and the older `assignErrorCodes`.
- `buildscripts/cpplint.py`: the regular expressions that find class heads, includes and start patterns, `CloseExpression`, the style checks that only look at one line, and the splitting of the filter flag at its commas.
- IncludeOrder.IncludeState.IsInAlphabeticalOrder: takes the canonical form of a header path as any function of the path, because no property depends on which one.
- LintState.CppLintState.ShouldPrintError: takes the suppression by comment as a given truth value, because finding those comments is a regular expression.
- LogAppender.Appender.Drain: does not model the second loop of `wrap_test`, which asks for more than five of five tries and so never repeats.
- `buildscripts/smoke.py`: starting servers, expanding suites and the report; the outcome of each test is an input.
- Packaging, download, S3 and documentation scripts: plumbing around external tools.
