# Verified models of phoenix-rtos-tests

A Dafny project that models the parts of the Phoenix-RTOS test repository that have
behaviour of their own: the unclaimed-interrupt test program with the dispatcher it
exercises, the compilers from expected output to regular expressions, the harnesses that
turn logs into results, the allocator exerciser, the connection test and the character
string generator. `dafny verify dfyconfig.toml` checks all of it.

## What is modelled

**The unclaimed-interrupt guard** (`Gicd`, `UnclaimedGuard`, `GuardContract`,
`UnclaimedTest`). One line of the interrupt controller, the kernel dispatcher and the
test's two handlers form a step system: acknowledge, count, re-pend, second handler,
account and mask, end of interrupt. The main thread's reads and writes are separate
steps, with any number of interrupt steps before each; it reads and pends the line
through the distributor's register words (`Gicd`). The dispatcher is not in the
repository; it is built from the contract in the header of `irq_unclaimed.c` and has
these parameters: its threshold (or none), whether a claim keeps a delivery from
counting, whether a released line does, and whether it enables the line for the first
handler, enables it again for a further one, and disables it with the last. These further
assumptions are explicit:

- all registered handlers are called on each delivery, and one claim is a claim;
- masking starts a new run of counted deliveries;
- a deadline passes only after the interrupt side went quiet and was polled once more;
- a sleep lasts until the line is quiet or one more delivery was counted.

UNCLAIMED_LIMIT is any number from 1 on. Counters are unbounded; `Test` proves that
`fired` stays within 7 * LIMIT + 3, which is 700003 for the program's limit, so the
32-bit counters of the program do not wrap.

**Expected output as regular expressions** (`Regex`, `RegexEscape`, `CreateRegex`,
`PlainOutput`). Expressions are strings, as in the harnesses. `Regex` has a parser for
the fragment they use (characters, escapes, the dot, groups, bars, `*`, `+`, `?`) and the
language each expression denotes; the theorems are about parsing the strings the
harnesses build.

**Log readers** (`TestTypes`, `LsbNumbers`, `LsbTracker`, `Busybox`). Events are already
recognised lines. Both harnesses are loops proved equal to a fold over the events, and
the theorems are about every sequence of events.

**Programs** (`Pmt`, `Sockets`, `TestData`). The allocator exerciser runs against a heap
whose operations demand what C demands; the connection test is a set of counters under
every interleaving of outcomes; the generator fills an array.

## What turned out to be conditional

- The interrupt test passes a correct kernel and no other, with one exception: a kernel
  that ignores both the claim and the released line passes when its threshold is exactly
  five times the limit, because phases A and B use up four limits of it and phase C the
  fifth (`UnclaimedTest.Board.Test`; run on that kernel,
  `UnclaimedTest.IgnoringKernelPasses`).
- The idle poll can answer while a delivery is under way exactly when the count passes
  through the target on its way to a higher one and the delivery in flight, if there is
  one, leaves the line armed (`UnclaimedGuard.PollTrustworthyIff`; an armed line polled
  for the count it is at, `UnclaimedGuard.ArmedLineFoolsPoll`). The program never waits
  for such a target.
- The connection test draws a random disconnect time when the connect time is random,
  while the stop time looks at the disconnect time. The common stop follows every
  disconnect of a setup exactly when the setup's two times agree or the stop leaves room
  for any random time after its last attempt (`Sockets.StopFollowsDisconnectsIff`,
  `Sockets.Plan`; on its own, a random connect time with disconnect time 0 fails,
  `Sockets.StopCanComeFirst`). The program's own setups leave both random and agree.
- Expected output is accepted by its own normalised expression exactly when LF and CRLF
  are its only line boundaries (`PlainOutput.AcceptsItselfIff`; a lone CR,
  `PlainOutput.LoneCrIsNotAccepted`).
- Busybox lines are conserved up to the end of the suite. Some are left in no result
  exactly when a line comes neither right after a failure nor before another result
  (`Busybox.PendingIff`). A failed last result does not save them: a START after it
  cuts its lines off (`Busybox.LinesCanBeLeftOver`).
- The LSB-VSX numbering is ascending and complete exactly while no testcase ended, or
  the selection was in order so far: the numbers used and the next one increase from 1
  on, no more testcases ended than were selected, and once all have, the last number is
  within the count (`LsbTracker.NumbersAscendIff`; for runs of all selected testcases,
  `LsbTracker.CompleteRunIff`). The harness also accepts selections such as {3,1} and
  numbers beyond the count (`LsbTracker.SelectionsOutOfOrder`). A test that selects
  nothing stands for 99 testcases, so a longer one is misnumbered from the hundredth on
  (`LsbTracker.DefaultRunIff`, `LsbTracker.HundredthIsMisnumbered`).

## Model

| member | source | states |
|---|---|---|
| `Gicd.PackedBit` | irqunclaimed/irq_unclaimed.c:76-79 | bit k of a register word is set exactly when interrupt base + k is in that state |
| `Gicd.OneShifted` | irqunclaimed/irq_unclaimed.c:82-85 | a one shifted by k has bit k set and no other |
| `Gicd.ShiftFits` | irqunclaimed/irq_unclaimed.c:82-85 | the shifted value fits a 32-bit word for every interrupt |
| `Gicd.AddressesAreDistinct` | irqunclaimed/irq_unclaimed.c:53-57 | for every implemented interrupt the word lies inside its bank, the four banks share no word, and no two interrupts share a bit |
| `Gicd.Distributor.Bit` | irqunclaimed/irq_unclaimed.c:76-79 | the single-bit read is one exactly when that interrupt is enabled, pending or active |
| `Gicd.Distributor.SetBit` | irqunclaimed/irq_unclaimed.c:82-85 | the single-bit write changes the addressed state of that one interrupt and nothing else |
| `UnclaimedGuard.Quiesce` | irqunclaimed/irq_unclaimed.c:24-27 | every storm ends, in a quiet and consistent line |
| `UnclaimedGuard.StepsConfluent` | irqunclaimed/irq_unclaimed.c:8-27 | after any number of steps the line still comes to rest in the same state, counters only grow, a quiet line does not move |
| `UnclaimedGuard.StormOutcome` | irqunclaimed/irq_unclaimed.c:8-27 | for every dispatcher, mode, budget and run so far: number of deliveries, masked or not, what stays latched and what is left of the budget |
| `UnclaimedGuard.DeliveriesBounded` | irqunclaimed/irq_unclaimed.c:89-101 | no schedule delivers more often than the pend, the budget and the delivery in flight allow |
| `UnclaimedGuard.DeclinedAndHeld` | irqunclaimed/irq_unclaimed.c:19-27 | masked exactly when the budget reaches the threshold, after exactly threshold deliveries, pend latched; without the guard budget + 1 deliveries and rest |
| `UnclaimedGuard.ClaimedAndHeld` | irqunclaimed/irq_unclaimed.c:17-18 | budget + 1 deliveries, never masked, whatever the threshold |
| `UnclaimedGuard.EnabledThroughout` | irqunclaimed/irq_unclaimed.c:14-18 | a line found enabled at the end of a phase was not masked at any step of it |
| `UnclaimedGuard.DeclinedAndReleased` | irqunclaimed/irq_unclaimed.c:14-16 | n pends are n deliveries and never mask, for every n |
| `UnclaimedGuard.PollSound` | irqunclaimed/irq_unclaimed.c:125-136 | for every interleaving of the four reads: an idle answer with a target the run does not exceed means the line is at rest |
| `UnclaimedGuard.PollTrustworthyIff` | irqunclaimed/irq_unclaimed.c:125-136 | from any state some interleaving makes the poll lie exactly when the count passes through the target and the line is armed when the delivery in flight ends; between deliveries the first condition is enough |
| `UnclaimedGuard.ArmedLineFoolsPoll` | irqunclaimed/irq_unclaimed.c:133-134 | an armed line polled for its present count can be reported idle |
| `GuardContract.AccountKeepsContract` | irqunclaimed/irq_unclaimed.c:8-10 | one accounting step keeps the counter equal to the tail of counted deliveries and the log within the contract |
| `GuardContract.GuardMeetsContract` | irqunclaimed/irq_unclaimed.c:8-10 | in every reachable state of every interleaving, a delivery masked the line exactly when it was the threshold-th in a row declined and still pending |
| `GuardContract.ContractDeterminesMasking` | irqunclaimed/irq_unclaimed.c:8-10 | histories that agree on what was claimed and held and meet the contract mask the same deliveries: every dispatcher that meets it masks as this one |
| `GuardContract.OnlyDueDeliveriesMask` | irqunclaimed/irq_unclaimed.c:8-10 | the kernel takes an enabled line out of service only in such a delivery |
| `UnclaimedTest.Board.Pend` | irqunclaimed/irq_unclaimed.c:82-85 | a write to the set-pending bank pends this line and changes no other interrupt |
| `UnclaimedTest.Board.Acknowledge` | irqunclaimed/irq_unclaimed.c:24-25 | acknowledging consumes the pend and makes the line active |
| `UnclaimedTest.Board.CountInFirst` | irqunclaimed/irq_unclaimed.c:89-94 | the first half of the handler, as a step |
| `UnclaimedTest.Board.RependInFirst` | irqunclaimed/irq_unclaimed.c:95-101 | the second half: re-pend within the budget, and the answer |
| `UnclaimedTest.Board.RunSecond` | irqunclaimed/irq_unclaimed.c:104-112 | the second handler counts and claims |
| `UnclaimedTest.Board.AccountDelivery` | irqunclaimed/irq_unclaimed.c:8-10 | the dispatcher's accounting, as a step |
| `UnclaimedTest.Board.Interfere` | irqunclaimed/irq_unclaimed.c:66-73 | any number of interrupt steps between two accesses to the shared variables |
| `UnclaimedTest.Board.Poll` | irqunclaimed/irq_unclaimed.c:133-134 | the condition as up to four reads with steps in between |
| `UnclaimedTest.Board.WaitIdle` | irqunclaimed/irq_unclaimed.c:125-146 | with a target the run does not exceed the line is at rest on return and the answer is 0 exactly when the target was reached |
| `UnclaimedTest.Board.WaitMaskedOrStalled` | irqunclaimed/irq_unclaimed.c:149-160 | with interrupt steps before each of the loop's reads, the line is at rest on return |
| `UnclaimedTest.Board.PhaseA` | irqunclaimed/irq_unclaimed.c:230-241 | passes exactly on kernels that enable the line and do not count released deliveries up to 2 * LIMIT; counts 2 * LIMIT deliveries |
| `UnclaimedTest.Board.PhaseB` | irqunclaimed/irq_unclaimed.c:243-253 | passes exactly on kernels that do not mask the claimed line |
| `UnclaimedTest.Board.PhaseC` | irqunclaimed/irq_unclaimed.c:255-270 | masked or not and after how many deliveries; on success the pend stays latched |
| `UnclaimedTest.Board.Register` | irqunclaimed/irq_unclaimed.c:22 | a new handler is added and the line enabled as the kernel does it; nothing else changes |
| `UnclaimedTest.Board.PhaseD` | irqunclaimed/irq_unclaimed.c:272-291 | passes exactly on kernels that enable the line again; then the second handler gets the latched pend and the next one, and both handlers count both |
| `UnclaimedTest.Board.Cleanup` | irqunclaimed/irq_unclaimed.c:294-308 | the line is left not pending and without handlers; it is found still enabled exactly if it was enabled and the kernel does not disable it |
| `UnclaimedTest.Board.Phases` | irqunclaimed/irq_unclaimed.c:229-292 | the phases in order, each run only after the one before it passed |
| `UnclaimedTest.VerdictByPhases` | irqunclaimed/irq_unclaimed.c:229-308 | for every kernel and limit the phases and the cleanup come to the verdict table |
| `UnclaimedTest.Board.Test` | irqunclaimed/irq_unclaimed.c:203-319 | skipped exactly when the number is out of range, the line is in use or registering fails; otherwise for every kernel, limit and interleaving the verdict of the table, hence exactly which kernels pass; the line is left as found unless the kernel leaves it enabled, and no other interrupt changes |
| `UnclaimedTest.IgnoringKernelPasses` | irqunclaimed/irq_unclaimed.c:169-320 | the program run on the kernel that heeds neither claim nor release: it passes |
| `Regex.ReadsCrPlusLf` | micropython/micropython.py:8 | the spelling of a line break denotes one or more CR, then LF |
| `Regex.ReadsGroupedCrPlusLf` | micropython/micropython_repl.py:21-22 | so does the other harness's spelling |
| `Regex.ReadsOptionalCrLf` | micropython/micropython_norootfs.py:13 | the optional-CR break denotes LF or CRLF |
| `Regex.ReadsAnything` | micropython/micropython.py:55-57 | the replacement for the hashes denotes every text |
| `RegexEscape.StandardRegexEscape` | micropython/micropython.py:26-46 | the loop renders the tokens of the text |
| `RegexEscape.ReplRegexEscape` | micropython/micropython_repl.py:12-33 | the other loop renders the same tokens, with its own line break |
| `RegexEscape.EscapeReads` | micropython/micropython.py:26-46 | in front of anything, an escaped text denotes its outputs and no character of it acts as an operator |
| `RegexEscape.EscapeMeaning` | micropython/micropython.py:26-46 | for every backslash-free text both escapers denote exactly the intended outputs, so they agree |
| `RegexEscape.OutputsCharacterised` | micropython/micropython.py:8 | the outputs are the texts equal up to CR in which each LF follows a CR and each CR leads to an LF |
| `RegexEscape.BackslashedPatternSurvives` | micropython/micropython.py:26-46 | any pattern without line breaks, written with a backslash before each character, comes out unchanged |
| `CreateRegex.NoHashesLeft` | micropython/micropython.py:49-59 | for every input the result holds no eight hashes |
| `CreateRegex.FirstPassIdle` | micropython/micropython.py:55 | the first replacement finds nothing in any text without backslashes |
| `CreateRegex.FirstPass` | micropython/micropython.py:55 | the first replacement takes exactly the gaps written as hashes and a line of one or more characters |
| `CreateRegex.SecondPassStep` | micropython/micropython.py:56 | the second replacement takes the line break before the hashes with them, and nothing else |
| `CreateRegex.ThirdPass` | micropython/micropython.py:57 | the third replacement takes exactly the remaining hashes |
| `CreateRegex.CreateMeaning` | micropython/micropython.py:49-59 | for every sequence of plain texts with gaps between them, written in either of the two ways: the exact language of the result |
| `CreateRegex.GapsAccepted` | micropython/micropython.py:49-59 | every output with any text for each gap is accepted |
| `CreateRegex.HashesMatchAnything` | micropython/micropython.py:54-57 | a + w + b is accepted for a and b as expected, either gap and any w, also when the first part ends in a line break |
| `PlainOutput.NormalizeLayout` | micropython/micropython_norootfs.py:8-18 | for every text: the lines in order with LF or CRLF between them, and a last break if the text ends in LF |
| `PlainOutput.NormalizeMeaning` | micropython/micropython_norootfs.py:8-18 | exactly the texts that differ in the spelling of line breaks only |
| `PlainOutput.AcceptsItselfIff` | micropython/micropython_norootfs.py:12-16 | a text is accepted by its own expression exactly when LF and CRLF are its only boundaries |
| `PlainOutput.LoneCrIsNotAccepted` | micropython/micropython_norootfs.py:12-16 | a lone CR is not |
| `PlainOutput.SameExpression` | micropython/micropython_norootfs.py:9-11 | LF and CRLF forms of a text give the same expression |
| `TestTypes.TestResult.AddSubresult` | trunner/types.py:253-267 | one more subresult, distinct from all others, which the caller can go on changing |
| `LsbNumbers.PartOfItem` | lsb_vsx/lsb_vsx.py:20-24 | a printed number is read back as that number, a printed range as all its numbers, both ends included |
| `LsbNumbers.GetSubtestsNumbers` | lsb_vsx/lsb_vsx.py:10-26 | the loop collects the parts in order and fails on the first bad one |
| `LsbNumbers.SelectionRoundTrip` | lsb_vsx/lsb_vsx.py:10-26 | every printed list of numbers and ranges is read back as the numbers it means, wherever the braces stand |
| `LsbTracker.Harness` | lsb_vsx/lsb_vsx.py:29-99 | the loop equals the fold over the events; it raises exactly on an unreadable or empty selection or a log without its end |
| `LsbTracker.TallyIs` | lsb_vsx/lsb_vsx.py:64-71 | each counter is the number of statuses of its kind, unknown words counted as failures |
| `LsbTracker.VerdictIff` | lsb_vsx/lsb_vsx.py:98-99 | on every trace OK exactly when a status was seen, none failed and no error appeared |
| `LsbTracker.EndReported` | lsb_vsx/lsb_vsx.py:73-84 | the end of a testcase adds its entry and the skipped gap up to the next selected number |
| `LsbTracker.EntriesAscend` | lsb_vsx/lsb_vsx.py:53-84 | at every moment the entries are testcases 1 up to the current one, once each, with their own results, the unselected ones skipped |
| `LsbTracker.NumbersAscendIff` | lsb_vsx/lsb_vsx.py:53-84 | for every selection and every trace with one start: the reported numbers are 1 up to the current one exactly while no testcase ended or the selection was in order so far |
| `LsbTracker.CompleteRunIff` | lsb_vsx/lsb_vsx.py:53-84 | a run of all selected testcases reports 1 to count exactly for increasing selections within the count |
| `LsbTracker.SelectionsOutOfOrder` | lsb_vsx/lsb_vsx.py:10-26 | {3,1} is accepted and reported as 1, 2, 3, 1, 2, 3; {2} of one testcase as 1, 2 |
| `LsbTracker.Reader.On` | lsb_vsx/lsb_vsx.py:53-96 | one line of the log changes the harness's variables as one step of the fold |
| `LsbTracker.CompleteRun` | lsb_vsx/lsb_vsx.py:53-84 | such a run fills in exactly the unselected ones and gives every selected one its own result |
| `LsbTracker.DefaultRunIff` | lsb_vsx/lsb_vsx.py:11-13 | a test that selects nothing and runs all of its testcases reports 1 to count exactly if there are at most 99 |
| `LsbTracker.HundredthIsMisnumbered` | lsb_vsx/lsb_vsx.py:73-84 | of 100 testcases the last is reported as 101 and 100 as skipped |
| `LsbTracker.JoinLinesIsJoin` | lsb_vsx/lsb_vsx.py:90-92 | as no line is empty, what is built up line by line is the lines with a newline between any two |
| `LsbTracker.ErrorTextIs` | lsb_vsx/lsb_vsx.py:94-99 | the reported message is all error lines in order, with newlines between them |
| `LsbTracker.WellFormedResults` | lsb_vsx/lsb_vsx.py:59-92 | each testcase with one status comes to that status and its lines joined by newlines |
| `LsbTracker.WellFormedCounts` | lsb_vsx/lsb_vsx.py:64-71 | the counters add up to the number of testcases |
| `LsbTracker.WellFormedVerdict` | lsb_vsx/lsb_vsx.py:98-99 | OK exactly when at least one testcase appeared, none failed and no error did |
| `Busybox.Reader.OnMessage` | busybox/busybox.py:52-58 | a line is appended through the kept reference to a failed result, or to the pending buffer |
| `Busybox.Reader.OnResult` | busybox/busybox.py:60-67 | a result takes the pending lines and becomes the kept reference |
| `Busybox.Harness` | busybox/busybox.py:34-72 | the loop with its aliased result equals the fold over the events up to the end of the suite; without that end it returns no status |
| `Busybox.LinesReachTheirOwner` | busybox/busybox.py:52-67 | the message of each testcase is exactly the lines that belong to it, in order; the pending ones belong to the next |
| `Busybox.LinesConserved` | busybox/busybox.py:34-72 | messages in order plus the pending buffer are all message lines: none lost, repeated or reordered |
| `Busybox.PendingIff` | busybox/busybox.py:48-67 | lines are left over exactly when some line is neither right after a failure nor before another result |
| `Busybox.LinesCanBeLeftOver` | busybox/busybox.py:48-58 | two logs with a line in no result; in the second the only result is a failure |
| `Busybox.FailsIffSomeResultFails` | busybox/busybox.py:60-66 | the suite fails exactly when some result is a failure |
| `Pmt.OwnsAllocated` | mem/pmt.c:35-43 | a new filled block in an unset slot: one owner, the wanted size |
| `Pmt.OwnsFreed` | mem/pmt.c:47-50 | a freed slot's block was live, or null where its size is zero, and had no other owner |
| `Pmt.OwnsMoved` | mem/pmt.c:66-74 | a reallocated block keeps its owner and no other block changes |
| `Pmt.Exerciser.AllocateAll` | mem/pmt.c:35-43 | every slot owns a filled block of its size |
| `Pmt.Exerciser.FreeTail` | mem/pmt.c:47-50 | exactly the slots from 16 on gave theirs up |
| `Pmt.Exerciser.CallocTail` | mem/pmt.c:54-62 | they own blocks of twice a quarter of the size, filled to the end, and possibly none where that is zero |
| `Pmt.Exerciser.ReallocEven` | mem/pmt.c:66-74 | exactly the even slots have the new size |
| `Pmt.Exerciser.FreeFirstHalf` | mem/pmt.c:78-81 | exactly the first half gave theirs up |
| `Pmt.Exerciser.AllocateFirstHalf` | mem/pmt.c:85-93 | they own blocks of the third size rule |
| `Pmt.Exerciser.FreeAll` | mem/pmt.c:97-103 | only the blocks from before are left |
| `Pmt.Exercise` | mem/pmt.c:15-110 | for every count and cap no demand of the heap is broken and the heap is left as it was found; the program gives up only without buffers to keep |
| `Sockets.CountersConserved` | net/network-sockets.py:31-44 | over every interleaving: errors are iterations less successful chains, every established connection is open, closed or lost, every iteration is accounted for |
| `Sockets.SocketTestSetup.MakeConnection` | net/network-sockets.py:80-81 | an attempt is counted and is under way |
| `Sockets.SocketTestSetup.GotProtocol` | net/network-sockets.py:122-132 | counts first; sending or scheduling can fail afterwards |
| `Sockets.SocketTestSetup.CountError` | net/network-sockets.py:138-141 | only a protocol that came all the way is taken off the errors |
| `Sockets.SocketTestSetup.Settle` | net/network-sockets.py:80-88 | the chain of callbacks has the effect of the event |
| `Sockets.SocketTestSetup.ConnectionLost` | net/network-sockets.py:113-120 | clean closes and losses are counted apart |
| `Sockets.SocketTestSetup.ScheduleEvents` | net/network-sockets.py:66-71 | the attempt times are the partial sums and the last is the latest |
| `Sockets.ScheduleStopEvent` | net/network-sockets.py:91-97 | one second after the latest end, which is some setup's or the start |
| `Sockets.StopFollowsDisconnectsIff` | net/network-sockets.py:122-132 | the stop follows every disconnect, for all draws and latencies below a second, exactly when the two times agree or the stop leaves room for any random time |
| `Sockets.StopCanComeFirst` | net/network-sockets.py:122-132 | with a random connect time and disconnect time 0 it need not |
| `Sockets.Plan` | net/network-sockets.py:160-163 | with any number of setups and one stop, exactly which setups are done before it |
| `TestData.CreateCharStr` | libc/testdata.c:20-38 | the filled buffer is the specified string |
| `TestData.CharStrContents` | libc/testdata.h:22-31 | for every size: one terminator, at the end; 1, 1, 2, ... up to 257; all non-zero bytes exactly from 257 on |

## Left out

- Option parsing and mapping of the distributor page in `irq_unclaimed.c`: no behaviour beyond their guards.
- The wall clock: waiting is bounded by the interrupt side, as described above, not by milliseconds.
- Other texts with backslashes in expected output than the gaps of `CreateRegex`: beyond `RegexEscape.BackslashedPatternSurvives` and `CreateRegex.NoHashesLeft` they are arbitrary Python expressions, most of them outside the parsed fragment.
- `re.match` accepts a prefix of the output; the theorems are about the language of the whole expression.
- `create_regex` of `micropython_repl.py`: its replacement strings use another spelling of the line break than its escaper.
- Recognising log lines with patterns: events are given, and a timeout is the end of the events.
- `int()` of digits outside ASCII in `LsbNumbers`.
- Negative counts and caps in `pmt.c`, which `strtol` accepts. Failing allocations of blocks that are not empty in `pmt.c`, which it does not check; `memset` of no bytes through a null pointer is taken to do nothing; the USE_AFTER_FREE variant, which writes to freed blocks on purpose, is not modelled.
- Negative iteration counts in `network-sockets.py` and negative sizes in `testdata.c`.
- The other harnesses (mbedtls, CoreMark-PRO, psh, unity): their loops over log lines repeat that of the Busybox harness without its shared reference.
- The test runner: wiring of targets and hosts, and input and output.
