# Verified models of the real-time micro benchmark

RTMB measures how predictable a machine is. This project models the parts of its C, C++ and Java sources whose
correctness is decided by code: the protocols between the measuring threads and processes, the search that calibrates a
test, the statistics and scores, the report and its reader, the histogram, and two arithmetic kernels. Dafny 4.11 proves
the properties below for every input, every number of threads and every run. `dafny verify dfyconfig.toml` checks the
whole project. Nothing was executed.

## How the protocols are modelled

`Runs.dfy` defines runs, reachable states, invariants and bounded runs of a transition system. A protocol is a state
with one program counter per thread; one step is one lock, unlock, wait, signal, broadcast, clock reading or shared
access, and any enabled thread may take the next one. A signalled thread stays asleep until it has its mutex back.

- `Handoff.dfy` and `HandoffLimits.dfy`: the event-dispatch sender and receiver. A flag of the configuration says
  whether the sender unlocks before it reads its end clock, as the C++ twin (`signal_notifier.cpp`) does. POSIX lets
  `pthread_cond_wait` wake spuriously (`pthread_cond_wait()`, System Interfaces volume of IEEE Std 1003.1-2017); the
  main results assume that it does not, and `RobustExactlyWhen` says precisely what is lost if it does. The program
  starts with two sub iterations and doubles; zero is covered by `DeadlockFreeExactlyWhen`. A signal wakes any non-empty
  set of waiters.
- `Barrier.dfy` and `BarrierLostSignal.dfy`: the gather / broadcast / drain barrier for n workers, without spurious
  wakeups, whose effect `BarrierSpurious.dfy` characterises; reads of the counter outside the mutex are atomic and see
  the latest value, and the gather loop's timed wait, whose deadline is one second after the epoch, may end whenever it
  can lock its mutex again. The worker and parent code of `multi_thread_test.c`, `thread_priority_test.c` and
  `multi_thread_test.cpp` take the same steps.
- `BarrierWakeup.dfy`: what the signal of the drain half does, over whole runs.
- `JavaLatch.dfy`: the counter latch of `CompilationTest`, with spurious wakeups.
- `Echo.dfy` and `EchoProgress.dfy`: client and server of the network test over two FIFO channels of bounded capacity.
  Every send and receive moves an arbitrary positive number of bytes, and neither side fails. The server's first buffer
  holds arbitrary bytes.

## How the sequential parts are modelled

Objects that the sources update in place are classes (`TestResults.dfy`, `CppResults.dfy`, `ReportReader.dfy`,
`Report.dfy`); loops are loops, proved against the reference definitions of `Statistics.dfy`, `Verdict.dfy`,
`Scores.dfy` and `Text.dfy`. Each definition has laws that do not name it: `Median.dfy` says what the median is of the
sample itself, `PassesExactlyWhen` what the verdict counts, `ScoreFigures` what a score's fields are, and
`ReportFigures.dfy` and `ReportNames.dfy` what a reader finds under every caption of a report. C division and casts
truncate toward zero (`TruncDiv`, `Trunc`). `double` is `real`, and `Doubles.dfy` adds the infinities and NaN where the
scores may divide by zero; the integers are unbounded. `qsort`, `std::sort` and `Arrays.sort` are `Statistics.Sort`, the
only sorted permutation of its input; the comparator at `result_mgmt.c:957-962` returns 0 or 1 only, which `qsort` does
not promise to accept, and is taken to order the values. Measurements are an oracle: the k-th measurement at quantum q
returns any sample of times of at least q, because a sleep does not end early. A report's floating-point scores and
deviation enter the printer as the thousandths that `%.3f` rounds them to; measured times are exact.

Where a promise turned out false of the code, the model keeps the code, gives a witness, and proves the exact condition:
the drain half of the barrier (`CanHangExactlyWhen`, and run by run `HangsExactlyWhen`), its release half with spurious
wakeups (`EarlyStartExactlyWhen`, `CanPollForeverExactlyWhen`), the handoff without sub iterations or with spurious
wakeups (`DeadlockFreeExactlyWhen`, `RobustExactlyWhen`), the C++ maximum that starts at zero
(`NegativeTimeHasMaximumZero`, `MaxIsExactExactlyWhen`), the verdict around a negative median (`MonotoneExactlyWhen`: a
median that is not negative or a positive range), the contribution of measured times around a negative median
(`UnimodalExactlyWhen`: a median of at least -1), finite scores (`ScoreIsFiniteExactlyWhen`), the mean of results of
unequal lengths (`MeanCanExceedMaximum`, `MeanIsExactExactlyWhen`), and reports of several results
(`ReadsBackExactlyWhen`).

## Model

| member | source | states |
|---|---|---|
| Handoff.SignalFindsTheOtherThread | rtmb_c/src/testcase/event_dispatch_test/signal_notifier.c:71-113 | whenever a thread is about to signal the shared condition, the wait set is exactly the other thread |
| Handoff.SenderKeepsControl | rtmb_c/src/testcase/event_dispatch_test/signal_notifier.c:43-93 | every sender step keeps the invariant over both mutexes, both wait sets, the flag and both program counters |
| Handoff.ReceiverKeepsControl | rtmb_c/src/testcase/event_dispatch_test/signal_notifier.c:95-120 | every receiver step keeps that invariant |
| Handoff.NextKeepsInv | rtmb_c/src/testcase/event_dispatch_test/signal_notifier.c:43-120 | every step of either thread keeps the whole invariant, including the signal count and the slots written so far |
| Handoff.SomeThreadCanMove | rtmb_c/src/testcase/event_dispatch_test/signal_notifier.c:43-120 | from the invariant alone, some thread can move unless both have finished |
| Handoff.StuckOnlyWhenFinished | rtmb_c/src/testcase/event_dispatch_test/signal_notifier.c:43-120 | deadlock freedom: with at least one sub iteration a reachable state is stuck if and only if both threads have finished |
| Handoff.NoSignalIsLost | rtmb_c/src/testcase/event_dispatch_test/signal_notifier.c:64-117 | in every reachable state a signal finds exactly the other thread, the flag is down when the receiver raises it and up when the sender clears it, and the critical sections exclude each other |
| Handoff.RoundTripsAgree | rtmb_c/src/testcase/event_dispatch_test/signal_notifier.c:64-117 | completed round trips differ by at most one and the receiver is never behind nor more than one major iteration ahead |
| Handoff.IntervalCoversItsRoundTrips | rtmb_cpp/src/testcase/event_dispatch/signal_notifier.cpp:58-72 | in the C and in the C++ order of unlock and clock reading, exactly two signals per sub iteration are sent between the start and the end clock of a major iteration |
| Handoff.SlotsHoldTheirReadings | rtmb_c/src/testcase/event_dispatch_test/signal_notifier.c:69-90 | slot k of each array holds the clock reading that major iteration k made, and the recorded intervals neither run backwards nor overlap |
| Handoff.StepDropsRank | rtmb_c/src/testcase/event_dispatch_test/signal_notifier.c:59-120 | a well-founded measure drops at every step of either thread |
| Handoff.RunsTerminate | rtmb_c/src/testcase/event_dispatch_test/signal_notifier.c:59-120 | however the threads interleave, a run has at most (19 + 6*sub)*major + 6*sub + 17 steps |
| Handoff.MaximalRunsComplete | rtmb_c/src/testcase/event_dispatch_test/signal_notifier.c:59-120 | every run that cannot be continued ends with both threads finished, 2*major*sub signals sent, each slot of both time arrays written exactly once with its own iteration's reading, and intervals in order |
| HandoffLimits.LappingDeadlocks | rtmb_c/src/testcase/event_dispatch_test/signal_notifier.c:43-57 | with no sub iterations and at least two major ones a deadlock is reachable |
| HandoffLimits.DeadlockFreeExactlyWhen | rtmb_c/src/testcase/event_dispatch_test/signal_notifier.c:43-120 | no reachable deadlock if and only if there is a sub iteration or at most one major iteration |
| HandoffLimits.SpuriousWakeupsDeadlock | rtmb_c/src/testcase/event_dispatch_test/signal_notifier.c:77-79 | if waits may wake spuriously, every configuration that makes a round trip can end with the receiver done and the sender waiting forever |
| HandoffLimits.RobustExactlyWhen | rtmb_c/src/testcase/event_dispatch_test/signal_notifier.c:71-113 | with spurious wakeups the handoff is deadlock free if and only if it makes no round trip and has at most one major iteration |
| Barrier.NextKeepsInv | rtmb_c/src/testcase/multi_thread_test/multi_thread_test.c:293-309 | for every number of workers each step of a worker or of the parent keeps the quantified invariant |
| Barrier.BroadcastReachesEveryWorker | rtmb_c/src/testcase/multi_thread_test/multi_thread_test.c:293-302 | at the broadcast the wait set is all n workers, including the one whose increment the unlocked read has just seen |
| Barrier.NobodyStartsEarly | rtmb_c/src/testcase/multi_thread_test/multi_thread_test.c:450-461 | once one worker is past the gate all have arrived and none is left on the wait set |
| Barrier.CounterIsConserved | rtmb_cpp/src/testcase/multi_thread/multi_thread_test.cpp:424-458 | the counter is arrivals less departures, stays within 0 and n, and is 0 with every worker departed when the parent leaves the drain loop |
| Barrier.StuckExactlyWhen | rtmb_c/src/testcase/multi_thread_test/multi_thread_test.c:305-309 | a reachable state is stuck if and only if all have finished or the parent sleeps with counter 0 and every worker done |
| BarrierWakeup.SleeperIsWoken | rtmb_c/src/testcase/multi_thread_test/multi_thread_test.c:469-484 | for every n a run in which the parent once sleeps while a worker has yet to decrement, to test or to signal can only get stuck with all threads finished: that signal wakes the parent |
| BarrierWakeup.HangsExactlyWhen | rtmb_c/src/testcase/multi_thread_test/multi_thread_test.c:305-309 | a run that cannot go on has hung if and only if at some point the parent was about to wait although no worker was left to decrement, to test or to signal |
| Barrier.WorkStepsAreBounded | rtmb_c/src/testcase/thread_priority_test/thread_priority_test.c:202-218 | a run has at most 13*n + 10 steps outside the gather loop, so it can only run forever by polling |
| BarrierLostSignal.SignalCanBeMissed | rtmb_c/src/testcase/thread_priority_test/thread_priority_test.c:428-443 | for every n > 0 a schedule ends with the parent asleep after the only signal was sent |
| BarrierLostSignal.CanHangExactlyWhen | rtmb_c/src/testcase/thread_priority_test/thread_priority_test.c:214-218 | the barrier can hang if and only if it has a worker |
| BarrierSpurious.EarlyStartExactlyWhen | rtmb_c/src/testcase/multi_thread_test/multi_thread_test.c:450-461 | if waits may wake spuriously, a worker can be at its timed work before another has arrived if and only if there are two |
| BarrierSpurious.AbandonedForGood | rtmb_c/src/testcase/multi_thread_test/multi_thread_test.c:293-298 | once every worker has come and gone while the parent still gathers, no step or spurious wakeup ends the gathering |
| BarrierSpurious.CanPollForeverExactlyWhen | rtmb_c/src/testcase/multi_thread_test/multi_thread_test.c:293-298 | if waits may wake spuriously, a state from which the parent polls in every continuation is reachable if and only if there is a worker |
| JavaLatch.NextKeepsInv | rtmb_java/src/com/ibm/realtime/rtmb/tests/CompilationTest.java:261-288 | each step of a worker or of the main thread, and each spurious wakeup, keeps the latch's invariant |
| JavaLatch.LatchWaitsForEveryWorker | rtmb_java/src/com/ibm/realtime/rtmb/tests/CompilationTest.java:123-129 | the latch opens only when every worker was started and has counted itself down, and the decrement never finds a zero counter |
| JavaLatch.StuckExactlyWhenFinished | rtmb_java/src/com/ibm/realtime/rtmb/tests/CompilationTest.java:261-288 | testing the counter inside the monitor leaves no stuck state but the finished one |
| JavaLatch.StepsAreBounded | rtmb_java/src/com/ibm/realtime/rtmb/tests/CompilationTest.java:123-129 | a run takes at most 12*n + 6 steps and four more for every spurious wakeup |
| Echo.NextKeepsInv | rtmb_c/src/testcase/config_test/net_io_config.c:211-295 | every step of client or server keeps the framing invariant, for any chunking |
| Echo.SidesAgreeOnSize | rtmb_c/src/testcase/config_test/net_io_config.c:461-593 | message m has 512*2^(m div iterations) bytes on both sides, which are never more than one message apart and on the same one while the server receives or sends it |
| Echo.EchoIsFaithful | rtmb_c/src/testcase/config_test/net_io_config.c:487-521 | at most one direction carries bytes, what the server sends back is the client's message, and the client's buffer equals its message throughout a round |
| Echo.SomeProcessCanMove | rtmb_c/src/testcase/config_test/net_io_config.c:211-295 | for every channel capacity some process can step if and only if the two have not both finished |
| Echo.ServerOutlastsClient | rtmb_c/src/testcase/config_test/net_io_config.c:617-634 | the server leaves only after the client has cleared the flag |
| EchoProgress.StepsAreBounded | rtmb_c/src/testcase/config_test/net_io_config.c:211-295 | a run's steps are at most two per byte and one per message of every message that either side has reached, and two more |
| EchoProgress.EveryMessageCompletes | rtmb_c/src/testcase/config_test/net_io_config.c:461-593 | for any chunking and schedule a run longer than messages 0 to m can take has left message m behind, unless the test has ended |
| Calibration.Double | rtmb_c/src/testcase/config_test/timer_config.c:123-171 | the doubling phase ends; attempt k is measured at 2000*2^k, none before the last is accepted, it passes if and only if the last is, and it gives up exactly when `threshold` attempts were long enough; its record holds the last measurement |
| Calibration.DoublingIsUnique | rtmb_c/src/testcase/config_test/timer_config.c:136-171 | an oracle, a clock accuracy and a threshold leave one number of attempts and one outcome |
| Calibration.DoublingPassesExactlyWhen | rtmb_c/src/testcase/config_test/timer_config.c:139-160 | the phase passes if and only if some attempt is accepted that fewer than `threshold` long enough ones come before |
| Calibration.LongEnoughBounds | rtmb_c/src/testcase/util/result_mgmt/include/result_mgmt.h:54-54 | times that all exceed the clock accuracy are long enough, and times none of which exceeds it are not |
| Calibration.Probe | rtmb_c/src/testcase/config_test/timer_config.c:191-220 | a probe replaces the best record exactly when its sample passes, and otherwise leaves it untouched |
| Calibration.ProbeNarrows | rtmb_c/src/testcase/config_test/timer_config.c:189-221 | each probe at least halves the range and, if passing is monotone, everything below the range fails |
| Calibration.Bisect | rtmb_c/src/testcase/config_test/timer_config.c:180-221 | the search keeps a passing measurement with its own quantum and takes logarithmically many probes; it ends at the least passing quantum if passing is monotone, and for any oracle at one whose lower neighbour was measured and failed, short of the ends of the range |
| Calibration.TimerConfig | rtmb_c/src/testcase/config_test/timer_config.c:123-227 | after the doubling phase that the oracle determines the returned record holds a measurement made at its own quantum together with that measurement's statistics, with a median above the clock accuracy; it passes the verdict if and only if that phase passed, and then, for any oracle, its lower neighbour was measured and failed short of the ends of the range, and under monotone passing every smaller quantum fails |
| Statistics.KeyIdentity | rtmb_c/src/testcase/util/result_mgmt/result_mgmt.c:111-119 | n*sum (v-m)^2 == n*sum v^2 - (sum v)^2 + (sum v - n*m)^2 for every m |
| Statistics.VarianceWithinOne | rtmb_c/src/testcase/util/result_mgmt/result_mgmt.c:102-119 | truncated mean and integer division together move the squared deviation by less than 1 from the population variance, for every sample of any sign |
| Statistics.MeansAreTruncated | rtmb_c/src/testcase/util/result_mgmt/result_mgmt.c:102-119 | the mean and the mean of squares are cut off toward zero: n*mean <= sum < n*(mean+1) for a sum that is not negative, mirrored for a negative one |
| Statistics.TruncTowardZero | rtmb_c/src/testcase/util/result_mgmt/result_mgmt.c:193-194 | a cast to integer cuts off less than one, toward zero |
| Statistics.SortSorts | rtmb_c/src/testcase/util/result_mgmt/result_mgmt.c:969-973 | the library sort leaves a sorted permutation |
| Statistics.SortedIsUnique | rtmb_c/src/testcase/util/result_mgmt/result_mgmt.c:969-973 | a sample has only one sorted permutation, so that any correct sort gives the same median |
| Statistics.MedianIsMiddle | rtmb_c/src/testcase/util/result_mgmt/result_mgmt.c:964-983 | the median is the middle of every sorted permutation of the sample |
| Median.MedianExactlyWhen | rtmb_c/src/testcase/util/result_mgmt/result_mgmt.c:964-983 | m is the computed median if and only if it is the average of a value with fewer than half of the sample below and at most half above it and a value with at most half below and fewer than half above it |
| Median.MedianHalves | rtmb_cpp/src/testcase/util/TestResults.cpp:149-171 | at most half of the values are below the median and at most half above it; the median of an odd number of values is one of them |
| Median.MedianReflects | rtmb_cpp/src/testcase/util/TestResultUtils.cpp:200-235 | the median of the negated sample is the negated median |
| TestResults.TestResults.ComputeStdTime | rtmb_c/src/testcase/util/result_mgmt/result_mgmt.c:89-124 | the two passes leave the truncated mean and the truncated mean of squares of exactly the live entries |
| TestResults.TestResults.AddEntry | rtmb_c/src/testcase/util/result_mgmt/result_mgmt.c:39-79 | appends one entry and keeps the record valid: exact extremes when non-empty, exact mean, deviation and truncated median when full |
| TestResults.TestResults.FreeChain | rtmb_c/src/testcase/util/result_mgmt/result_mgmt.c:266-276 | empties the record and keeps it valid although the old extremes stay in place |
| TestResults.TestResults.CheckPassCriteria | rtmb_c/src/testcase/util/result_mgmt/result_mgmt.c:193-213 | the verdict, the recorded limits and the outlier count are those of the live entries around the recorded median: a pass if and only if at least floor(n*a/100) of them lie within the range of it |
| TestResults.GetMedian | rtmb_c/src/testcase/util/result_mgmt/result_mgmt.c:964-983 | returns the median of the values and changes none of them |
| TestResults.CloneResults | rtmb_c/src/testcase/util/result_mgmt/result_mgmt.c:985-1003 | the clone is valid, has the source's entries and statistics and keeps its own array |
| TestResults.CloneThenRecord | rtmb_c/src/testcase/util/result_mgmt/result_mgmt.c:985-1003 | emptying and refilling the source after cloning leaves the clone's entries and statistics as they were |
| TestResults.RecordAll | rtmb_c/src/testcase/config_test/timer_config.c:26-51 | after a whole measurement the record is valid and its entries are the measured times in order |
| Verdict.PassesExactlyWhen | rtmb_c/src/testcase/util/result_mgmt/result_mgmt.c:193-213 | a sample passes if and only if the values v with abs(100*v - 100*median) <= range*median number at least floor(n*a/100), for every median, range and percentage a |
| Verdict.OutliersAreTheRest | rtmb_c/src/testcase/util/result_mgmt/result_mgmt.c:196-206 | the outliers are exactly the values that are farther from the median than that |
| Verdict.MinAcceptableBounds | rtmb_c/src/testcase/util/result_mgmt/result_mgmt.c:193-194 | n*a - 100 < 100*least <= n*a for the required count, mirrored for a negative percentage |
| Verdict.OutliersShrink | rtmb_c/src/testcase/util/result_mgmt/result_mgmt.c:201-206 | limits under which every value that conformed still conforms leave no more outliers |
| Verdict.VerdictIsMonotone | rtmb_cpp/src/testcase/util/TestResults.cpp:298-314 | widening the range or lowering the acceptable percentage never turns a pass into a fail, for a median that is not negative or a positive range |
| Verdict.NegativeMedianBreaksMonotonicity | rtmb_c/src/testcase/util/result_mgmt/result_mgmt.c:196-213 | around every negative median a range that is not positive accepts the median and every positive range rejects it |
| Verdict.MonotoneExactlyWhen | rtmb_c/src/testcase/util/result_mgmt/result_mgmt.c:193-213 | for each median and range, loosening the limits keeps every pass of every sample if and only if the median is not negative or the range is positive |
| CppResults.MaxIsExactExactlyWhen | rtmb_cpp/src/testcase/util/TestResults.cpp:173-177 | the maximum that starts from zero is the maximum of the values if and only if one of them is not negative |
| CppResults.NegativeTimeHasMaximumZero | rtmb_cpp/src/testcase/util/TestResults.cpp:173-177 | a record of a single negative time reports it as the minimum and 0 as the maximum |
| CppResults.ExcessIsSquaredFraction | rtmb_cpp/src/testcase/util/TestResults.cpp:216-234 | the C++ squared deviation exceeds the population variance by exactly the square of the fraction that truncating the mean dropped, hence by less than 1 |
| CppResults.TestResults.constructor | rtmb_cpp/src/testcase/util/TestResults.cpp:27-41 | a new record is empty and valid for its number of iterations |
| CppResults.TestResults.SetMedian | rtmb_cpp/src/testcase/util/TestResults.cpp:149-171 | sets the untruncated median of the entries |
| CppResults.TestResults.SetStdDev | rtmb_cpp/src/testcase/util/TestResults.cpp:216-234 | sets the truncated mean and the mean of squares around it, divided over floating point |
| CppResults.TestResults.SetValuesAtNextIndex | rtmb_cpp/src/testcase/util/TestResults.cpp:179-191 | appends one value and keeps the record valid: exact minimum, maximum from zero, exact statistics when full |
| CppResults.TestResults.RemoveOldValues | rtmb_cpp/src/testcase/util/TestResults.cpp:268-276 | empties the record, resets every statistic and keeps it valid |
| CppResults.TestResults.CloneValues | rtmb_cpp/src/testcase/util/TestResults.cpp:59-76 | the clone is valid, has the source's values, statistics and limits, and keeps its own array |
| CppResults.TestResults.CheckStdDev | rtmb_cpp/src/testcase/util/TestResults.cpp:278-323 | the verdict written with factors is the C verdict on the same entries and median: the conforming values are those within the range, and it is a pass if and only if they are at least floor(n*a/100); limits and counts are recorded |
| CppResults.RTThreadArgs.constructor | rtmb_cpp/src/testcase/config_tests/include/config_test.h:42-62 | the stored limits are at least as tight as the user's and as the configuration limits, and each is one of the two |
| CppResults.ConfigVerdict | rtmb_cpp/src/testcase/config_tests/include/config_test.h:55-61 | the clamp is sound: a result that passes under the stored limits passes the user's own limits, for every sample |
| Scores.ContributionIsLevel | rtmb_cpp/src/testcase/util/TestResultUtils.cpp:128-166 | the branches and casts compute ten times a level that rises by one per ten percent up to the median and falls by one per ten percent beyond |
| Scores.ContributionExactly | rtmb_cpp/src/testcase/util/TestResultUtils.cpp:128-166 | without rounding: below the median the contribution is the upper end of the ten percent in which the value's percentage lies, from there to twice the median 100 less the lower end of the ten percent beyond, and otherwise 0 |
| Scores.ContributionBounds | rtmb_cpp/src/testcase/util/TestResultUtils.cpp:128-166 | a contribution is a multiple of 10 in [0,100] and is 100 if and only if the value is at least 90 and below 110 percent of the median |
| Scores.ContributionIsUnimodal | rtmb_c/src/testcase/util/result_mgmt/result_mgmt.c:756-794 | contributions do not decrease up to the median and do not increase after it |
| Scores.UnimodalExactlyWhen | rtmb_c/src/testcase/util/result_mgmt/result_mgmt.c:756-794 | that order holds of all pairs of measured times, which are whole numbers, if and only if the median is at least -1 |
| Scores.UnimodalOnDoublesExactlyWhen | rtmb_cpp/src/testcase/util/TestResultUtils.cpp:128-166 | over the doubles that the C++ parameter admits it holds if and only if the median is not negative |
| Scores.Accumulate | rtmb_cpp/src/testcase/util/TestResultUtils.cpp:237-265 | the nested loops leave the three sums and the exact extremes of the throughputs of all values of all results, zero times and their infinities included |
| Scores.GenerateCombinedScore | rtmb_cpp/src/testcase/util/TestResultUtils.cpp:200-287 | the score's fields are those sums over the common divisor and the exact throughput extremes, measured against the median of the medians; divisions by zero give infinities or NaN |
| MedianOfMedians.ExchangeSort | rtmb_c/src/testcase/util/result_mgmt/result_mgmt.c:832-840 | the in-place exchange sort leaves the sorted permutation of the array |
| MedianOfMedians.FindMedianOfMedians | rtmb_c/src/testcase/util/result_mgmt/result_mgmt.c:826-850 | copying, sorting and taking the middle gives the median of the results' medians |
| ScoreLaws.SumsAreOrdered | rtmb_cpp/src/testcase/util/TestResultUtils.cpp:242-265 | for positive times weighting never adds, and it takes nothing away if and only if every value is at least 90 and below 110 percent of the median |
| ScoreLaws.ScoreFigures | rtmb_cpp/src/testcase/util/TestResultUtils.cpp:237-284 | for equal-length positive results consistency, mean and weighted throughput are the three sums over the number of values, the score is the reference over the median of medians, and the extreme throughputs are a million over the longest and the shortest time |
| ScoreLaws.SumsAreAdditive | rtmb_cpp/src/testcase/util/TestResultUtils.cpp:242-265 | each of the three sums of a sequence of times is that of its first part plus that of the rest |
| ScoreLaws.SumsOfOne | rtmb_cpp/src/testcase/util/TestResultUtils.cpp:249-260 | for a single time they are a million over the time, the same times the contribution, and the contribution |
| ScoreLaws.ScoresAreOrdered | rtmb_cpp/src/testcase/util/TestResultUtils.cpp:237-273 | for equal-length positive results every score is a number, min <= mean <= max throughput and 0 <= weighted <= mean, and weighted == mean if and only if consistency is 100, if and only if every value is at least 90 and below 110 percent of the median |
| ScoreLaws.MeanIsExactExactlyWhen | rtmb_cpp/src/testcase/util/TestResultUtils.cpp:267-273 | for positive results of any lengths the mean throughput is the mean of the throughputs if and only if the number of results times the last length is the number of values |
| ScoreLaws.MeanCanExceedMaximum | rtmb_cpp/src/testcase/util/TestResultUtils.cpp:267-273 | times 1, 1 in one result and 1 in the next give a mean throughput above the maximum |
| ScoreLaws.SumsAreFiniteExactlyWhen | rtmb_cpp/src/testcase/util/TestResultUtils.cpp:249-260 | the throughput sums are numbers if and only if no time is zero, and positive infinity otherwise |
| ScoreLaws.ScoreIsFiniteExactlyWhen | rtmb_cpp/src/testcase/util/TestResultUtils.cpp:267-284 | the mean throughputs are numbers if and only if no time is zero and the last result has entries, and the score if and only if the median of medians is not zero |
| ScoreLaws.ConformingContribute | rtmb_c/src/testcase/util/result_mgmt/result_mgmt.c:860-883 | with a range below 10 percent every conforming value contributes in full |
| ScoreLaws.PassingImpliesDeterminism | rtmb_c/src/testcase/util/result_mgmt/result_mgmt.c:193-213 | a positive sample of n values that passes with a range below 10 percent and an acceptable percentage a has a consistency of at least 100*floor(n*a/100)/n |
| Histogram.Write | rtmb_tools/src/com/ibm/realtime/rtmb/tools/Histogram.java:59-86 | both loops end; the array is sorted in place, and the entries span consecutive intervals and count every datum; if the data differ, each entry counts exactly the data with which the loop came to its interval, and there are 50 entries, or 51 if and only if the data before the last one reach the 50th interval; otherwise there is one entry more than data, the first counting none and each other one |
| Histogram.OffTheEdge | rtmb_tools/src/com/ibm/realtime/rtmb/tools/Histogram.java:69-83 | if no datum lies on the lower edge of the 50th interval, it is reached before the last datum if and only if at least two data lie above that edge |
| Histogram.TwoOnTheEdge | rtmb_tools/src/com/ibm/realtime/rtmb/tools/Histogram.java:70-81 | with data on that edge one datum above it can be enough |
| Histogram.IntervalsAbut | rtmb_tools/src/com/ibm/realtime/rtmb/tools/Histogram.java:66-83 | each interval starts where the one before ends, and the first at the smallest datum |
| Histogram.EveryDatumIsCounted | rtmb_tools/src/com/ibm/realtime/rtmb/tools/Histogram.java:69-85 | every datum falls to the share of one entry, whose closed interval contains it |
| Histogram.CountsAreRight | rtmb_tools/src/com/ibm/realtime/rtmb/tools/Histogram.java:88-98 | every plotted height less one lies between the number of data strictly inside its interval and the number in the closed interval |
| Text.ThousandthsAreRead | rtmb_c/src/reporter/reporter.c:173-175 | what %.3f prints of a whole number of thousandths, of either sign, is parsed back exactly |
| Text.LinesOfUnlines | rtmb_tools/src/com/ibm/realtime/rtmb/tools/RTMBTool.java:37-50 | reading line by line gives back the printed lines |
| Text.LineEnds | rtmb_tools/src/com/ibm/realtime/rtmb/tools/RTMBTool.java:50-50 | a line may be ended by a line feed, a carriage return, both, or the end of the text |
| ReportReader.BufferedReader.ReadLine | rtmb_tools/src/com/ibm/realtime/rtmb/tools/RTMBTool.java:50-50 | takes the next line off the text and leaves the others |
| ReportReader.Read | rtmb_tools/src/com/ibm/realtime/rtmb/tools/RTMBTool.java:31-77 | returns the numbers of the lines below the first header, in order, and consumes the text |
| ReportReader.ReadAppend | rtmb_tools/src/com/ibm/realtime/rtmb/tools/RTMBTool.java:37-72 | text before a header contributes nothing and text after one contributes all its numbers |
| ReportReader.NumberNeedsDigit | rtmb_tools/src/com/ibm/realtime/rtmb/tools/RTMBTool.java:52-66 | a line contributes at most one number, and, `NaN` and `Infinity` aside, none unless a digit follows its first colon |
| ReportReader.HeaderMayBePadded | rtmb_tools/src/com/ibm/realtime/rtmb/tools/RTMBTool.java:37-45 | blanks around the header do not hide it |
| ReportReader.LabelledNumber | rtmb_tools/src/com/ibm/realtime/rtmb/tools/RTMBTool.java:52-58 | the number after the colon is cut out of a line whatever blanks and unit surround it |
| Report.PrintResult | rtmb_c/src/reporter/reporter.c:136-178 | appends the lines of one result to the stream, the measured times only from verbose level 1 on |
| Report.DumpScore | rtmb_c/src/reporter/reporter.c:180-228 | appends the lines of every score and of each of its results, with names only where there are several |
| Report.WriteReport | rtmb_c/src/reporter/reporter.c:103-115 | the file holds the preamble followed by the dump of the scores |
| ReportFigures.PrintOneResult | rtmb_c/src/reporter/reporter.c:138-163 | in the text of one result exactly one line begins with the caption of each of its eight figures, and reads back as that figure, times divided by 1000 |
| ReportFigures.ReportShows | rtmb_c/src/reporter/reporter.c:103-228 | for each of the fifteen figures of a report the lines that begin with its caption are as many as there are results, scores or tests to print it for, and read back as their numbers in order |
| ReportNames.NamesAndTimes | rtmb_c/src/reporter/reporter.c:186-218 | the lines with names list the test, the subtests if there are several and the results of every score that has several; the lines with times read back as the times of all results in order, from verbose level 1 on and only then |
| ReportNames.PrintAndLookUp | rtmb_c/src/reporter/reporter.c:103-228 | the lines of the written file show every figure under its caption, as many times and in the order that the report has it, and list its names and times |
| RoundTrip.SummaryHasNoHeader | rtmb_c/src/reporter/reporter.c:138-163 | no line printed before the measured times can be taken for the header |
| RoundTrip.TimeLinesAreRead | rtmb_c/src/reporter/reporter.c:172-176 | the lines of the measured times give back the times divided by 1000, for every sequence of integers |
| RoundTrip.SingleReportIsRead | rtmb_c/src/reporter/reporter.c:136-178 | reading a report of a single result returns exactly its recorded times in microseconds, in order |
| RoundTrip.ReadsBackExactlyWhen | rtmb_c/src/reporter/reporter.c:191-228 | of all reports whose every score has a result, those that read back as their recorded times are exactly those of at most one result |
| RoundTrip.PrintAndRead | rtmb_tools/src/com/ibm/realtime/rtmb/tools/RTMBTool.java:31-77 | writing the file and running the reader on its text returns the recorded times if and only if the report holds at most one result |
| Kernels.RoundBounds | rtmb_c/src/testcase/util/math_operations/simple_math_opern.c:25-27 | 10003 is not triangular and i(i+3) is never 20006, so that neither j nor j - i is ever zero |
| Kernels.IntRound | rtmb_c/src/testcase/util/math_operations/simple_math_opern.c:25-27 | the truncated quotient of round i is i-2 up to 139, 137, 157, and i-1 from 142 on |
| Kernels.DoSimpleIntOpern | rtmb_c/src/testcase/util/math_operations/simple_math_opern.c:22-29 | for every num the divisions are safe, the result is that closed form and it is never the error value |
| Kernels.DoSimpleFloatOpern | rtmb_c/src/testcase/util/math_operations/simple_math_opern.c:37-45 | for every num the divisions are safe, the result is j*j/(i*i*(j-i)) of the last round, and it stays above the error value |
| Kernels.FloatBound | rtmb_c/src/testcase/config_test/float_rate_config.c:69-69 | the result of a round is greater than -1 whenever j > i or j*j < i*i*(i-j), one of which always holds, so that the caller's error test never fires |

## Left out

- EchoProgress.EveryMessageCompletes: does not bound the number of messages, because the verdict that ends the client's
  test is an arbitrary choice.
- Barrier.WorkStepsAreBounded: does not bound the parent's polling, which only a fair scheduler ends.
- Calibration.TimerConfig: the oracle's sleeps never end early and its iteration count and threshold are positive, as
  the program's configuration is; the values are those of the C model, the C++ search is not modelled separately.
- Scores.GenerateCombinedScore: the first result has an entry, because the source reads its first value whether or not
  it was recorded.
- ScoreLaws.PassingImpliesDeterminism: covers one result; the C score loop reads only the first result of several
  (`result_length` stays 1 at `result_mgmt.c:799`), so several results are scored by the C++ version.
- Report.WriteReport: scores and deviation are given in whole thousandths, and names hold no line break.
- Text.ParseDouble: accepts signed plain decimals; exponents, hexadecimal numbers, `NaN`, infinities and type suffixes,
  which the printer never writes on the lines that matter, are rejected.
- ReportReader.NumberNeedsDigit: `parseDouble` also accepts `NaN` and `Infinity`, which no printed figure is.
- Histogram.Write: the entries are modelled before `DecimalFormat` rounds them to three places.
- ReportReader.Read: does not count lines nor print the messages about unreadable ones.
- Real clocks, `nanosleep`, sockets, threads, priorities, timers, files and processes are oracle values or steps.
- IEEE rounding, negative zero and 32-bit or 64-bit overflow are not modelled.
- The square root of the deviation, and the `pow` and `sqrt` of the test and system scores.
- Memory orderings weaker than sequential consistency for the counter that is read outside its mutex.
- The `synch == 1` path of `check_pass_criteria`, which locks its mutex twice and is never taken.
- `normalizeResults`, which nothing calls, and the plain setters of the C++ record.
- `CompilationTest.verifyResults`, which does not compute the drops that its comment defines.
- The counter of `GarbageGenerationTest`, whose two halves synchronise on different monitors.
- The C++ `ResultTable` map, whose key order is not a strict order.
- The worker that joins the multi-thread test after the barrier, matrix kernels, command-line and configuration parsing,
  verbose printing, the list and vector types, and the RTSJ and bytecode tests: no property beyond one body.
