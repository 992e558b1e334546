# Verified model of kvm-utils

kvm-utils holds small kernel modules that count KVM exits and benchmark IPIs. This project models
the three parts with real protocols in them, and one small algorithm, and proves what they keep.

- **ipi-bench.** N kernel threads meet at a spin barrier, run, write their results and bump a
  completion counter; the main thread waits for it, reads the results and frees them. `IpiBarrier`
  is the protocol of one benchmark as a transition system (every atomic access and clock reading is
  one step, N is unbounded, a creation may fail, the wait may time out); `IpiProgress` proves its
  progress and the hand-back of the memory, `IpiThreadLog` that each thread has done and stored what the
  benchmark is for, `IpiPhases` what changes when counters are left over.
  `IpiModule` is the whole run of the module: one selected benchmark after the other, with the threads
  of earlier ones still running; `IpiModuleRuns`, `IpiModuleFree` and `IpiOptions` say exactly which
  selections keep the barrier and the hand-back, and when freeing is right. `IpiMeasure` is the timed
  loop, `CpuDraws` the randomized draw of CPUs, `NodePairs` counts the pairs a machine has room for
  within its nodes, `CpuAllocator` is the choice of CPUs for the mesh and the broadcast.
- **kvmwrmsr.** `MsrClass` holds the three switches over the MSR index and the report lines,
  `OtherTable` the 128-slot first-fit table against a histogram of the trace, `WrmsrProbe` whole runs
  on one CPU, `TableLock` the table operations slot by slot under their lock on many CPUs, and
  `WrmsrConcurrent` the probe on many CPUs with the reporter scanning while others insert.
- **kvmexitreason.** `ExitReasons` is the probe on many CPUs with its racy counters, `ExitReasonRuns`
  what its reports print against the hits of the run,
  `ProbeRegistration` the registration with rollback.
- **apic-ipi.** `NodeChooser` picks one target CPU per NUMA node.

`Sums` holds sums and counts over sequences, `ReportTimes` the last-report time between reports. Printing
appends to a log.

Assumptions: atomic and plain accesses are sequentially consistent; `gettime()` is one clock that
never goes back across CPUs (used for the timestamp and IPI-time results only, the reporters' results
need no clock assumption); online CPUs are numbered without gaps, as the source assumes; the models of
the debug modules start after `probe_init` has finished; 64-bit counters do not overflow.

Where the code departs from what it is evidently meant to do, the model follows the code:

- `ready_to_run` and `complete_run` are never set back to 0, and every benchmark that gets its memory
  overwrites `should_run`, even if it then starts no thread, while threads of an earlier one may still
  be running. So over whole runs of the module the wait can be trusted exactly if at most one selected
  benchmark has threads to start (`ModuleHandBackIff`), and the barrier holds exactly if after that one
  none stores a different number either (`ModuleBarrierIff`); `OptionsIff` and `BarrierOptions` say it
  for the options, `EmptyMeshDisturbs` and `ThirdBenchmarkFreesEarly` are runs. A benchmark that begins
  with n or more arrivals releases nobody while it is current (`LateBenchAllBug`).
- For one benchmark by itself, the threads of earlier ones having returned: starting at 0 < r0 < n it
  lets at most n - r0 threads through (`FewReleased`), and with c0 completions left over its wait ends
  too early exactly if c0 = n <= r0 or 0 < c0 = r0 < n (`HandBackIff`).
- A failed thread creation is ignored. Nobody is released while that benchmark runs
  (`FailedCreationBlocks`), but a later one can store a `should_run` that lets the waiting threads go,
  into memory that has been freed (`LaterStoreReleases`).
- A wait that ends by timeout does not hand the memory back (`TimeoutBreaksHandBack`); `ModuleFreeIff`
  says when freeing is right over all benchmarks still to come, with and without failed creations.
- `report_wrmsr(MSR_MISC_FEATURES_ENABLES)` returns the misc_enable counter, so a report's class lines
  add up to its total exactly if those two counters are equal (`ReportReadsOwnCounter`, `LinesSum`).
- MSR 0 marks a free slot, so zeros recorded while a slot is first free are added to its next key
  (`TableExact`). A 32-bit count that wraps to 0 ends the scan early (`ScanCompleteIff`).
- The one-second check is made outside the lock, in both debug modules, so with two or more CPUs
  reports can coincide (`AlwaysApartIff` in each). In kvmwrmsr each report is still more than a second
  after the last one whose time its CPU had seen at its check (`ReportsSpaced`).
- The plain `reasons_num[r]++` loses and repeats counts, so they are conserved in every run exactly on
  one CPU (`AlwaysConservedIff`). On more, none is lost unless increments overlap and none repeated
  unless a reset falls between a load and its store (`CounterConserved`); `OverlapLosesOne` and
  `StraddleRepeats` show that both happen.
- A report looks at each counter before the reset wipes it, so what lands in between is wiped unprinted
  (`LinesAccounted`, `UnprintedIncrements`): every count is printed, in every run, exactly on one CPU
  (`AlwaysPrintedIff`).
- `acrossnuma=0` with the default pair count on an even number of CPUs can start exactly if every
  node has an even number of CPUs (`FullMeshIff`); k pairs can start exactly if k is at most half of
  each node's CPUs, rounded down, in all (`MeshFeasibleIff`).
- apic-ipi goes on with an out-of-range CPU once a round finds no target; `Bench` says exactly when a
  round finds one.

## Model

| member | source | states |
|---|---|---|
| IpiBarrier.BarrierStep | microbenchmark/ipi-bench/ipi_bench.c:122-145 | every step of main or a thread keeps the phase invariant: counters count, whoever left the spin knows all have arrived, timestamps are ordered across threads |
| IpiBarrier.BarrierSafety | microbenchmark/ipi-bench/ipi_bench.c:122-145 | any N, any interleaving, creation failures included: nobody is past the barrier before all have arrived, BUG is unreachable, complete <= ready <= should = N |
| IpiBarrier.TimestampOrder | microbenchmark/ipi-bench/ipi_bench.c:126-138 | forked of every thread <= start of every thread; start + ipitime <= finish once a thread has completed |
| IpiBarrier.ReportsOrdered | microbenchmark/ipi-bench/ipi_bench.c:248-290 | no subtraction in any report underflows: in every phase, timed out or not, a printed finish time is at least start + ipitime, although the fields are read one by one while the thread may write |
| IpiThreadLog.ThreadDid | microbenchmark/ipi-bench/ipi_bench.c:95-145 | in every run of a benchmark, whatever the counters start with, a thread that has completed took its fork and start readings, then had exactly max(0, loops) IPIs handled and stored their summed times, or stored none because a send failed, or as a broadcast thread sent none, then took its finish and delay readings; all stored values are these |
| IpiThreadLog.ModuleThreadDid | microbenchmark/ipi-bench/ipi_bench.c:531-559 | the same for every thread of the current and of earlier benchmarks in every run of the module |
| IpiProgress.StepDecreases | microbenchmark/ipi-bench/ipi_bench.c:122-145 | every thread step that is not a turn of the spin loop strictly decreases the work left |
| IpiProgress.NoSpinAfterArrival | microbenchmark/ipi-bench/ipi_bench.c:129-130 | once ready_to_run has reached n, in any phase, no thread can go on spinning, whatever the scheduler does |
| IpiProgress.NotStuck | microbenchmark/ipi-bench/ipi_bench.c:122-145 | no reachable state of any phase short of its end is stuck: some thread, or main still creating, can advance |
| IpiProgress.CanRunOut | microbenchmark/ipi-bench/ipi_bench.c:122-145 | from every reachable state without a failed creation, whatever the phase started with, all its threads can still return |
| IpiProgress.CanFinish | microbenchmark/ipi-bench/ipi_bench.c:122-145 | from every reachable state without a failed creation the phase can run to all done with complete = ready = N |
| IpiProgress.FailedCreationBlocks | microbenchmark/ipi-bench/ipi_bench.c:156-160 | with one failed creation no thread is released and complete_run stays 0 as long as that benchmark is the current one |
| IpiProgress.HandBack | microbenchmark/ipi-bench/ipi_bench.c:241-246 | once the wait condition was seen, no thread touches bench_args in any later state, the contents are final and ordered, and the reports show them, one per thread by the time of the free |
| IpiProgress.SafeToFreeIff | microbenchmark/ipi-bench/ipi_bench.c:241-246 | no step of the benchmark itself can touch its memory again exactly when every thread has made its last access or, if a creation failed, when none still has its forked time to store |
| IpiProgress.TimeoutBreaksHandBack | microbenchmark/ipi-bench/ipi_bench.c:241-246 | a wait ended by timeout can be followed by a thread's access after the free |
| IpiPhases.LatePhaseAllBug | microbenchmark/ipi-bench/ipi_bench.c:129-134 | a benchmark of n threads starting at r0 >= n, earlier threads having returned: every thread stops at BUG, nothing completes, reports show start = finish = 0, the wait condition holds exactly if complete_run was n already |
| IpiPhases.LatePhaseTerminates | microbenchmark/ipi-bench/ipi_bench.c:129-134 | in such a phase every thread step decreases the work left: nobody spins |
| IpiPhases.EarlyStart | microbenchmark/ipi-bench/ipi_bench.c:129-134 | for 0 < r0 < n some run releases a thread before another has been created |
| IpiPhases.FewReleased | microbenchmark/ipi-bench/ipi_bench.c:129-134 | in every run of a phase that starts at r0 <= n at most n - r0 threads get past the barrier and complete |
| IpiPhases.BarrierHoldsIff | microbenchmark/ipi-bench/ipi_bench.c:129-134 | the barrier holds in every run of a phase exactly if it starts with ready_to_run = 0 |
| IpiPhases.HandBackIff | microbenchmark/ipi-bench/ipi_bench.c:241-246 | for all counters that benchmarks can leave whose threads have returned: the wait condition implies the hand-back in every run exactly unless c0 = n <= r0 or 0 < r0 = c0 < n |
| IpiPhases.PhaseLeaves | microbenchmark/ipi-bench/ipi_bench.c:129-134 | a phase whose threads have returned leaves one more arrival per created thread, and completions only of threads let through |
| IpiModule.ModuleCounters | microbenchmark/ipi-bench/ipi_bench.c:531-559 | in every run of the module, whatever earlier threads still do: 0 <= complete_run <= ready_to_run <= threads of the benchmarks begun |
| IpiModuleRuns.ModuleHandBackIff | microbenchmark/ipi-bench/ipi_bench.c:531-559 | over all runs of the module and all later benchmarks, with earlier threads still running: a wait seen to be met means the hand-back exactly if at most one benchmark starts threads |
| IpiModuleRuns.ModuleBarrierIff | microbenchmark/ipi-bench/ipi_bench.c:531-559 | over all runs of the module: the barrier holds in every benchmark exactly if none that stores should_run follows one with threads, except one without threads that stores the same number |
| IpiModuleRuns.LateBenchAllBug | microbenchmark/ipi-bench/ipi_bench.c:129-134 | a benchmark of n threads that begins with n or more arrivals, whatever earlier threads still do: while it is current nobody is released and who stopped took BUG |
| IpiModuleFree.ModuleFreeIff | microbenchmark/ipi-bench/ipi_bench.c:409-423 | for the first benchmark with threads, however its wait ended: freeing is right, over all runs of all later benchmarks, exactly when every thread has made its last access or, if a creation failed, none has its forked time to store and no later benchmark can store a number that ready_to_run can equal |
| IpiOptions.OptionsIff | microbenchmark/ipi-bench/ipi_bench.c:531-559 | both conditions for every options mask, any pairs and broadcasts, 0 and negative ones included, and benchmarks lost to kzalloc or a failed draw |
| IpiOptions.BarrierOptions | microbenchmark/ipi-bench/ipi_bench.c:531-559 | if nothing is lost, the barrier holds exactly if at most one benchmark is selected, or mesh and broadcast with no pairs |
| IpiOptions.ThirdBenchmarkFreesEarly | microbenchmark/ipi-bench/ipi_bench.c:542-556 | self, single and a mesh of one pair, each returning before the next: the third begins at 2 arrivals and 1 completion, its wait is over at once, and its thread writes after the free |
| IpiOptions.LaterStoreReleases | microbenchmark/ipi-bench/ipi_bench.c:429-444 | a mesh of two pairs with one failed creation and a broadcast of one: nothing in the mesh can touch its memory any more, and the broadcast's should_run makes the waiting thread do it |
| IpiOptions.EmptyMeshDisturbs | microbenchmark/ipi-bench/ipi_bench.c:372-387 | self and a mesh of no pairs: the hand-back holds and the barrier does not |
| IpiMeasure.IpiTimeFits | microbenchmark/ipi-bench/ipi_bench.c:83-113 | the IPI intervals are disjoint and ordered, so their sum fits between the first and the last reading |
| IpiMeasure.IpiBenchOne | microbenchmark/ipi-bench/ipi_bench.c:95-113 | for every loop count and every pattern of send results: the stored time is the sum over all sends, or nothing is stored at the first failure |
| IpiMeasure.Measure | microbenchmark/ipi-bench/ipi_bench.c:136-138 | start + ipitime <= finish on success and on early error return |
| IpiMeasure.MeasureIsProtocolRun | microbenchmark/ipi-bench/ipi_bench.c:95-138 | every outcome of Measure is a run of a protocol thread from its start reading on, with the same clock readings and the same start, ipitime and finish |
| IpiMeasure.ReportedAverages | microbenchmark/ipi-bench/ipi_bench.c:248-274 | call and ipi are elapsed and the IPI time divided by loops, rounded down, in u64 with a negative loops wrapped; elapsed is finish - start less run_delay where that does not underflow; with the ordered values of a thread elapsed holds the IPI time, so that average IPI <= average call, exactly unless subtracting run_delay takes it below |
| CpuDraws.RandomUnusedCpu | microbenchmark/ipi-bench/ipi_bench.c:348-370 | takes and marks the first acceptable of at most 100000 draws; fails, mask unchanged, exactly if all are rejected |
| CpuDraws.DrawFeasibleIff | microbenchmark/ipi-bench/ipi_bench.c:355-369 | some random stream makes a draw succeed exactly if an acceptable CPU exists |
| CpuDraws.DealsUnique | microbenchmark/ipi-bench/ipi_bench.c:389-402 | a stream of draws hands out one sequence of CPUs only |
| CpuDraws.Pigeonhole | microbenchmark/ipi-bench/ipi_bench.c:355-369 | distinct CPUs in range are at most num_cpus; fewer leave one unused |
| NodePairs.WithinNodes | microbenchmark/ipi-bench/ipi_bench.c:389-402 | with acrossnuma = 0 no node carries more pairs than half its CPUs |
| NodePairs.PairsIff | microbenchmark/ipi-bench/ipi_bench.c:389-402 | k pairs fit within the nodes exactly if k is at most the sum of half of each node's CPUs, rounded down |
| CpuAllocator.Mesh | microbenchmark/ipi-bench/ipi_bench.c:372-427 | starts threads exactly if the draws hand out 2 * pairs CPUs, on those CPUs, src before dst: distinct, in range, exactly the mask, dst on src's node if acrossnuma = 0 and then no more pairs than the nodes hold; within the enforced limit it fails only through a draw of this call that missed the unused CPUs, or with acrossnuma = 0 a src without a free CPU beside it |
| CpuAllocator.All | microbenchmark/ipi-bench/ipi_bench.c:429-480 | starts threads exactly if the draws hand out that many CPUs, on those; more broadcasts than CPUs always fails before a thread starts; otherwise only a draw of this call that missed the unused CPUs fails |
| CpuAllocator.AnyNodeFeasibleIff | microbenchmark/ipi-bench/ipi_bench.c:446-454 | over all nodes, some random stream succeeds exactly if no more CPUs are wanted than there are |
| CpuAllocator.MeshFeasibleIff | microbenchmark/ipi-bench/ipi_bench.c:389-402 | with acrossnuma = 0, some random stream starts k pairs exactly if they fit within the nodes |
| CpuAllocator.FullMeshIff | microbenchmark/ipi-bench/ipi_bench.c:389-402 | with acrossnuma = 0, some random stream starts a mesh over all CPUs exactly if every node has an even number of them |
| MsrClass.OnePartition | debug/kvmwrmsr/msr.h:387-495 | two of the 2^32 MSRs print the same name exactly if they bump the same counter |
| MsrClass.MsrNumbers | debug/kvmwrmsr/msr.h:97-145 | the counter of each listed MSR outside the APIC range, as numbers |
| MsrClass.PerfNumbers | debug/kvmwrmsr/msr.h:201-227 | the same for the performance counter MSRs |
| MsrClass.ApicNumbers | debug/kvmwrmsr/msr.h:147-199 | the counter of each of the 1024 x2APIC MSRs 0x800 to 0xbff |
| MsrClass.UnnumberedClass | debug/kvmwrmsr/msr.h:94-234 | an MSR without its own counter is a lapic_others one exactly if it is in 0x800 to 0xbff, and otherwise goes into the table |
| MsrClass.ReportReadsOwnCounter | debug/kvmwrmsr/msr.h:236-344 | a report reads the counter its MSR bumps for every MSR but MSR_MISC_FEATURES_ENABLES |
| MsrClass.ApicRoundTrip | debug/kvmwrmsr/msr.h:147-149 | MSR to register offset and back is the identity on the whole x2APIC range |
| MsrClass.ShownOnce | debug/kvmwrmsr/kvmwrmsr.c:20-85 | the 31 report lines hit every counter class exactly once |
| MsrClass.LinesSum | debug/kvmwrmsr/kvmwrmsr.c:20-85 | the lines add up to the counters' total plus misc_enable minus misc_features_enables, hence to the total exactly if those are equal |
| OtherTable.TableExact | debug/kvmwrmsr/msr.h:58-71 | every trace, zeros and wrapping included: slot k holds the k-th distinct nonzero key and, modulo 2^32, its occurrences plus the zeros recorded while slot k was first free |
| OtherTable.Histogram | debug/kvmwrmsr/msr.h:58-71 | without zeros and wrapping: exactly the first 128 distinct keys in order with their counts, and free slots after them |
| OtherTable.NonzeroPrefix | debug/kvmwrmsr/msr.h:63-69 | nonzero slots form a prefix without duplicates |
| OtherTable.SharesAddUp | debug/kvmwrmsr/msr.h:58-71 | every recorded event is in exactly one slot's share or was dropped |
| OtherTable.CountsConserved | debug/kvmwrmsr/msr.h:58-71 | below 2^32 records slot counts plus dropped events equal the records |
| OtherTable.ScanCompleteIff | debug/kvmwrmsr/kvmwrmsr.c:88-96 | a scan prints every key of the table exactly if no key's count is a multiple of 2^32; below 2^32 records always |
| OtherTable.OtherMsrs.RecordOther | debug/kvmwrmsr/msr.h:58-71 | the in-place loop is the first-fit insert |
| OtherTable.OtherMsrs.ReportOther | debug/kvmwrmsr/msr.h:73-85 | succeeds exactly on a slot with nonzero index and count, and returns that slot |
| OtherTable.OtherMsrs.ResetOther | debug/kvmwrmsr/msr.h:87-92 | empties every slot |
| OtherTable.OtherMsrs.ShowOthers | debug/kvmwrmsr/kvmwrmsr.c:87-96 | the first look and the loop with its break print the reportable prefix of the table |
| WrmsrProbe.WrmsrStats.RecordWrmsr | debug/kvmwrmsr/msr.h:94-234 | bumps the MSR's class counter and, for others, inserts into the table; nothing else changes |
| WrmsrProbe.WrmsrStats.ResetWrmsr | debug/kvmwrmsr/msr.h:346-385 | zeroes all 31 counters and the table |
| WrmsrProbe.WrmsrStats.ShowWrmsr | debug/kvmwrmsr/kvmwrmsr.c:15-97 | prints the 31 lines and the table's rows |
| WrmsrProbe.WrmsrStats.Probe | debug/kvmwrmsr/kvmwrmsr.c:109-127 | one probe hit is the step function Hit, or only counts while another CPU holds showing_lock |
| WrmsrProbe.RunExplained | debug/kvmwrmsr/kvmwrmsr.c:109-127 | every run: one report per period cut by the times alone, each showing exactly that period's events; counters and table hold the events since |
| WrmsrProbe.SplitPartitions | debug/kvmwrmsr/kvmwrmsr.c:109-127 | the periods partition the events |
| WrmsrProbe.TotalsConserved | debug/kvmwrmsr/kvmwrmsr.c:112-121 | printed totals plus the current total equal the number of hits |
| WrmsrProbe.TotalIsSum | debug/kvmwrmsr/msr.h:229-232 | after every hit total_wrmsr is the sum of the 31 counters, and the others counter is slot counts plus dropped events |
| WrmsrProbe.ReportIsClassCount | debug/kvmwrmsr/msr.h:236-344 | after any run report_wrmsr(m) is the number of open events in m's class, for every m but one |
| WrmsrProbe.ReportLineIsCount | debug/kvmwrmsr/kvmwrmsr.c:15-97 | in every run line k of each report is the number of its period's events in the class of the line's MSR, except that the misc_features_enables line shows the misc_enable events |
| WrmsrProbe.ReportLinesSum | debug/kvmwrmsr/msr.h:266-267 | in every run each report's lines add up to its total plus its period's misc_enable minus misc_features_enables events, hence to the total exactly if those are equally many |
| WrmsrProbe.ReportsApart | debug/kvmwrmsr/kvmwrmsr.c:116-125 | on one CPU reports are strictly more than 10^9 ns apart |
| TableLock.OperationsAreAtomic | debug/kvmwrmsr/msr.h:58-92 | slot by slot under the lock, in every interleaving: a free lock means the table of the completed operations, and each report returned what the table held at its turn |
| TableLock.RequestsServed | debug/kvmwrmsr/msr.h:58-92 | in every interleaving the operations a CPU has completed, and the one it is in, are exactly what it asked for, with that MSR or index, in that order |
| TableLock.EveryRequestServed | debug/kvmwrmsr/msr.h:58-92 | no run takes more than 134 steps per request, and a run that can go no further has served every request |
| WrmsrConcurrent.OneReporter | debug/kvmwrmsr/kvmwrmsr.c:117-126 | at most one CPU reports, and showing_lock is held exactly then |
| WrmsrConcurrent.HitsAccounted | debug/kvmwrmsr/kvmwrmsr.c:112-121 | printed totals, increments between read and reset, and the current total make up all hits |
| WrmsrConcurrent.ScanCorrect | debug/kvmwrmsr/kvmwrmsr.c:88-96 | while others insert: distinct keys, every key present at the start with at least its count then, no key or count absent at the end; the table is that of the inserts since the last reset |
| WrmsrConcurrent.InsertsAccounted | debug/kvmwrmsr/kvmwrmsr.c:88-97 | for every report of every run: its scan was right, and its printed counts, the counts wiped unprinted because they landed after their slot was read, and the dropped events make up all inserts of its period |
| WrmsrConcurrent.ProbesRecorded | debug/kvmwrmsr/kvmwrmsr.c:100-127 | counted from the actions of the run: each hit of an MSR without a counter of its own is once among the inserts since the last reset, or of one report's period, or its CPU is on its way to the table, and no other hit is; every hit is counted or about to be; the lost increments are those between read and reset of the total; every report wipes the table once |
| WrmsrConcurrent.ReportsSpaced | debug/kvmwrmsr/kvmwrmsr.c:116-125 | on any number of CPUs a report is more than 10^9 ns after the last report its CPU had seen at its time check, hence after its predecessor if that was stored by then |
| WrmsrConcurrent.ReportsCanCoincide | debug/kvmwrmsr/kvmwrmsr.c:116-125 | with two or more CPUs two reports can have the same time stamp |
| WrmsrConcurrent.AlwaysApartIff | debug/kvmwrmsr/kvmwrmsr.c:116-125 | consecutive reports are more than 10^9 ns apart in every run exactly if there is at most one CPU |
| ExitReasons.TotalsAccounted | debug/kvmexitreason/kvmexitreason.c:16-38 | one reporter at a time; printed totals, lost increments and the current total make up all hits |
| ExitReasons.CountersBounded | debug/kvmexitreason/exit-reason.h:74-93 | every counter and every printed line stay within the stores since load; no line prints 0 although the counter is read twice |
| ExitReasons.CounterConserved | debug/kvmexitreason/exit-reason.h:74-93 | held plus wiped counts are never below the stores unless increments overlapped, never above unless a reset fell between a load and its store; the difference is what stale stores added or took |
| ExitReasons.AlwaysConservedIff | debug/kvmexitreason/exit-reason.h:74-93 | held plus wiped counts equal the stores in every run exactly if there is at most one CPU |
| ExitReasons.AlwaysApartIff | debug/kvmexitreason/kvmexitreason.c:16-38 | consecutive reports are at least 10^9 ns apart in every run exactly if there is at most one CPU |
| ExitReasons.OverlapLosesOne | debug/kvmexitreason/exit-reason.h:79-79 | with two or more CPUs two overlapping increments leave the counter one short |
| ExitReasons.StraddleRepeats | debug/kvmexitreason/exit-reason.h:90-93 | a reset between a load and its store brings wiped increments back |
| ExitReasonRuns.HitsCounted | debug/kvmexitreason/kvmexitreason.c:44-50 | counted from the actions of the run: every hit is in the total, and every hit of a known reason stored to that reason's counter, or its CPU is about to; the lost increments of the total are those between its print and its reset |
| ExitReasonRuns.ReportsLook | debug/kvmexitreason/kvmexitreason.c:16-38 | a report for every time check passed unless another is under way; each looks at and clears every reason once; one line of r per look that saw its counter nonzero |
| ExitReasonRuns.ReportsEnd | debug/kvmexitreason/kvmexitreason.c:34-38 | each report stores its time once, and __ktime is the time of the last one |
| ExitReasonRuns.LinesAccounted | debug/kvmexitreason/kvmexitreason.c:29-35 | races included: the printed counts of r plus what increments did to its counter between a report's look and its reset are what resets wiped, and what the next one is about to |
| ExitReasonRuns.UnprintedIncrements | debug/kvmexitreason/kvmexitreason.c:29-35 | without a race on r the counts wiped unprinted are exactly the increments between look and reset |
| ExitReasonRuns.AlwaysPrintedIff | debug/kvmexitreason/kvmexitreason.c:29-35 | the printed counts of every reason are what resets wiped from it, in every run, exactly if there is at most one CPU |
| ProbeRegistration.ProbeTable.ProbeInit | debug/kvmexitreason/kvmexitreason.c:217-258 | returns 0 exactly if no named slot fails, with exactly the named slots registered, and otherwise leaves none registered |
| ProbeRegistration.ProbeTable.UnregisterAllProbes | debug/kvmexitreason/kvmexitreason.c:194-215 | unregisters the named slots and only them |
| ProbeRegistration.ProbeTable.ProbeExit | debug/kvmexitreason/kvmexitreason.c:260-263 | after a successful load, none is registered, as before it |
| NodeChooser.PickTarget | microbenchmark/apic-ipi/apic_ipi.c:39-47 | the lowest online CPU other than the current one on an unmarked node; none exactly if no unmarked node has one |
| NodeChooser.Bench | microbenchmark/apic-ipi/apic_ipi.c:38-61 | k rounds take k distinct nodes; all rounds find a target exactly if at least that many nodes have one; with at least as many rounds as such nodes each is hit exactly once |
| NodeChooser.ChosenMeans | microbenchmark/apic-ipi/apic_ipi.c:38-61 | each target is the lowest candidate of its node, and no node is taken twice |
| NodeChooser.Coverage | microbenchmark/apic-ipi/apic_ipi.c:38-61 | a choice is never longer than the number of nodes with a candidate, and one of that length hits each exactly once, at its lowest candidate |

## Left out

- Weak memory ordering, and the 64-bit wrap-around of counters and timestamps.
- IPI delivery itself, `smp_call_function_many`, the spinlock callback, and `wait=0`, where the handler may write after the send returned.
- Thread creation, binding and scheduling beyond success or failure; `run_delay` is an arbitrary value; the wait's timeout is one more way out of the wait.
- HandBackIff: is about one benchmark whose predecessors' threads have returned; with them still running, `ModuleHandBackIff` covers all benchmarks of a run together.
- LatePhaseAllBug: the same; `LateBenchAllBug` is the part that holds whatever still runs.
- SafeToFreeIff: is about the steps of one benchmark; `ModuleFreeIff` is about all that follow, for the first one that starts threads.
- `ipi_bench_init_params`: the unbounded redraw loops for `srccpu` and `dstcpu`; its limit on `pairs` appears as a condition in `CpuAllocator.Mesh`.
- The throughput lines of mesh and broadcast, and all message texts; `reason2str` and its string table.
- The class counters' plain `++` in `WrmsrConcurrent`: the same race is modelled in `ExitReasons`, and `WrmsrProbe` covers them on one CPU.
- kprobe and jprobe machinery, register decoding, kernel version switches, probes firing while a module is still being loaded.
- `ExitReasons` takes reasons as non-negative; the EXIT_REASON constants come from a kernel header that is not part of this model.
- Bench: says nothing about what apic-ipi does after a round without a target, or on a machine with node ids of MAXNUMA or more (an array index out of bounds in both cases).
- msr-bench, pio-mmio-bench, tlb-shootdown-bench: no logic beyond straight-line measurements.
