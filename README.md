# osjitter in Dafny

A model of the integer and text logic of osjitter and its companion tools.

osjitter measures operating-system jitter. On each selected CPU a worker reads the time-stamp counter (TSC) in a tight loop. It records every gap between two reads that exceeds a threshold. It subtracts the smallest gap as a baseline, sorts the recorded gaps, and prints one row per CPU. The row holds tick counts converted to nanoseconds and nearest-rank percentiles.

pingpong measures the latency between two threads that take turns sending a time stamp. `helper/bench2tidy.py` merges Google Benchmark CSV files into one table.

The model covers these parts:

- **Common**: `uint32_t` and `uint64_t` as subset types, and explicit wrap-around (`ToU32`, `ToU64`). Shifts are written as floor division by powers of two. Also `Option` and `Result`.
- **Text**: C `atoi` (leading white space, sign, digits), decimal printing, and substring search (`memmem`, `strchr`, `memrchr`, Python's `rindex`).
- **UtilH**: the comparator `cmp_u32` and the 128-bit multiply-shift `mul_u64_u32_shr` (util.h).
- **Stats**: `is_sorted`, `percentile_u32` and `mad_u32` (util.c). `qsort` over an array prefix is modelled as an in-place sort.
- **Calibration**: `clocks_calc_mult_shift` (util.c), which picks the tick-to-nanosecond factors.
- **TscKhz**: the splice of `" DDDD.ddd MHz"` into kHz in `get_tsc_khz_cmd`, and the fallback chain of `get_tsc_khz` (util.c).
- **Sampler**: osjitter's `worker_main`. The class `Sampler.Worker` holds the delta array and the counters. `Sample` consumes a sequence of counter reads, `Step` is one loop body, and `Drain` is the hand-over after the measurement. These methods are proved against the value-level function `Sampling`, whose properties are proved as lemmas.
- **JitterArgs**: osjitter's `parse_args`, including the `--cpu` operand and the defaults.
- **ProcSched**: the parse of `nr_involuntary_switches` from `/proc/PID/task/TID/sched`.
- **Report**: the integer columns of osjitter's `pp_results`.
- **PingPongArgs**: pingpong's `parse_args`.
- **PingPong**: the role alternation and the buffer sizing of `spin_main` and `spin_null_main`, plus `spin_main_finalize` and pingpong's `pp_results` row.
- **PingPongJson**: pingpong's `print_json`, with a reader that proves the output round-trips.
- **BenchTidy**: `bench2tidy.py`, covering the aggregate-row filter, the two-state `dump_csv` and the host name taken from the file name.

Inputs stand in for I/O and hardware:

- **Counter reads**: TSC reads are a sequence of 64-bit values.
- **Allocation**: in pingpong, the outcomes of `calloc` and `malloc` are boolean parameters. osjitter's allocations always succeed in the model (see "Left out").
- **Pipes**: the outcomes of `popen`, `getline` and `pclose` are parameters.
- **Files and argv**: file contents are sequences of lines, and argv is a sequence of strings.
- **Output**: printed text is the returned string.

## Model

| member | source | states |
|---|---|---|
| Text.Atoi | util.c:194 | C's atoi: leading white space skipped, an optional sign, then the longest run of digits; 0 without digits |
| Text.AtoiDigits | util.c:194 | atoi of a digit string followed by a non-digit or nothing is the digits' value |
| Text.Decimal | pingpong.c:657-662 | the text %" PRIu64 " prints: nonempty, digits only, no leading zero, and its value is the number |
| Text.AtoiDecimal | pingpong.c:200-201 | atoi reads back the decimal text of every number |
| Text.Find | osjitter.c:119 | the first occurrence (strchr, memchr, memmem): none if and only if the key does not occur, otherwise an occurrence with none before it |
| Text.RFind | helper/bench2tidy.py:24 | the last occurrence (rindex, memrchr): none if and only if the key does not occur, otherwise an occurrence with none after it |
| UtilH.CmpU32 | util.h:12-22 | the result is exactly -1, 0 or 1, each value if and only if a < b, a == b or a > b |
| UtilH.CmpU32Antisymmetric | util.h:12-22 | cmp(a, b) == -cmp(b, a) and cmp(a, a) == 0 |
| UtilH.CmpU32Transitive | util.h:12-22 | "not above" is transitive, so the comparator is a valid qsort order |
| UtilH.MulU64U32Shr | util.h:25-31 | the result is floor(cyc * mult / 2^shift) mod 2^64; the 128-bit product never wraps |
| UtilH.MulU64U32ShrIsFloorDiv | util.h:25-31 | the shift is floor division by 2^shift |
| UtilH.ProductFits | util.h:27-28 | cyc * mult < 2^96, so the 128-bit product is exact |
| UtilH.MulU64U32ShrExact | util.h:25-31 | for a shift of at least 32 the result is not truncated |
| UtilH.MulU64U32ShrMonotone | util.h:25-31 | where the result is not truncated it is monotone in the tick count |
| UtilH.MulU64U32ShrZero | util.h:25-31 | 0 ticks convert to 0 ns |
| Stats.SortedByCmp | util.h:12-22 | ascending order is exactly the order in which cmp_u32 never ranks an earlier element above a later one |
| Stats.IsSorted | util.c:27-38 | true if and only if the array is non-decreasing; the empty array is sorted |
| Stats.PercentileU32 | util.c:40-54 | 0 for n = 0; x[n*a/b] for odd n or rank 0; otherwise the 32-bit average of x[i-1] and x[i], which lies between the two when the sum does not wrap |
| Stats.Rank | util.c:46 | the index percentile_u32 reads for the fraction a/b of n samples: n * a / b, rounded down |
| Stats.Median | util.c:62 | the median mad_u32 computes: the percentile 1/2 of sorted data |
| Stats.PercentileWithinRange | util.c:40-54 | on sorted data whose middle pair does not wrap, every percentile lies in [x[0], x[n-1]] |
| Stats.PercentileExamples | util.c:46-53 | over [10,20,30,40,50]: (1,2) gives 30, (1,5) gives 20, (90,100) gives 50; over [10,20,30,40] the median is 25 |
| Stats.SortPrefix | util.c:66 | qsort: the first n elements become a sorted permutation of themselves and the rest of the array is untouched |
| Stats.InsertLast | util.c:66 | one insertion step keeps the prefix a sorted permutation |
| Stats.SwapAdjacent | util.c:66 | a swap of neighbours is a permutation of the prefix |
| Stats.Deviations | util.c:63-65 | element k is abs(x[k] - median), computed in long |
| Stats.MadU32 | util.c:58-69 | 0 for n = 0 without touching y; otherwise y[0..n) holds the sorted absolute deviations from the median and the result is their median; x is unchanged; all-equal input gives 0 |
| Stats.MadOfConstant | util.c:58-69 | the MAD of equal samples is 0, even when the median's 32-bit sum wraps |
| Calibration.RangeHigh | util.c:109 | the high 32 bits of the 64-bit product maxsec * from that the first loop strips |
| Calibration.BitLen | util.c:109-113 | 2^(r-1) <= x < 2^r: the number of halvings the first loop performs |
| Calibration.SftAcc | util.c:103-113 | sftacc is 32 minus the bit length of (maxsec * from) >> 32 |
| Calibration.MultAt | util.c:120-123 | the candidate multiplier is (to << sft + from / 2) / from, bounded on both sides |
| Calibration.Qualifies | util.c:125-126 | the test that ends the second loop: the candidate has no bit at or above sftacc |
| Calibration.MultInputFits | util.c:120-121 | (uint64_t)to << sft plus from / 2 cannot wrap for sft <= 32 |
| Calibration.ClocksCalcMultShift | util.c:98-130 | the shift is the largest in 32..1 whose multiplier has no bit at or above sftacc; every larger shift fails; without one the shift is 0 and mult is the sft = 1 candidate truncated to 32 bits |
| Calibration.QualifiedFits | util.c:125-128 | a chosen multiplier is below 2^sftacc, so storing it in uint32_t loses nothing |
| Calibration.ConversionNoOverflow | util.c:90-96 | with a chosen multiplier, any tick count up to maxsec * from times mult stays below 2^64 |
| Calibration.MultRoundsToNearest | util.c:120-123 | mult * from is within half of from of to * 2^sft |
| Calibration.ZeroRangeSftAcc | util.c:103-113 | maxsec = 0 gives sftacc = 32, and a shift then qualifies if and only if its multiplier fits in 32 bits |
| TscKhz.MHzLine | util.c:206-208 | the line the journal and dmesg pipelines print: a space, the integer MHz digits, a point, three fraction digits and " MHz\n" |
| TscKhz.Splice | util.c:190-193 | the buffer holds the l - 10 integer digits after the leading space and the 3 fraction digits, and fits in 16 bytes |
| TscKhz.GetTscKhzCmd | util.c:167-201 | 1 if popen fails; -1 on a read error or l > 22; 0 without a store on end of file or l < 11; otherwise atoi of the splice is stored and the result is 0, or -1 if pclose fails |
| TscKhz.SpliceMHzLine | util.c:184-194 | for " D.ddd MHz\n" with 1 to 12 digits D the stored value is D * 1000 + ddd |
| TscKhz.GetTscKhzCmdExample | util.c:184-194 | " 2600.000 MHz\n" gives 2600000 kHz |
| TscKhz.ExampleKhz | util.c:184-194 | " 2600.000 MHz\n" passes the length guards, and its splice reads back as 2600000 |
| TscKhz.GetTscKhz | util.c:226-246 | proc, then journal, then dmesg while the rate is 0; a negative return propagates; all zero gives -1; 0 is returned only with a nonzero rate |
| TscKhz.OsjitterCopyLength | osjitter.c:304-320 | osjitter's journal probe without the l < 11 guard copies (l - 10) mod 2^64 bytes |
| TscKhz.OsjitterEmptyOutputOverflows | osjitter.c:304-320 | for empty output (l = -1) that copy is 2^64 - 11 bytes into a 16-byte buffer |
| TscKhz.GuardedCopyFits | util.c:184-193 | with util.c's guards every splice that runs fits the 16-byte buffer |
| Sampler.Record | osjitter.c:668-682 | one body of the sampling loop: a gap above the threshold is counted and added to the total, stored while i < n and otherwise marks the first overflow read; every gap takes part in the minimum |
| Sampler.Sampling | osjitter.c:645-683 | the counters and stored deltas after the reads so far: the unrolled first iteration with its minimum thrown away, then one Record per main-loop read |
| Sampler.SumAbove | osjitter.c:655-673 | the plain sum of the gaps above the threshold, which tsc_total_int accumulates |
| Sampler.Saturate | osjitter.c:658 | the stored value is the delta, capped at UINT32_MAX |
| Sampler.Delta | osjitter.c:653-670 | the first gap is taken in 64 bits; main-loop gaps are truncated to 32 bits |
| Sampler.Gaps | osjitter.c:651-683 | the gap each read ends: 64-bit for the first, 32-bit truncated after |
| Sampler.CountAbove | osjitter.c:655-672 | the number of gaps strictly above the threshold |
| Sampler.SatAbove | osjitter.c:655-675 | the gaps above the threshold, in order, each above the threshold or saturated |
| Sampler.GapsPrefix | osjitter.c:651-683 | the gaps of a shorter read sequence are a prefix |
| Sampler.SamplingCount | osjitter.c:655-679 | i counts every gap strictly above the threshold, whether or not the buffer has room |
| Sampler.SamplingTotal | osjitter.c:656-673 | tsc_total_int is the sum of those gaps modulo 2^64 |
| Sampler.SamplingStored | osjitter.c:657-675 | ds holds the first n gaps above the threshold, saturated, in order |
| Sampler.StoredAboveThreshold | osjitter.c:655-675 | every recorded delta is above the threshold or is UINT32_MAX |
| Sampler.DeltaMinIsMainLoopMinimum | osjitter.c:664-682 | tsc_delta_min is the minimum over main-loop gaps only, and UINT64_MAX without any |
| Sampler.DeltaMinStep | osjitter.c:681-682 | a main-loop read lowers the baseline to its gap when the gap is smaller |
| Sampler.OverflowOnlyWhenFull | osjitter.c:659-677 | a nonzero tsc_overflow implies more than n counted gaps |
| Sampler.OverflowKept | osjitter.c:659-677 | once set, tsc_overflow is never overwritten |
| Sampler.OverflowIsCountedRead | osjitter.c:659-677 | a nonzero tsc_overflow is the read ending a counted gap found when the buffer was full |
| Sampler.WitnessExtends | osjitter.c:676-677 | that witness stays valid as reads are added |
| Sampler.OverflowSetByLast | osjitter.c:659-677 | the read that first sets tsc_overflow is its witness |
| Sampler.MainLoopStoredAtLeastBaseline | osjitter.c:674-682 | every recorded main-loop delta is at least the baseline |
| Sampler.TruncatedGapExample | osjitter.c:670 | a main-loop gap of 2^32 + 50 ticks counts as 50 ticks |
| Sampler.Reduced | osjitter.c:697-700 | deltas[k] -= tsc_delta_min in uint32_t; exact when deltas[k] >= tsc_delta_min |
| Sampler.SamplingStep | osjitter.c:668-683 | one more main-loop read is one more loop body |
| Sampler.SamplingLast | osjitter.c:668-683 | every read after the first is one more loop body, with its 32-bit gap |
| Sampler.MainLoopReducedExactly | osjitter.c:694-700 | the drain's subtraction does not wrap for any main-loop sample |
| Sampler.UnsetBaselineAddsOne | osjitter.c:651-700 | if the main loop never runs, the baseline stays UINT64_MAX and every sample is increased by 1 mod 2^32 |
| Sampler.CmpU32Sub | osjitter.c:614-619 | osjitter's comparator: *x - *y wrapped into int |
| Sampler.CmpU32SubAgrees | osjitter.c:614-619 | when the values differ by less than 2^31 its sign agrees with util.h's cmp_u32 |
| Sampler.CmpU32SubWrongSign | osjitter.c:614-619 | otherwise it does not, and it is not transitive |
| Sampler.StopAt | osjitter.c:647-668 | the first read at or beyond the limit ends the loop |
| Sampler.Taken | osjitter.c:646-668 | the number of reads the measurement consumes |
| Sampler.Ends | osjitter.c:646-668 | the loop ends: either start is already at the limit or some read reaches it |
| Sampler.Worker.constructor | osjitter.c:625-634 | calloc(n): n zeroed deltas and zeroed counters |
| Sampler.Worker.Snapshot | osjitter.c:641-683 | the counters and the recorded prefix of ds as a value |
| Sampler.Worker.Sample | osjitter.c:641-683 | after the loop the state equals Sampling over the consumed reads, and ds beyond the records is untouched |
| Sampler.Worker.Step | osjitter.c:668-683 | one loop body updates the state as Record does |
| Sampler.Worker.Drain | osjitter.c:689-701 | samples = min(i, n) and thresh_cnt = i; total -= delta_min * i mod 2^64; the retained samples become the sorted reduced values; the rest is unchanged |
| Sampler.Worker.ReduceBy | osjitter.c:697-700 | ds[k] -= m for k < count and nothing else |
| JitterArgs.TakesOperand | osjitter.c:113-170 | the options followed by an operand: --cpu, -t, -d, --sched, --prio and --khz |
| JitterArgs.ParseFrom | osjitter.c:112-187 | the outcome of parse_args over argv from index i with the options so far: help, -1 for a missing operand, a rejected --cpu range or an unknown argument, otherwise the options with the defaults applied |
| JitterArgs.CpuOperand | osjitter.c:119-133 | a "--cpu" operand only adds CPUs, each below 1024 |
| JitterArgs.Range | osjitter.c:128-130 | the inclusive range b..e |
| JitterArgs.ApplyOption | osjitter.c:113-170 | an option with an operand fails only for an out-of-range "--cpu" |
| JitterArgs.Finish | osjitter.c:180-185 | runtime defaults to 10 s, the threshold to 100 ns, and the sample count to runtime * 105000 (wrapped to 32 bits); values already set are kept |
| JitterArgs.ParseArgs | osjitter.c:107-188 | the argv loop gives the result of ParseArgsSpec |
| JitterArgs.AddRange | osjitter.c:128-130 | the CPU_SET loop adds exactly b..e |
| JitterArgs.DefaultOptions | osjitter.c:180-185 | no options: no CPUs, 10 s, 100 ns, 1050000 samples |
| JitterArgs.SamplesWrapAround | osjitter.c:184-185 | runtime_s * 105000 wraps in 32 bits: -t 40905 gives 57704 samples |
| JitterArgs.MissingOperand | osjitter.c:114-117 | an option needing an operand as the last argument gives -1 |
| JitterArgs.UnknownOrHelp | osjitter.c:171-177 | -h and --help show the help; anything else unknown gives -1 |
| JitterArgs.SchedDefaultsPriority | osjitter.c:148-156 | --sched sets the priority to 1 only when it is still 0 |
| JitterArgs.CpuRangeOperand | osjitter.c:119-130 | "--cpu B-E" adds exactly B..E when both are below 1024, and fails otherwise |
| JitterArgs.FirstDashAfterDigits | osjitter.c:119 | strchr finds the dash right after the leading digits |
| JitterArgs.SingleCpuOperand | osjitter.c:132 | "--cpu C" adds C when it is below 1024 |
| ProcSched.AfterKey | osjitter.c:527-533 | the text after the first occurrence of the key |
| ProcSched.KeyLine | osjitter.c:534-539 | the key's line up to the first newline after it, which it does not contain |
| ProcSched.ParseSched | osjitter.c:526-546 | the three errors (key missing, no newline after it, no space before that newline), each if and only if its condition holds; otherwise the atol of the text after the last space on the key's line |
| ProcSched.ParseSchedLine | osjitter.c:526-546 | a line "KEY ... V\n" gives V |
| ProcSched.NewlineAfter | osjitter.c:534 | memchr finds the newline that ends the line |
| ProcSched.LastSpaceBeforeDigits | osjitter.c:540 | memrchr finds the space right before the value |
| Report.RankBelow | osjitter.c:784-795 | every rank a/b with a < b selects an element of a nonempty array |
| Report.OvflNs | osjitter.c:778-779 | 0 when tsc_overflow is 0, otherwise the converted time from tsc_start |
| Report.OvflNsMonotone | osjitter.c:778-779 | a later overflow gives a later overflow time when the conversion does not wrap |
| Report.MaxSample | osjitter.c:796 | the last sorted sample, or 0 without samples; it bounds every sample and is one of them |
| Report.Columns | osjitter.c:784-797 | the six percentile columns and the max column, in nanoseconds |
| Report.ColumnsOfNoSamples | osjitter.c:784-797 | without samples every such column is 0 |
| Report.MaxBoundsPercentiles | osjitter.c:784-797 | the max column bounds each percentile column when nothing wraps |
| Report.PpRow | osjitter.c:750-798 | the row's integer columns from the worker; the MAD is the median of the sorted deviations left in ys |
| PingPongArgs.NumberFlag | pingpong.c:167-194 | the flags followed by one number: --khz, -n, -k and -p |
| PingPongArgs.SetNumber | pingpong.c:167-194 | the field each number flag sets to its operand's atoi, as unsigned |
| PingPongArgs.ParseFrom | pingpong.c:163-231 | the outcome of parse_args over argv from index i with the arguments so far |
| PingPongArgs.MethodFlag | pingpong.c:209-220 | the method each method flag selects; never the "more pauses" variant |
| PingPongArgs.SetPin | pingpong.c:206 | pin[j] = cpu + 1 as unsigned, and the other pin is kept |
| PingPongArgs.PinnedCpu | pingpong.c:735-738 | 0 means unpinned, otherwise the CPU is pin - 1 |
| PingPongArgs.Finish | pingpong.c:226-231 | n defaults to 10^6 and k to 1000, and set values are kept; --spin-pause with nonzero -p becomes the "more pauses" variant |
| PingPongArgs.ParseArgs | pingpong.c:160-233 | the argv loop gives the result of ParseArgsSpec |
| PingPongArgs.DefaultArgs | pingpong.c:226-229 | no arguments: 10^6 iterations, 1000 pauses, spinning, unpinned |
| PingPongArgs.LastMethodWins | pingpong.c:209-220 | of two method flags the later wins |
| PingPongArgs.SpinPauseWithPauses | pingpong.c:230-231 | --spin-pause -p 5 selects the "more pauses" variant, and -p 5 alone does not |
| PingPongArgs.PinStores | pingpong.c:195-206 | --pin J CPU with J <= 1 stores CPU + 1, so the thread is pinned to CPU |
| PingPongArgs.PinThreadOutOfRange | pingpong.c:202-205 | a thread number above 1 gives -1 |
| PingPongArgs.PinMinusOneUnpinned | pingpong.c:200-206 | "--pin 0 -1" wraps to 0, which leaves the thread unpinned |
| PingPongArgs.MissingOperand | pingpong.c:168-199 | an option needing an operand as the last argument gives -1 |
| PingPongArgs.PinNeedsTwoOperands | pingpong.c:196-199 | --pin needs two operands |
| PingPongArgs.UnknownOrHelp | pingpong.c:164-224 | -h and --help show the help; an unknown argument exits with status 1 |
| PingPong.IsSend | pingpong.c:282 | iteration i sends when i % 2 equals the thread's init |
| PingPong.SourceCapacity | pingpong.c:271 | the buffer spin_main allocates as written: n / 2 entries |
| PingPong.Pauses | pingpong.c:283 | the pauses before a send: k for the first two iterations, k * 2 in unsigned arithmetic after |
| PingPong.PauseTotal | pingpong.c:281-285 | the pauses of all sends among the first n iterations |
| PingPong.ReceiveCount | pingpong.c:281-308 | the number of receives among the first n iterations |
| PingPong.ReceiveCountClosed | pingpong.c:282 | thread 0 receives floor(n/2) times and thread 1 ceil(n/2) times |
| PingPong.SourceCapacityTooSmall | pingpong.c:250-307 | for odd n thread 1 receives one more time than the n/2 entries calloc provides |
| PingPong.Capacity | pingpong.c:271 | the corrected buffer size ceil(n/2), never below n/2 |
| PingPong.CapacitySuffices | pingpong.c:250-271 | both threads' receives fit in ceil(n/2), and thread 1 fills it |
| PingPong.PauseTotalClosed | pingpong.c:282-285 | one of the first two iterations sends with k pauses; every later send pauses 2k times |
| PingPong.Stored | pingpong.c:305-306 | the 64-bit delta stored into uint32_t keeps its low 32 bits |
| PingPong.Worker.constructor | pingpong.c:235-244 | a worker with its role, n and k, and no deltas yet |
| PingPong.Worker.Finalize | pingpong.c:248-262 | on allocation failure nothing is stored; otherwise raw_ds is an unsorted copy of the first j deltas, ds is sorted in place as a permutation of them, and ds_size = j |
| PingPong.Worker.SpinMain | pingpong.c:264-311 | with a ceil(n/2) buffer: the receive count of deltas, stored truncated, and the finalize result; the pauses add up to PauseTotal |
| PingPong.Worker.SpinNullMain | pingpong.c:314-337 | n/2 deltas, stored truncated, then finalized |
| PingPong.ReceiveCountMonotone | pingpong.c:281-308 | the receive count grows with the iteration count |
| PingPong.CapacityAt | pingpong.c:306 | every receive writes inside the corrected buffer |
| PingPong.PpThread | pingpong.c:676-715 | no row if and only if ds_size is 0; otherwise min, max, the six percentiles and the MAD, converted |
| PingPong.MinBoundsPercentiles | pingpong.c:698-713 | the min column is at most every percentile column when nothing wraps |
| PingPongJson.Sep | pingpong.c:657-661 | what precedes value i on its line: " " for the first, ", " for every later one; never a digit or ']' |
| PingPongJson.BodyFrom | pingpong.c:656-663 | values i.. of a thread, each printed with %" PRIu64 " after its separator |
| PingPongJson.ThreadText | pingpong.c:655-664 | one thread's line: "    [", the values, "]" |
| PingPongJson.JsonText | pingpong.c:652-668 | the whole file: "[\n", thread 0, ",\n", thread 1, "\n]\n" |
| PingPongJson.Converted | pingpong.c:657-663 | each printed value is mul_u64_u32_shr of the raw delta |
| PingPongJson.BodyAppend | pingpong.c:660-663 | printing one more value appends ", v" |
| PingPongJson.AppendThread | pingpong.c:655-664 | a thread's line is "    [", " v0", ", vj"..., "]" |
| PingPongJson.PrintJson | pingpong.c:650-670 | the output is "[\n", thread 0, ",\n", thread 1, "\n]\n" |
| PingPongJson.ReadBodyFrom | pingpong.c:656-663 | the values of a thread's line read back |
| PingPongJson.ReadItemCons | pingpong.c:660-662 | a separator and a printed value followed by a non-digit read back as that value and the rest |
| PingPongJson.ReadBodyFromStep | pingpong.c:660-663 | one more printed value in front reads back as one more value |
| PingPongJson.ThreadRoundTrip | pingpong.c:655-664 | a thread's line reads back as its values |
| PingPongJson.NoBracketInBody | pingpong.c:656-663 | no ']' appears among the printed values |
| PingPongJson.FirstBracket | pingpong.c:664-666 | the first ']' closes thread 0's line |
| PingPongJson.JsonRoundTrip | pingpong.c:650-670 | the whole output reads back as both threads' values |
| PingPongJson.JsonExample | pingpong.c:650-670 | values 5 and 12 and an empty thread print as the expected text |
| BenchTidy.Aggregate | helper/bench2tidy.py:8-12 | a line is an aggregate row when one of the three keys occurs in it |
| BenchTidy.IsNotAPoint | helper/bench2tidy.py:8-12 | true if and only if the line contains _mean", _median" or _stddev" |
| BenchTidy.AggregateExamples | helper/bench2tidy.py:8-12 | a plain row is kept and a _mean row is an aggregate |
| BenchTidy.KeyMakesAggregate | helper/bench2tidy.py:8-12 | a line containing _mean", _median" or _stddev" anywhere is an aggregate |
| BenchTidy.Step | helper/bench2tidy.py:22-25 | aggregates are skipped; a line without ",ns," fails; otherwise host + "," + the text before the last ",ns," and a newline |
| BenchTidy.DataLine | helper/bench2tidy.py:22-25 | one iteration in state 1 has exactly the outcome Step describes |
| BenchTidy.HeaderAt | helper/bench2tidy.py:18-20 | the first line starting with the column header |
| BenchTidy.Emit | helper/bench2tidy.py:21-25 | the data lines in order: aggregates skipped, kept lines written, and the run ending at the first line without ",ns," |
| BenchTidy.DumpSpec | helper/bench2tidy.py:14-25 | what dump_csv writes for one file: nothing up to the first header line, then Emit of the lines after it |
| BenchTidy.DumpCsv | helper/bench2tidy.py:14-25 | the two-state loop gives the result of DumpSpec |
| BenchTidy.EmitSnoc | helper/bench2tidy.py:17-25 | a later line only appends to the output |
| BenchTidy.HeaderFirst | helper/bench2tidy.py:18-20 | state 1 begins at the first header line |
| BenchTidy.EmitFailed | helper/bench2tidy.py:24 | after a failure nothing more is written |
| BenchTidy.NoHeaderNoOutput | helper/bench2tidy.py:18-20 | without a header line nothing is written |
| BenchTidy.HeaderOnce | helper/bench2tidy.py:18-25 | once in state 1 a second header is an ordinary data line |
| BenchTidy.MissingUnitFails | helper/bench2tidy.py:24 | a kept line without ",ns," raises |
| BenchTidy.PointWritten | helper/bench2tidy.py:24-25 | a kept line is written as host, its columns before the last ",ns,", and a newline |
| BenchTidy.HostOf | helper/bench2tidy.py:32 | no host if and only if the name has no '-'; otherwise a Python slice from after the last '-' to four from the end |
| BenchTidy.HostOfName | helper/bench2tidy.py:32 | PREFIX-HOST.csv gives HOST |
| BenchTidy.HostOfShortName | helper/bench2tidy.py:32 | a '-' among the last four characters gives an empty host |
| BenchTidy.MergeSpec | helper/bench2tidy.py:28-33 | the output starts with the merged header |
| BenchTidy.Merge | helper/bench2tidy.py:28-33 | the loop over files gives the result of MergeSpec |
| BenchTidy.PrefixFailure | helper/bench2tidy.py:31-33 | after a failing file the later files change nothing |
| BenchTidy.FilesInOrder | helper/bench2tidy.py:31-33 | files are processed in argument order |

## Left out

- **Hardware reads**: the TSC reads (`fenced_rdtsc`, `fenced_rdtscp`, tsc.h) are input sequences. The measurement loop assumes that some read reaches the limit.
- **Concurrency**: threads, atomics, spin barriers and the ordering of `main` are not modelled, in both programs. This includes pingpong's cond-var, pipe and futex workers, `spin_pause_main` and `spin_pause_more_main`. The handshake of `spin_main` is reduced to the send/receive alternation, the pause counts and the recorded deltas.
- **Floating point**: `set_params` (osjitter.c:389-440) converts nanoseconds to ticks in floating point. The threshold and the runtime in ticks are inputs to `Sampler.Worker.Sample`. The iratio column (osjitter.c:781) is also left out.
- **OS and file I/O**: `get_tsc_khz_proc`, `check_cpuinfo`, `is_cpu_online`, the open/read part of `read_proc_sched`, `sysconf`, affinity and scheduling attributes, and `nanosleep`. The probes' outcomes are parameters.
- **Thread struct layout**: `get_tid_off` and `pthread_to_tid` read glibc's private thread struct.
- **printf layout**: column widths and headers of both `pp_results`. The integer values of each row are modelled.
- **realloc in pp_results**: the scratch array is a parameter. A failing realloc is not modelled.
- **osjitter.c duplicates**: the copies of `percentile_u32`, `mad_u32`, `clocks_calc_mult_shift` and `mul_u64_u32_shr` are modelled once, from util.c and util.h (osjitter's `mad_u32` sorts with its own comparator; see Report.PpRow under "Left out"). The two copies that differ are modelled separately: `cmp_u32` (Sampler.CmpU32Sub) and the journal probe without the `l < 11` guard (TscKhz.OsjitterCopyLength).
- **Other files**: ptp-clock-offset.c, ptp-clock-future.h, bench_syscalls.cc and helper/bench_playbook.py are not part of this model. `parse_args` of bench2tidy.py (argparse) is also left out.
- Text.Atoi: the overflow of C's `int` (undefined behaviour) is not modelled. Values are converted to `unsigned`/`uint32_t` modulo 2^32 where the source stores them.
- Stats.SortPrefix: `qsort` is modelled as an insertion sort. Only its result is specified (sorted permutation), not its algorithm.
- Sampler.Worker.Drain: sorts with util.h's comparator (the corrected order); osjitter's own comparator is modelled as written in Sampler.CmpU32Sub.
- PingPong.Worker.SpinMain: uses the corrected buffer size ceil(n/2). The source's n/2 is modelled by PingPong.SourceCapacity. The handshake loops (`t <= tsc`, `new_tsc > tsc`) are not modelled. The received deltas are an input.
- PingPong.Worker.Finalize: the `assert(j <= x->n/2)` is a precondition against the corrected capacity ceil(n/2).
- PingPong.PpThread: takes one thread at a time; the loop over both threads is not modelled.
- Sampler.Worker.constructor: a failing `calloc` (osjitter.c:628-633) is not modelled. The constructor always yields n zeroed deltas, so the NULL thread result and main's "One thread reported an error" path (osjitter.c:880-884) are out of the model.
- Report.PpRow: gives the row of one worker. The `pp_results` loop over the CPUs that skips those not in the CPU set (osjitter.c:750-753) is not modelled, and neither is the failing `realloc` of the sample copy (osjitter.c:756-760).
- Report.PpRow: the `invol_switch` column is a parameter; it comes from ProcSched.ParseSched after the file read.
- Report.PpRow: osjitter's own `mad_u32` (osjitter.c:734-743) sorts the deviations with osjitter's `*x - *y` comparator; the model sorts them in util.h's order, like Sampler.Worker.Drain. Since |d_a - d_b| <= |x_a - x_b| for deviations from one median, the two orders can differ on the deviations only where they already differ on the samples (values 2^31 or more apart).
- BenchTidy.Merge: the file contents are a parameter (one sequence of lines per file). A file name without '-' raises in Python and ends the run; Merge then stops with a failed outcome.

## Findings

| source | as written | input that shows it | evidently intended | confidence | as-written member | corrected member |
|---|---|---|---|---|---|---|
| osjitter.c:614-619 | the qsort comparator returns `*x - *y`, a 32-bit difference converted to int | 0 and 0x80000001: the difference is 0x7FFFFFFF > 0, so 0 sorts above 2^31 + 1 | the three-way comparison of util.h's cmp_u32 | high (not executed) | Sampler.CmpU32SubWrongSign | Sampler.Worker.Drain |
| pingpong.c:250-307 | spin_main allocates n/2 entries, but the thread with init = 1 receives ceil(n/2) times | n = 3: thread 1 receives twice into a buffer of 1 entry; the assert at line 250 fails, or the write at line 306 is out of bounds | a buffer of ceil(n/2) entries | high (not executed) | PingPong.SourceCapacityTooSmall | PingPong.CapacitySuffices |
| osjitter.c:304-320 | osjitter's copy of the journal probe has no `l < 11` guard before the splice | empty output: getline returns -1, and the first copy length l - 1 - 8 - 1 becomes 2^64 - 11 bytes into a 16-byte buffer | util.c's guard `if (l < 11) return 0;` | high (not executed) | TscKhz.OsjitterEmptyOutputOverflows | TscKhz.GuardedCopyFits |
