# jcmd-ui back end, modelled in Dafny

jcmd-ui is a desktop front end for the JDK's `jcmd` tool. Its Rust back end
(`src-tauri/src/main.rs`) runs `jcmd` and turns the text reports into data.
It has five commands:

- `get_jvm_processes` lists the running JVMs.
- `get_vm_information` reads the JVM arguments and resources from `VM.info`.
- `get_jvm_metrics` reads the used heap and metaspace sizes from `GC.heap_info`.
  It then reads the native-memory summary from `VM.native_memory`. It appends
  one time-stamped value per memory region to a process-wide metrics cache and
  returns the cached series.
- `get_threads` parses a `Thread.print -e` thread dump into application and
  JVM threads. It replaces each thread's CPU time by the time used since the
  previous dump, using a per-thread CPU cache. It counts the threads by state
  and appends the two counts to the metrics cache.
- `reset` empties the metrics cache.

The model keeps the structure of the source:

- `wrappers.dfy`: `Option`, `Result` and the errors the commands return.
- `text.dfy`: the string operations the parsers use (split, join, replace, trim).
- `numbers.dfy`: integer parsing and `calculate_thread_time`.
- `memory_tokens.dfy`: `parse_memory_from_heap_info`,
  `parse_reserved_committed` and `parse_name_reserved_committed`.
- `processes.dfy`, `vm_info.dfy`: the first two commands.
- `heap_info.dfy`: the heap-info scan of `get_jvm_metrics`.
- `metrics.dfy`: the metrics cache, as a class, and the native-memory half
  of `get_jvm_metrics`.
- `thread_cache.dfy`: the CPU cache, as a class, and `update_thread_cache`.
- `thread_dump.dfy`: `get_threads`.

Each loop of the source is a method. It is proved equal to a fold function
over the same rows or tokens, and the properties are lemmas about those
functions. A `jcmd` run is a `ToolRun` parameter: either the text and exit
status it produced, or the error text of a process that could not be started.
The clock reading is a `time` parameter. A Rust `unwrap` that fails is
`Err(Panic)`.

## Model

| member | source | states |
|---|---|---|
| Numbers.Wrap64 | src-tauri/src/main.rs:746-746 | a `u64` product in a release build is below 2^64 and equals the exact product when that fits |
| Numbers.ParseUnsignedRoundTrip | src-tauri/src/main.rs:692-696 | an integer parse reads back every value of the type from its decimal rendering |
| Numbers.DecimalReadBack | src-tauri/src/main.rs:741-745 | a rendered number survives trimming and parses back to itself |
| Numbers.ParseUnsignedSound | src-tauri/src/main.rs:515-515 | a successful integer parse lies below the type's limit; the text is digits with an optional leading `+` |
| Numbers.ThreadTime | src-tauri/src/main.rs:665-684 | `calculate_thread_time`: the token without its field name, `ms` and `s`, a decimal comma read as a point, parsed and converted to milliseconds, a failed parse being the panic; its properties are the lemmas below |
| Numbers.MillisecondsToken | src-tauri/src/main.rs:665-684 | a duration token ending in `ms` decodes to its numeral, a decimal comma read as a point |
| Numbers.SecondsToken | src-tauri/src/main.rs:665-684 | a duration token ending in `s` decodes to 1000 times its numeral |
| Numbers.CpuMillisecondsExample | src-tauri/src/main.rs:665-684 | `cpu=250.00ms` decodes to 250 ms |
| Numbers.ElapsedSecondsExample | src-tauri/src/main.rs:665-684 | `elapsed=12.50s` decodes to 12500 ms |
| Numbers.DecimalCommaExample | src-tauri/src/main.rs:677-679 | `cpu=1,5ms` decodes to 1.5 ms |
| Numbers.ElapsedTokensCountAsSeconds | src-tauri/src/main.rs:666-672 | the unit is chosen on the raw token, so the `s` of `elapsed=` makes every `elapsed=` token without an `m` count in seconds |
| Numbers.MinutesTokenPanics | src-tauri/src/main.rs:666-683 | a bare minutes token such as `elapsed=3m` is read in minutes, but its `m` is never removed, so the float parse fails and the decoder panics |
| MemoryTokens.SizeInBytes | src-tauri/src/main.rs:731-746 | a size token in bytes: unit letters and commas deleted, the rest read as a `u64` and scaled by its unit, wrapping at 2^64; SizeTokenBytes, PlainSizeBytes and KilobyteToken state what it reads |
| MemoryTokens.MemoryFromHeapInfo | src-tauri/src/main.rs:725-750 | `parse_memory_from_heap_info` on a row split at spaces; MemoryFromTokens and LabelledSize state which token it reads |
| MemoryTokens.MemoryFromTokens | src-tauri/src/main.rs:725-750 | the size reader returns no figure exactly when no token equals the marker |
| MemoryTokens.ParseMemoryFromHeapInfo | src-tauri/src/main.rs:725-750 | the token loop returns what the size-reader function specifies: the scaled size next to the first marker, `None` without a marker, a panic when the neighbour is missing or not a number |
| MemoryTokens.SizeTokenBytes | src-tauri/src/main.rs:731-746 | a number followed by `K`, `M` or `G` and an optional comma is read back, scaled by 1024, 1024^2 or 1024^3, wrapping at 2^64 |
| MemoryTokens.PlainSizeBytes | src-tauri/src/main.rs:737-746 | a plain number is a number of bytes |
| MemoryTokens.LabelledSize | src-tauri/src/main.rs:726-730 | on a row of space-free tokens, the size is read from the token after the first occurrence of the marker, or the token before it when `reversed` |
| MemoryTokens.KilobyteToken | src-tauri/src/main.rs:731-746 | a figure written as `nK,` reads as n * 1024 bytes |
| MemoryTokens.UsedKilobytesExample | src-tauri/src/main.rs:725-750 | `used 100K,` gives 102400 bytes for the marker `used` |
| MemoryTokens.FieldFigure | src-tauri/src/main.rs:690-705 | the figure of a `reserved=` or `committed=` token, read as a `u64`; CleanedFigure, FieldFigureRoundTrip and FieldFigureRejects state what it accepts |
| MemoryTokens.ReservedCommitted | src-tauri/src/main.rs:686-709 | `parse_reserved_committed` as the token fold read with FieldFigure; ReservedPresent, ReservedLastWins, CommittedPresent, CommittedLastWins and SizesPanic state its result |
| MemoryTokens.ParseReservedCommitted | src-tauri/src/main.rs:686-709 | the token loop returns the reserved/committed fold, including its panic |
| MemoryTokens.SizesSticky | src-tauri/src/main.rs:689-706 | once a token panics, later tokens do not change the outcome |
| MemoryTokens.ReservedPresent | src-tauri/src/main.rs:690-697 | for any figure reader, the reserved figure is present exactly when some token starts with `reserved=` |
| MemoryTokens.ReservedLastWins | src-tauri/src/main.rs:690-697 | for any figure reader, the reserved figure is that of the last `reserved=` token, found at the returned position |
| MemoryTokens.CommittedPresent | src-tauri/src/main.rs:698-705 | the committed figure is present exactly when some token sets it |
| MemoryTokens.CommittedLastWins | src-tauri/src/main.rs:698-705 | the committed figure is that of the last token setting it, found at the returned position |
| MemoryTokens.SizesPanic | src-tauri/src/main.rs:689-706 | the loop fails exactly when some `reserved=` or `committed=` token cannot be read |
| MemoryTokens.CleanedFigure | src-tauri/src/main.rs:692-694 | the integer parse is handed the value part of a field token, when that part holds no `=`, comma or whitespace |
| MemoryTokens.FieldFigureRoundTrip | src-tauri/src/main.rs:690-705 | `reserved=n` and `committed=n` read back as n |
| MemoryTokens.FieldFigureRejects | src-tauri/src/main.rs:692-696 | a negative figure such as `reserved=-5` is not a `u64` and panics |
| MemoryTokens.ParseNameReservedCommitted | src-tauri/src/main.rs:711-723 | the name loop plus the figures equal the region-name function and the reserved/committed fold |
| MemoryTokens.RegionName | src-tauri/src/main.rs:712-720 | the region name: the tokens before the first figure, trimmed and joined by single spaces; RegionNameOfWords states it for plain words |
| MemoryTokens.RegionNameOfWords | src-tauri/src/main.rs:712-720 | plain words before a `reserved` token give those words joined by single spaces as the name |
| Processes.ProcessOfLine | src-tauri/src/main.rs:86-112 | one listing line: skipped for the tool itself or for fewer than two tokens, otherwise id, name and the rest joined as path; SkippedLines and LineRoundTrip state both directions |
| Processes.ProcessList | src-tauri/src/main.rs:85-114 | the processes of the lines in order; ProcessListAppend and ListedProcessesComeFromLines state its shape |
| Processes.SkippedLines | src-tauri/src/main.rs:86-92 | a line is skipped exactly when it holds `jdk.jcmd` or has no space |
| Processes.LineRoundTrip | src-tauri/src/main.rs:93-112 | a process read from a line, written back out, gives the line; its path is absent exactly when the line has two tokens |
| Processes.RenderedRoundTrip | src-tauri/src/main.rs:93-112 | a process whose id and name hold no space, written out and read back, is itself |
| Processes.ProcessListAppend | src-tauri/src/main.rs:85-114 | the list of two runs of lines is the list of the first followed by that of the second |
| Processes.ListedProcessesComeFromLines | src-tauri/src/main.rs:85-114 | every listed process is read from some line of the output |
| Processes.ParseProcesses | src-tauri/src/main.rs:82-116 | the line loop returns the process-list function of the output's lines |
| Processes.GetJvmProcesses | src-tauri/src/main.rs:78-122 | the list on success; the start-up error when `jcmd` cannot start; the generic failure when it exits with a failure status |
| VmInfo.MatchingLabel | src-tauri/src/main.rs:159-190 | the label found is one the row starts with; none is found exactly when the row starts with no label |
| VmInfo.ScanArguments | src-tauri/src/main.rs:139-152 | the row loop of the arguments block returns the last-row-wins values of `jvm_args:` and `java_command:` |
| VmInfo.ResourceStep | src-tauri/src/main.rs:159-190 | one resources row, the first label it starts with deciding its field; ResourcePrefixesExclusive and ResourceStepFields state that the order of the tests does not matter |
| VmInfo.ResourcePrefixesExclusive | src-tauri/src/main.rs:159-190 | no row starts with labels of two different resource fields |
| VmInfo.ResourceStepFields | src-tauri/src/main.rs:159-190 | one row sets each resource field as the rule for that field's labels alone says |
| VmInfo.ResourcesAreLastRows | src-tauri/src/main.rs:153-199 | each resource field comes from the last row starting with one of its labels, and is absent when there is none |
| VmInfo.ScanResources | src-tauri/src/main.rs:153-199 | the row loop of the resources block returns the resources function |
| VmInfo.VmInfoOf | src-tauri/src/main.rs:130-201 | the block fold of the report; HeaderOfBlock, PresentIffBlock, LastResourcesBlockWins and LastArgumentsBlockWins state its result |
| VmInfo.ParseVmInfo | src-tauri/src/main.rs:130-201 | the block loop returns the block fold of the report cut at blank lines |
| VmInfo.HeaderOfBlock | src-tauri/src/main.rs:135-153 | a block's first row starts with a header exactly when the block does, and no block starts with both headers |
| VmInfo.PresentIffBlock | src-tauri/src/main.rs:132-201 | resources, and likewise arguments, are present exactly when some block starts with their header |
| VmInfo.LastResourcesBlockWins | src-tauri/src/main.rs:153-199 | the resources come from the last `GC Precious Log:` block |
| VmInfo.LastArgumentsBlockWins | src-tauri/src/main.rs:138-152 | the arguments come from the last `VM Arguments:` block |
| VmInfo.LastRowWins | src-tauri/src/main.rs:141-148 | a field is the last row starting with one of its labels, that label deleted and the rest trimmed |
| VmInfo.GetVmInformation | src-tauri/src/main.rs:125-213 | the summary on success; the start-up error; the generic failure on a failure exit status |
| HeapInfo.HeapStep | src-tauri/src/main.rs:241-276 | one heap-report row; SpacesOnlyFromTheirRows, HeapOnlyFromHeapRows and the collector lemmas below state which row changes which figure |
| HeapInfo.HeapFold | src-tauri/src/main.rs:241-276 | the rows in order, the first panic ending the scan; HeapFoldSticky and the lemmas below state its result |
| HeapInfo.HeapInfoOf | src-tauri/src/main.rs:232-277 | the heap half of `get_jvm_metrics`: `NoSuchProcess` when the report says so, otherwise the figures of the fold; ScanHeapInfo is proved equal to it |
| HeapInfo.HeapFoldSticky | src-tauri/src/main.rs:241-276 | once a row panics, later rows do not change the outcome |
| HeapInfo.ScanHeapInfo | src-tauri/src/main.rs:232-277 | the row loop returns the heap-info function: `NoSuchProcess` when the report says so, otherwise the scanned figures or the panic |
| HeapInfo.SpacesOnlyFromTheirRows | src-tauri/src/main.rs:241-276 | the metaspace and class-space figures change only on their own rows; the Shenandoah flag only on a Shenandoah header |
| HeapInfo.HeapOnlyFromHeapRows | src-tauri/src/main.rs:241-276 | outside a pending Shenandoah read, the used heap changes only on a collector row |
| HeapInfo.SerialOldGenerationAdds | src-tauri/src/main.rs:253-258 | a serial old-generation row adds its figure to a known young one, wrapping at 2^64; without a young one the row is ignored |
| HeapInfo.YoungGenerationSets | src-tauri/src/main.rs:259-261 | a parallel young-generation row sets the used heap from its own figure |
| HeapInfo.ParallelOldGenerationAdds | src-tauri/src/main.rs:262-267 | a parallel old-generation row adds its figure to a known young one; without a young one the row is ignored |
| HeapInfo.ParallelHeapIsYoungPlusOld | src-tauri/src/main.rs:259-267 | the parallel collector's used heap is young plus old, wrapping at 2^64 |
| HeapInfo.OldGenerationAloneIgnored | src-tauri/src/main.rs:262-267 | an old-generation row with no young row before it leaves the used heap unknown |
| HeapInfo.ShenandoahPending | src-tauri/src/main.rs:242-246 | after a Shenandoah header, rows that carry no figure before `used` leave the used heap unknown and the read pending |
| HeapInfo.ShenandoahUsedFromFirstFigure | src-tauri/src/main.rs:242-246 | after a Shenandoah header, the used heap is the first figure found before `used` in a later row |
| HeapInfo.CollectorRowUsed | src-tauri/src/main.rs:725-750 | a collector row `<name> used nK` reads back n * 1024 bytes for the marker `used` |
| HeapInfo.ParallelHeapExample | src-tauri/src/main.rs:259-267 | rows `PSYoungGen used 100K` and `ParOldGen used 200K` give a used heap of 307200 bytes |
| Metrics.KindOf | src-tauri/src/main.rs:305-413 | the kind of a summary row: `Total:` first, then the `-` rows by the first area name they hold; ApplyRowSeries states what each kind does |
| Metrics.ApplyRow | src-tauri/src/main.rs:305-413 | one summary row applied to the cache; ApplyRowGrows and ApplyRowSeries state its effect |
| Metrics.ApplyRows | src-tauri/src/main.rs:305-415 | a group of rows applied in order, a panic stopping it; ApplyRowsGrows, ApplyRowsKeyed, ApplyRowsAppend and PanicKeepsEarlierRows state its effect |
| Metrics.ProcessRows | src-tauri/src/main.rs:303-420 | the row loop with its buffer; ProcessRowsGrows, ProcessRowsKeyed, TrailingRowsIgnored and GroupThenRest state its effect |
| Metrics.NativeMemoryCall | src-tauri/src/main.rs:282-436 | the native-memory half of `get_jvm_metrics`; NativeMemoryCallEffect states its effect |
| Metrics.MetricsCall | src-tauri/src/main.rs:216-438 | `get_jvm_metrics`; MetricsCallEffect states its effect |
| Metrics.Recorded | src-tauri/src/main.rs:395-411 | recording a region creates its series or appends to it; other regions are unchanged; series stay filed under their own names |
| Metrics.ApplyRowGrows | src-tauri/src/main.rs:305-414 | applying a summary row only appends values stamped with the call's time; thread counts are untouched and no region disappears |
| Metrics.ApplyRowSeries | src-tauri/src/main.rs:305-413 | each kind of row appends exactly one value, to its own series, stamped with the call's time: class space and metaspace from the heap report, the heap used from the heap figures, threads with no count; an unrecognised row changes nothing; only the rows whose figures are read can panic |
| Metrics.RecordedGrows | src-tauri/src/main.rs:395-411 | recording a region is such an append |
| Metrics.ApplyRowsGrows | src-tauri/src/main.rs:305-415 | applying a group of rows is such an append, even when it panics part way |
| Metrics.ProcessRowsGrows | src-tauri/src/main.rs:303-420 | processing the whole report is such an append |
| Metrics.ProcessRowsKeyed | src-tauri/src/main.rs:395-411 | every region series stays filed under its own name |
| Metrics.ApplyRowsKeyed | src-tauri/src/main.rs:395-411 | the same for one group of rows |
| Metrics.TrailingRowsIgnored | src-tauri/src/main.rs:303-420 | rows after the last blank line are never applied |
| Metrics.GroupThenRest | src-tauri/src/main.rs:304-419 | a blank row applies the buffered group, then processing goes on with an empty buffer |
| Metrics.ApplyRowsAppend | src-tauri/src/main.rs:305-415 | applying two runs of rows is applying the first, then the second unless the first panicked |
| Metrics.PanicKeepsEarlierRows | src-tauri/src/main.rs:305-415 | a panicking row stops the group, and the rows before it stay applied |
| Metrics.NativeMemoryCallEffect | src-tauri/src/main.rs:282-436 | the native-memory half only appends time-stamped values; errors other than a panic leave the cache alone; success returns the cached series |
| Metrics.MetricsCallEffect | src-tauri/src/main.rs:216-438 | the same for the whole of `get_jvm_metrics`; a failed heap report leaves the cache alone |
| Metrics.MetricsCache.constructor | src-tauri/src/main.rs:15-26 | the cache starts with the seven named, empty series and no regions |
| Metrics.MetricsCache.Reset | src-tauri/src/main.rs:48-58 | `reset` empties every series and drops every region, keeping the names |
| Metrics.MetricsCache.RecordThreadCounts | src-tauri/src/main.rs:636-652 | appends one value to each thread-count series and changes nothing else |
| Metrics.MetricsCache.RecordRow | src-tauri/src/main.rs:305-414 | one buffered row pushed into the cache; it succeeds exactly when the row function does |
| Metrics.MetricsCache.RecordNativeMemory | src-tauri/src/main.rs:301-421 | the row and buffer loops leave the cache as the report-processing function says; the result says whether a row panicked |
| Metrics.GetJvmMetrics | src-tauri/src/main.rs:216-438 | the handler's result and cache state are those of the handler function |
| ThreadCache.CacheUpdate | src-tauri/src/main.rs:752-771 | a new thread is entered with its CPU time and reports 0; a known thread reports the distance between its CPU times, and only its CPU time changes |
| ThreadCache.ReportsAreDistances | src-tauri/src/main.rs:752-771 | over successive dumps a thread reports 0 first, then each time the distance from its previous CPU time |
| ThreadCache.KnownReports | src-tauri/src/main.rs:755-760 | a thread already in the cache reports the distance from its cached time, then from each previous one |
| ThreadCache.ReportsExample | src-tauri/src/main.rs:752-771 | CPU times 10, 15, 12 report 0, 5, 3 |
| ThreadCache.ThreadCpuCache.constructor | src-tauri/src/main.rs:28-29 | the CPU cache starts empty |
| ThreadCache.ThreadCpuCache.Update | src-tauri/src/main.rs:752-771 | the method's report and new cache are those of the update function |
| ThreadDump.HeaderOf | src-tauri/src/main.rs:468-484 | a block header split into name and rest; HeaderRoundTrip, LoneQuoteHeader and ClosingQuoteLastPanics state its cases |
| ThreadDump.StatusOf | src-tauri/src/main.rs:486-497 | an application thread's state: its second row without the label, runs of spaces collapsed, empty for a one-row block |
| ThreadDump.ApplicationStep | src-tauri/src/main.rs:513-540 | one application header token; ApplicationStepSetsOneField states which field it sets |
| ThreadDump.LastIndexOfChar | src-tauri/src/main.rs:469-476 | the position found holds the character, and no later position does |
| ThreadDump.HeaderRoundTrip | src-tauri/src/main.rs:468-482 | a header row `"name" rest`, with no quote in `rest`, splits back into name and rest |
| ThreadDump.LoneQuoteHeader | src-tauri/src/main.rs:476-479 | with only the opening quote the name is the whole row after it (the release-build wrap of `0 - 1`) |
| ThreadDump.ClosingQuoteLastPanics | src-tauri/src/main.rs:480-482 | a header whose closing quote is the row's last character panics when the rest is sliced |
| ThreadDump.ApplicationFieldsSticky | src-tauri/src/main.rs:513-541 | once an application token panics, later tokens do not change the outcome |
| ThreadDump.ApplicationStepSetsOneField | src-tauri/src/main.rs:513-540 | a field token changes only the field it names, to the figure its decoder reads, and no earlier test takes a later token (`os_prio=` is not read as `prio=`); a token naming no field changes only the stack pointer, and only when it starts with `[` |
| ThreadDump.ApplicationFieldsAfterNid | src-tauri/src/main.rs:534-539 | tokens naming no field leave every field but the stack pointer, which the last `[` token sets: the state words after `nid=` are dropped |
| ThreadDump.ScanApplicationTokens | src-tauri/src/main.rs:500-541 | the application token loop returns the application-field fold, for the decoders it is given |
| ThreadDump.JvmStep | src-tauri/src/main.rs:583-597 | one JVM header token; JvmStateAfterNid states what the tokens after `nid=` do |
| ThreadDump.JvmFieldsSticky | src-tauri/src/main.rs:583-598 | once a JVM token panics, later tokens do not change the outcome |
| ThreadDump.ScanJvmTokens | src-tauri/src/main.rs:576-598 | the JVM token loop returns the JVM-field fold, for the decoders it is given |
| ThreadDump.JvmStateAfterNid | src-tauri/src/main.rs:594-597 | after `nid=`, the tokens that set no field are the JVM thread's state words in order, except those starting with `[`; the other fields are unchanged |
| ThreadDump.ParseBlock | src-tauri/src/main.rs:464-606 | one block: skipped unless it starts with a quote, else an application thread when the rest holds `#`, else a JVM thread; ApplicationIffHash states the choice |
| ThreadDump.ApplicationIffHash | src-tauri/src/main.rs:499-499 | a thread block is an application thread exactly when the rest of its header holds `#` |
| ThreadDump.CountApplication | src-tauri/src/main.rs:564-574 | the application census total rises by one exactly when the state starts with one of the five state names |
| ThreadDump.CountJvm | src-tauri/src/main.rs:615-624 | the JVM census total rises by one exactly when the state starts with `new`, `runnable`, `waiting on condition` or `blocked` |
| ThreadDump.TimedWaitingNotWaiting | src-tauri/src/main.rs:568-571 | a `TIMED_WAITING` thread is counted as timed waiting, not as waiting |
| ThreadDump.ThreadStep | src-tauri/src/main.rs:543-624 | one parsed block listed and counted; RecordThread is proved to do it |
| ThreadDump.DumpFold | src-tauri/src/main.rs:464-627 | the blocks in order, a panic stopping the scan; DumpFoldKeepsCensus and DumpFoldAppends state its result |
| ThreadDump.DumpFoldKeepsCensus | src-tauri/src/main.rs:464-627 | the censuses never count more threads than are listed; cache entries are never dropped |
| ThreadDump.DumpFoldAppends | src-tauri/src/main.rs:464-627 | listed threads keep their place in block order, and each block adds at most one thread |
| ThreadDump.ThreadsCallOf | src-tauri/src/main.rs:442-663 | `get_threads`; ThreadsCallEffect states its effect |
| ThreadDump.ThreadsCallEffect | src-tauri/src/main.rs:442-663 | a completed dump appends one census per kind, stamped with the call's time, counting no more threads than listed; the JVM census has no timed waiting; a panic leaves the metrics cache alone |
| ThreadDump.RecordThread | src-tauri/src/main.rs:543-624 | one parsed block: the CPU cache is updated, the thread listed with its CPU time since the last dump, and its state counted |
| ThreadDump.GetThreads | src-tauri/src/main.rs:442-663 | the handler's result, CPU cache and metrics cache are those of the handler function |

## Left out

- Running `jcmd`, and finding it through `JAVA_HOME` or `JCMD` (`jcmd`, lines 60-76), are outside the model. Each run is a `ToolRun` parameter.
- The clock is a `time` parameter. The `Mutex` and `Lazy` globals are one `MetricsCache` and one `ThreadCpuCache` object passed to the handlers, so concurrent calls are not modelled.
- Text is a sequence of characters. The lossy UTF-8 decoding is not modelled. The header is sliced by byte index, which the model treats as a character index, so non-ASCII thread names are not modelled.
- `f32` CPU and elapsed times are exact reals. Rounding, exponents, `inf` and `NaN` in the float parse are not modelled.
- Arithmetic follows a release build. A `u64` sum or product wraps at 2^64, and the header's `usize` subtraction wraps. The panics a debug build raises on overflow are not modelled.
- ThreadDump.CountApplication: the census counters are unbounded, so the `u32` overflow after 2^32 threads is not modelled.
- Metrics.Snapshot: the `other` regions are a map keyed by name. The unspecified `HashMap` order of the returned list is not modelled.
- Serialisation to the front end (`serde`, Tauri) and the `main` set-up are not modelled.
- The heap-info rules, the reserved/committed loop rules and the thread-dump token loops are stated for any size reader, figure reader or decoders, passed as function parameters. The handlers pass the models of `parse_memory_from_heap_info`, the integer parses and `calculate_thread_time`.
- The `!nid.is_empty()` branch of the application loop does nothing in the source, and the model follows it (ApplicationFieldsAfterNid). The application thread's state is the second row of its block.
- The text of the error messages is not modelled. Each error is a constructor of `Error`.
