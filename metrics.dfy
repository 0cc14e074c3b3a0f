/** The metrics cache and the native-memory half of `get_jvm_metrics`.

    The cache keeps one time series per memory area of the monitored JVM,
    one per thread census, and one per other native-memory region, keyed by
    the region's name. Each call of `get_jvm_metrics` reads the heap report,
    then walks the native-memory summary in groups separated by blank rows
    and appends one value stamped with the call's time for every recognised
    row of a group. `reset` empties every series. */
module Metrics {
  import opened Wrappers
  import opened Text
  import opened MemoryTokens
  import HeapInfo

  datatype TotalMemoryValue = TotalMemoryValue(time: nat, reserved: Option<nat>, committed: Option<nat>)

  datatype ClassMemoryValue =
    ClassMemoryValue(time: nat, classCount: nat, reserved: Option<nat>, committed: Option<nat>, used: Option<nat>)

  datatype HeapMemoryValue =
    HeapMemoryValue(time: nat, reserved: Option<nat>, committed: Option<nat>, used: Option<nat>)

  datatype MetaspaceMemoryValue =
    MetaspaceMemoryValue(time: nat, reserved: Option<nat>, committed: Option<nat>, used: Option<nat>)

  datatype ThreadMemoryValue =
    ThreadMemoryValue(time: nat, threadCount: nat, reserved: Option<nat>, committed: Option<nat>)

  /** One thread census: how many threads were in each state. */
  datatype ThreadCountValue = ThreadCountValue(
    time: nat, newCount: nat, runnableCount: nat, waitingCount: nat, timedWaitingCount: nat, blockedCount: nat)

  datatype GenericMemoryValue = GenericMemoryValue(time: nat, reserved: Option<nat>, committed: Option<nat>)

  /** A named time series. */
  datatype NamedMetric<T> = NamedMetric(name: string, values: seq<T>)

  type GenericMemoryMetric = NamedMetric<GenericMemoryValue>

  /** The values held by the cache, series by series. */
  datatype CacheState = CacheState(
    total: seq<TotalMemoryValue>,
    classSpace: seq<ClassMemoryValue>,
    heap: seq<HeapMemoryValue>,
    metaspace: seq<MetaspaceMemoryValue>,
    thread: seq<ThreadMemoryValue>,
    threadCountApplication: seq<ThreadCountValue>,
    threadCountJvm: seq<ThreadCountValue>,
    other: map<string, GenericMemoryMetric>)

  const EmptyCache := CacheState([], [], [], [], [], [], [], map[])

  /** Every other-region series is filed under its own name. */
  predicate KeyedByName(other: map<string, GenericMemoryMetric>) {
    forall k | k in other :: other[k].name == k
  }

  /** What `get_jvm_metrics` hands back: the memory series (the thread
      censuses are not part of it). */
  datatype JvmMetrics = JvmMetrics(
    totalMemory: NamedMetric<TotalMemoryValue>,
    classSpace: NamedMetric<ClassMemoryValue>,
    heap: NamedMetric<HeapMemoryValue>,
    metaspace: NamedMetric<MetaspaceMemoryValue>,
    thread: NamedMetric<ThreadMemoryValue>,
    other: map<string, GenericMemoryMetric>)

  function Snapshot(st: CacheState): JvmMetrics {
    JvmMetrics(
      NamedMetric("Total", st.total), NamedMetric("Class", st.classSpace), NamedMetric("Heap", st.heap),
      NamedMetric("Metaspace", st.metaspace), NamedMetric("Thread", st.thread), st.other)
  }

  // ---------------------------------------------------------------------------
  // One row of a native-memory group

  /** Which series a row of a group feeds, tested in the order of the row
      loop: `Total:` first, then the `-` rows by the first area name they
      contain. */
  datatype RowKind = TotalLine | ClassLine | ThreadLine | JavaHeapLine | MetaspaceLine | OtherLine | Unrecognised

  function KindOf(row: string): RowKind {
    if "Total:" <= row then TotalLine
    else if "-" <= row && Contains(row, "Class") then ClassLine
    else if "-" <= row && Contains(row, "Thread") then ThreadLine
    else if "-" <= row && Contains(row, "Java Heap") then JavaHeapLine
    else if "-" <= row && Contains(row, "Metaspace") then MetaspaceLine
    else if "-" <= row then OtherLine
    else Unrecognised
  }

  /** The punctuation deleted from an area row before it is split. */
  const Punctuation: set<char> := {'(', ')', ','}

  function ThreadTokens(row: string): seq<string> {
    Split(Replace(RemoveChars(row, Punctuation), "Thread", ""), ' ')
  }

  function JavaHeapTokens(row: string): seq<string> {
    Split(Replace(RemoveChars(row, Punctuation), "Java Heap", ""), ' ')
  }

  function OtherTokens(row: string): seq<string> {
    Split(RemoveChars(row, {'-', '(', ')', ','}), ' ')
  }

  /** A value recorded under a region name: a new series holding only that
      value when the name is new, otherwise the value appended to the
      series of that name. */
  function Recorded(other: map<string, GenericMemoryMetric>, name: string, v: GenericMemoryValue)
    : (r: map<string, GenericMemoryMetric>)
    ensures r.Keys == other.Keys + {name}
    ensures r[name].values == (if name in other then other[name].values else []) + [v]
    ensures forall k | k in other && k != name :: r[k] == other[k]
    ensures KeyedByName(other) ==> KeyedByName(r)
  {
    if name !in other then other[name := NamedMetric(name, [v])]
    else other[name := other[name].(values := other[name].values + [v])]
  }

  /** One row of a group: the value it yields appended to its series, or
      the panic of a figure that does not read. The class-space, heap-used
      and metaspace figures come from the heap report. */
  function ApplyRow(st: CacheState, row: string, time: nat, h: HeapInfo.HeapFigures): Result<CacheState> {
    match KindOf(row)
    case TotalLine =>
      var sizes :- ReservedCommitted(Split(row, ' '));
      Ok(st.(total := st.total + [TotalMemoryValue(time, sizes.reserved, sizes.committed)]))
    case ClassLine =>
      Ok(st.(classSpace := st.classSpace +
        [ClassMemoryValue(time, 0, h.classSpaceReserved, h.classSpaceCommitted, h.classSpaceSize)]))
    case ThreadLine =>
      var sizes :- ReservedCommitted(ThreadTokens(row));
      Ok(st.(thread := st.thread + [ThreadMemoryValue(time, 0, sizes.reserved, sizes.committed)]))
    case JavaHeapLine =>
      var sizes :- ReservedCommitted(JavaHeapTokens(row));
      Ok(st.(heap := st.heap + [HeapMemoryValue(time, sizes.reserved, sizes.committed, h.heapSize)]))
    case MetaspaceLine =>
      Ok(st.(metaspace := st.metaspace +
        [MetaspaceMemoryValue(time, h.metaspaceReserved, h.metaspaceCommitted, h.metaspaceSize)]))
    case OtherLine =>
      var region :- NameReservedCommitted(OtherTokens(row));
      Ok(st.(other := Recorded(st.other, region.name,
        GenericMemoryValue(time, region.sizes.reserved, region.sizes.committed))))
    case Unrecognised => Ok(st)
  }

  // ---------------------------------------------------------------------------
  // Groups and the whole summary

  /** A state reached by applying rows, and whether a panic stopped it. */
  datatype Applied = Applied(state: CacheState, panicked: bool)

  /** The rows of a group in order; a panic keeps what the rows before it
      recorded. */
  function ApplyRows(st: CacheState, rows: seq<string>, time: nat, h: HeapInfo.HeapFigures): Applied
    decreases |rows|
  {
    if |rows| == 0 then Applied(st, false)
    else
      match ApplyRow(st, rows[0], time, h)
      case Err(_) => Applied(st, true)
      case Ok(next) => ApplyRows(next, rows[1..], time, h)
  }

  /** The row loop over the summary: rows are gathered into `buffer` until
      a blank row, which applies the gathered group and empties the buffer.
      Rows after the last blank row are never applied. */
  function ProcessRows(st: CacheState, buffer: seq<string>, rows: seq<string>, time: nat, h: HeapInfo.HeapFigures)
    : Applied
    decreases |rows|
  {
    if |rows| == 0 then Applied(st, false)
    else if Trim(rows[0]) == "" then
      var a := ApplyRows(st, buffer, time, h);
      if a.panicked then a else ProcessRows(a.state, [], rows[1..], time, h)
    else ProcessRows(st, buffer + [rows[0]], rows[1..], time, h)
  }

  /** What the native-memory report says when the JVM was started without
      tracking. */
  const NmtDisabledText := "Native memory tracking is not enabled"

  /** A handler call's effect on the cache and its result. */
  datatype Call<T> = Call(state: CacheState, result: Result<T>)

  /** The native-memory half of `get_jvm_metrics`, given the heap figures:
      the exit status is checked, then the two failure texts, then the
      groups are applied to the cache; the result is a snapshot of the
      memory series. */
  function NativeMemoryCall(st: CacheState, h: HeapInfo.HeapFigures, nmtRun: ToolRun, time: nat): Call<JvmMetrics> {
    match nmtRun
    case NotStarted(message) => Call(st, Err(SpawnFailed(message)))
    case Ran(output, success) =>
      if !success then Call(st, Err(ToolFailed))
      else if Contains(output, HeapInfo.NoSuchProcessText) then Call(st, Err(NoSuchProcess))
      else if Contains(output, NmtDisabledText) then Call(st, Err(NmtDisabled))
      else
        var a := ProcessRows(st, [], Split(output, '\n'), time, h);
        if a.panicked then Call(a.state, Err(Panic)) else Call(a.state, Ok(Snapshot(a.state)))
  }

  /** `get_jvm_metrics`: the heap report is read first (its exit status is
      not examined), then the native-memory report. */
  function MetricsCall(st: CacheState, heapRun: ToolRun, nmtRun: ToolRun, time: nat): Call<JvmMetrics> {
    match heapRun
    case NotStarted(message) => Call(st, Err(SpawnFailed(message)))
    case Ran(heapOutput, _) =>
      match HeapInfo.HeapInfoOf(heapOutput)
      case Err(e) => Call(st, Err(e))
      case Ok(h) => NativeMemoryCall(st, h, nmtRun, time)
  }

  // ---------------------------------------------------------------------------
  // The cache only grows during a call

  /** `after` extends `before`, and every value it adds satisfies `stamped`. */
  ghost predicate Extended<T>(before: seq<T>, after: seq<T>, stamped: T -> bool) {
    before <= after && forall i | |before| <= i < |after| :: stamped(after[i])
  }

  /** Every memory series of `a` is a prefix of its series in `b`, every
      value added carries `time`, no region disappears, and the thread
      censuses are untouched. */
  ghost predicate Grows(a: CacheState, b: CacheState, time: nat) {
    && Extended(a.total, b.total, (v: TotalMemoryValue) => v.time == time)
    && Extended(a.classSpace, b.classSpace, (v: ClassMemoryValue) => v.time == time)
    && Extended(a.heap, b.heap, (v: HeapMemoryValue) => v.time == time)
    && Extended(a.metaspace, b.metaspace, (v: MetaspaceMemoryValue) => v.time == time)
    && Extended(a.thread, b.thread, (v: ThreadMemoryValue) => v.time == time)
    && b.threadCountApplication == a.threadCountApplication
    && b.threadCountJvm == a.threadCountJvm
    && a.other.Keys <= b.other.Keys
    && forall k | k in b.other ::
         Extended(if k in a.other then a.other[k].values else [], b.other[k].values,
           (v: GenericMemoryValue) => v.time == time)
  }

  lemma ExtendedTransitive<T>(a: seq<T>, b: seq<T>, c: seq<T>, stamped: T -> bool)
    requires Extended(a, b, stamped) && Extended(b, c, stamped)
    ensures Extended(a, c, stamped)
  {
    forall i | |a| <= i < |c|
      ensures stamped(c[i])
    {
      if i < |b| {
        assert c[i] == b[i];
      }
    }
  }

  lemma GrowsTransitive(a: CacheState, b: CacheState, c: CacheState, time: nat)
    requires Grows(a, b, time) && Grows(b, c, time)
    ensures Grows(a, c, time)
  {
    var g := (v: GenericMemoryValue) => v.time == time;
    ExtendedTransitive(a.total, b.total, c.total, (v: TotalMemoryValue) => v.time == time);
    ExtendedTransitive(a.classSpace, b.classSpace, c.classSpace, (v: ClassMemoryValue) => v.time == time);
    ExtendedTransitive(a.heap, b.heap, c.heap, (v: HeapMemoryValue) => v.time == time);
    ExtendedTransitive(a.metaspace, b.metaspace, c.metaspace, (v: MetaspaceMemoryValue) => v.time == time);
    ExtendedTransitive(a.thread, b.thread, c.thread, (v: ThreadMemoryValue) => v.time == time);
    forall k | k in c.other
      ensures Extended(if k in a.other then a.other[k].values else [], c.other[k].values, g)
    {
      var va := if k in a.other then a.other[k].values else [];
      var vb := if k in b.other then b.other[k].values else [];
      assert Extended(vb, c.other[k].values, g);
      if k in b.other {
        assert Extended(va, vb, g);
      } else {
        assert va == vb;
      }
      ExtendedTransitive(va, vb, c.other[k].values, g);
    }
  }

  /** A row only appends, and what it appends is stamped with the call's
      time; `ApplyRowSeries` says to which series. */
  lemma ApplyRowGrows(st: CacheState, row: string, time: nat, h: HeapInfo.HeapFigures)
    requires ApplyRow(st, row, time, h).Ok?
    ensures Grows(st, ApplyRow(st, row, time, h).value, time)
  {
    var after := ApplyRow(st, row, time, h).value;
    match KindOf(row)
    case OtherLine =>
      var region := NameReservedCommitted(OtherTokens(row)).value;
      RecordedGrows(st, region.name, GenericMemoryValue(time, region.sizes.reserved, region.sizes.committed));
    case TotalLine =>
      var sizes := ReservedCommitted(Split(row, ' ')).value;
      assert after == st.(total := st.total + [TotalMemoryValue(time, sizes.reserved, sizes.committed)]);
    case ThreadLine =>
      var sizes := ReservedCommitted(ThreadTokens(row)).value;
      assert after == st.(thread := st.thread + [ThreadMemoryValue(time, 0, sizes.reserved, sizes.committed)]);
    case JavaHeapLine =>
      var sizes := ReservedCommitted(JavaHeapTokens(row)).value;
      assert after == st.(heap := st.heap + [HeapMemoryValue(time, sizes.reserved, sizes.committed, h.heapSize)]);
    case ClassLine =>
    case MetaspaceLine =>
    case Unrecognised =>
  }

  /** Which series a row feeds. A `Total:`, thread or Java-heap row
      appends exactly one value, stamped with the call's time, to its own
      series; a class or metaspace row appends one value holding the heap
      report's figures; any other `-` row records one value under its
      region's name; every other row changes nothing. No other series
      changes, and only a row whose figures are read can panic. */
  lemma ApplyRowSeries(st: CacheState, row: string, time: nat, h: HeapInfo.HeapFigures)
    ensures ApplyRow(st, row, time, h).Err? ==>
      KindOf(row).TotalLine? || KindOf(row).ThreadLine? || KindOf(row).JavaHeapLine? || KindOf(row).OtherLine?
    ensures KindOf(row).Unrecognised? ==> ApplyRow(st, row, time, h) == Ok(st)
    ensures KindOf(row).ClassLine? ==> ApplyRow(st, row, time, h) == Ok(st.(classSpace := st.classSpace +
      [ClassMemoryValue(time, 0, h.classSpaceReserved, h.classSpaceCommitted, h.classSpaceSize)]))
    ensures KindOf(row).MetaspaceLine? ==> ApplyRow(st, row, time, h) == Ok(st.(metaspace := st.metaspace +
      [MetaspaceMemoryValue(time, h.metaspaceReserved, h.metaspaceCommitted, h.metaspaceSize)]))
    ensures ApplyRow(st, row, time, h).Ok? && KindOf(row).TotalLine? ==>
      var b := ApplyRow(st, row, time, h).value;
      |b.total| == |st.total| + 1 && b == st.(total := st.total + [b.total[|st.total|]])
      && b.total[|st.total|].time == time
    ensures ApplyRow(st, row, time, h).Ok? && KindOf(row).ThreadLine? ==>
      var b := ApplyRow(st, row, time, h).value;
      |b.thread| == |st.thread| + 1 && b == st.(thread := st.thread + [b.thread[|st.thread|]])
      && b.thread[|st.thread|].time == time && b.thread[|st.thread|].threadCount == 0
    ensures ApplyRow(st, row, time, h).Ok? && KindOf(row).JavaHeapLine? ==>
      var b := ApplyRow(st, row, time, h).value;
      |b.heap| == |st.heap| + 1 && b == st.(heap := st.heap + [b.heap[|st.heap|]])
      && b.heap[|st.heap|].time == time && b.heap[|st.heap|].used == h.heapSize
    ensures ApplyRow(st, row, time, h).Ok? && KindOf(row).OtherLine? ==>
      && NameReservedCommitted(OtherTokens(row)).Ok?
      && var region := NameReservedCommitted(OtherTokens(row)).value;
         ApplyRow(st, row, time, h).value == st.(other := Recorded(st.other, region.name,
           GenericMemoryValue(time, region.sizes.reserved, region.sizes.committed)))
  {
  }

  lemma RecordedGrows(st: CacheState, name: string, v: GenericMemoryValue)
    ensures Grows(st, st.(other := Recorded(st.other, name, v)), v.time)
  {
  }

  lemma {:induction false} ApplyRowsGrows(st: CacheState, rows: seq<string>, time: nat, h: HeapInfo.HeapFigures)
    ensures Grows(st, ApplyRows(st, rows, time, h).state, time)
    decreases |rows|
  {
    if |rows| > 0 && ApplyRow(st, rows[0], time, h).Ok? {
      var next := ApplyRow(st, rows[0], time, h).value;
      ApplyRowGrows(st, rows[0], time, h);
      ApplyRowsGrows(next, rows[1..], time, h);
      GrowsTransitive(st, next, ApplyRows(st, rows, time, h).state, time);
    }
  }

  /** Processing the summary, to its end or to a panic, only appends values
      stamped with the call's time; it never drops or rewrites a value and
      leaves the thread censuses alone. */
  lemma {:induction false} ProcessRowsGrows(st: CacheState, buffer: seq<string>, rows: seq<string>, time: nat,
                                           h: HeapInfo.HeapFigures)
    ensures Grows(st, ProcessRows(st, buffer, rows, time, h).state, time)
    decreases |rows|
  {
    if |rows| > 0 {
      if Trim(rows[0]) == "" {
        var a := ApplyRows(st, buffer, time, h);
        ApplyRowsGrows(st, buffer, time, h);
        if !a.panicked {
          ProcessRowsGrows(a.state, [], rows[1..], time, h);
          GrowsTransitive(st, a.state, ProcessRows(st, buffer, rows, time, h).state, time);
        }
      } else {
        ProcessRowsGrows(st, buffer + [rows[0]], rows[1..], time, h);
      }
    }
  }

  /** Every other-region series stays filed under its own name. */
  lemma {:induction false} ProcessRowsKeyed(st: CacheState, buffer: seq<string>, rows: seq<string>, time: nat,
                                           h: HeapInfo.HeapFigures)
    requires KeyedByName(st.other)
    ensures KeyedByName(ProcessRows(st, buffer, rows, time, h).state.other)
    decreases |rows|
  {
    if |rows| > 0 {
      if Trim(rows[0]) == "" {
        ApplyRowsKeyed(st, buffer, time, h);
        var a := ApplyRows(st, buffer, time, h);
        if !a.panicked {
          ProcessRowsKeyed(a.state, [], rows[1..], time, h);
        }
      } else {
        ProcessRowsKeyed(st, buffer + [rows[0]], rows[1..], time, h);
      }
    }
  }

  lemma {:induction false} ApplyRowsKeyed(st: CacheState, rows: seq<string>, time: nat, h: HeapInfo.HeapFigures)
    requires KeyedByName(st.other)
    ensures KeyedByName(ApplyRows(st, rows, time, h).state.other)
    decreases |rows|
  {
    if |rows| > 0 && ApplyRow(st, rows[0], time, h).Ok? {
      ApplyRowsKeyed(ApplyRow(st, rows[0], time, h).value, rows[1..], time, h);
    }
  }

  // ---------------------------------------------------------------------------
  // Grouping

  /** Rows after the last blank row are gathered but never applied. */
  lemma {:induction false} TrailingRowsIgnored(st: CacheState, buffer: seq<string>, rows: seq<string>, time: nat,
                                              h: HeapInfo.HeapFigures)
    requires forall k | 0 <= k < |rows| :: Trim(rows[k]) != ""
    ensures ProcessRows(st, buffer, rows, time, h) == Applied(st, false)
    decreases |rows|
  {
    if |rows| > 0 {
      TrailingRowsIgnored(st, buffer + [rows[0]], rows[1..], time, h);
    }
  }

  /** A blank row applies the gathered rows and empties the buffer. */
  lemma ProcessBlankRow(st: CacheState, buffer: seq<string>, blank: string, rest: seq<string>, time: nat,
                        h: HeapInfo.HeapFigures)
    requires Trim(blank) == ""
    ensures ProcessRows(st, buffer, [blank] + rest, time, h) ==
      var a := ApplyRows(st, buffer, time, h);
      if a.panicked then a else ProcessRows(a.state, [], rest, time, h)
  {
    assert ([blank] + rest)[0] == blank && ([blank] + rest)[1..] == rest;
  }

  /** Any other row is added to the buffer. */
  lemma GatherRow(st: CacheState, buffer: seq<string>, row: string, rows: seq<string>, time: nat,
                  h: HeapInfo.HeapFigures)
    requires Trim(row) != ""
    ensures ProcessRows(st, buffer, [row] + rows, time, h) == ProcessRows(st, buffer + [row], rows, time, h)
  {
    assert ([row] + rows)[0] == row && ([row] + rows)[1..] == rows;
  }

  /** A group closed by a blank row is applied as a whole, from the rows
      already gathered on; the rows after the blank row start a new group. */
  lemma {:induction false} GroupThenRest(st: CacheState, buffer: seq<string>, group: seq<string>, blank: string,
                                        rest: seq<string>, time: nat, h: HeapInfo.HeapFigures)
    requires forall k | 0 <= k < |group| :: Trim(group[k]) != ""
    requires Trim(blank) == ""
    ensures ProcessRows(st, buffer, group + [blank] + rest, time, h) ==
      var a := ApplyRows(st, buffer + group, time, h);
      if a.panicked then a else ProcessRows(a.state, [], rest, time, h)
    decreases |group|
  {
    if |group| == 0 {
      assert group + [blank] + rest == [blank] + rest && buffer + group == buffer;
      ProcessBlankRow(st, buffer, blank, rest, time, h);
    } else {
      assert group + [blank] + rest == [group[0]] + (group[1..] + [blank] + rest);
      assert buffer + [group[0]] + group[1..] == buffer + group;
      GatherRow(st, buffer, group[0], group[1..] + [blank] + rest, time, h);
      GroupThenRest(st, buffer + [group[0]], group[1..], blank, rest, time, h);
    }
  }

  /** Applying two runs of rows is applying the first, then, unless it
      panicked, the second. */
  lemma {:induction false} ApplyRowsAppend(st: CacheState, xs: seq<string>, ys: seq<string>, time: nat,
                                          h: HeapInfo.HeapFigures)
    ensures ApplyRows(st, xs + ys, time, h) ==
      var a := ApplyRows(st, xs, time, h);
      if a.panicked then a else ApplyRows(a.state, ys, time, h)
    decreases |xs|
  {
    if |xs| == 0 {
      assert xs + ys == ys;
    } else {
      assert (xs + ys)[0] == xs[0] && (xs + ys)[1..] == xs[1..] + ys;
      if ApplyRow(st, xs[0], time, h).Ok? {
        ApplyRowsAppend(ApplyRow(st, xs[0], time, h).value, xs[1..], ys, time, h);
      }
    }
  }

  /** A row that panics ends its group with what the rows before it
      recorded: later rows of the group are not applied. */
  lemma PanicKeepsEarlierRows(st: CacheState, rows: seq<string>, k: nat, time: nat, h: HeapInfo.HeapFigures)
    requires k < |rows|
    requires !ApplyRows(st, rows[..k], time, h).panicked
    requires ApplyRow(ApplyRows(st, rows[..k], time, h).state, rows[k], time, h).Err?
    ensures ApplyRows(st, rows, time, h) == Applied(ApplyRows(st, rows[..k], time, h).state, true)
  {
    assert rows == rows[..k] + rows[k..];
    ApplyRowsAppend(st, rows[..k], rows[k..], time, h);
  }

  // ---------------------------------------------------------------------------
  // The handler

  /** Only a panic or a completed run changes the cache; the thread
      censuses are never touched; a completed run returns the series as the
      cache now holds them. */
  lemma NativeMemoryCallEffect(st: CacheState, h: HeapInfo.HeapFigures, nmtRun: ToolRun, time: nat)
    ensures var c := NativeMemoryCall(st, h, nmtRun, time);
      && Grows(st, c.state, time)
      && (c.result.Err? && c.result.error != Panic ==> c.state == st)
      && (c.result.Ok? ==> c.result.value == Snapshot(c.state))
  {
    if nmtRun.Ran? {
      ProcessRowsGrows(st, [], Split(nmtRun.stdout, '\n'), time, h);
    }
  }

  /** The same for the whole handler: a failed heap report leaves the
      cache alone. */
  lemma MetricsCallEffect(st: CacheState, heapRun: ToolRun, nmtRun: ToolRun, time: nat)
    ensures var c := MetricsCall(st, heapRun, nmtRun, time);
      && Grows(st, c.state, time)
      && (c.result.Err? && c.result.error != Panic ==> c.state == st)
      && (c.result.Ok? ==> c.result.value == Snapshot(c.state))
  {
    match heapRun
    case NotStarted(_) =>
    case Ran(heapOutput, _) =>
      var figures := HeapInfo.HeapInfoOf(heapOutput);
      if figures.Ok? {
        NativeMemoryCallEffect(st, figures.value, nmtRun, time);
      }
  }

  // ---------------------------------------------------------------------------
  // The cache object

  class MetricsCache {
    var totalMemory: NamedMetric<TotalMemoryValue>
    var classMetrics: NamedMetric<ClassMemoryValue>
    var heapMetrics: NamedMetric<HeapMemoryValue>
    var metaspaceMetrics: NamedMetric<MetaspaceMemoryValue>
    var threadMetrics: NamedMetric<ThreadMemoryValue>
    var threadCountApplication: NamedMetric<ThreadCountValue>
    var threadCountJvm: NamedMetric<ThreadCountValue>
    var otherMetrics: map<string, GenericMemoryMetric>

    /** The series keep the names they were created with. */
    predicate Valid()
      reads this
    {
      && totalMemory.name == "Total"
      && classMetrics.name == "Class"
      && heapMetrics.name == "Heap"
      && metaspaceMetrics.name == "Metaspace"
      && threadMetrics.name == "Thread"
      && threadCountApplication.name == "ThreadCountApplication"
      && threadCountJvm.name == "ThreadCountJvm"
      && KeyedByName(otherMetrics)
    }

    function State(): CacheState
      reads this
    {
      CacheState(totalMemory.values, classMetrics.values, heapMetrics.values, metaspaceMetrics.values,
        threadMetrics.values, threadCountApplication.values, threadCountJvm.values, otherMetrics)
    }

    /** The cache as the program starts: every series named and empty. */
    constructor ()
      ensures Valid() && State() == EmptyCache
    {
      totalMemory := NamedMetric("Total", []);
      classMetrics := NamedMetric("Class", []);
      heapMetrics := NamedMetric("Heap", []);
      metaspaceMetrics := NamedMetric("Metaspace", []);
      threadMetrics := NamedMetric("Thread", []);
      threadCountApplication := NamedMetric("ThreadCountApplication", []);
      threadCountJvm := NamedMetric("ThreadCountJvm", []);
      otherMetrics := map[];
    }

    /** `reset`: every series emptied, the other regions forgotten. */
    method Reset()
      requires Valid()
      modifies this
      ensures Valid() && State() == EmptyCache
    {
      classMetrics := classMetrics.(values := []);
      heapMetrics := heapMetrics.(values := []);
      metaspaceMetrics := metaspaceMetrics.(values := []);
      otherMetrics := map[];
      totalMemory := totalMemory.(values := []);
      threadCountApplication := threadCountApplication.(values := []);
      threadCountJvm := threadCountJvm.(values := []);
      threadMetrics := threadMetrics.(values := []);
    }

    /** One thread census of each kind appended, as `get_threads` does. */
    method RecordThreadCounts(application: ThreadCountValue, jvm: ThreadCountValue)
      requires Valid()
      modifies this
      ensures Valid()
      ensures State() == old(State()).(
        threadCountApplication := old(State()).threadCountApplication + [application],
        threadCountJvm := old(State()).threadCountJvm + [jvm])
    {
      threadCountApplication := threadCountApplication.(values := threadCountApplication.values + [application]);
      threadCountJvm := threadCountJvm.(values := threadCountJvm.values + [jvm]);
    }

    /** One buffered row of a native-memory group; `false` is the panic of
      a figure that does not read, which leaves the cache as it was. */
    method RecordRow(row: string, time: nat, h: HeapInfo.HeapFigures) returns (ok: bool)
      requires Valid()
      modifies this
      ensures Valid()
      ensures ok <==> ApplyRow(old(State()), row, time, h).Ok?
      ensures State() == if ok then ApplyRow(old(State()), row, time, h).value else old(State())
    {
      if "Total:" <= row {
        var sizes := ParseReservedCommitted(Split(row, ' '));
        if sizes.Err? {
          return false;
        }
        totalMemory := totalMemory.(values := totalMemory.values +
          [TotalMemoryValue(time, sizes.value.reserved, sizes.value.committed)]);
      } else if "-" <= row && Contains(row, "Class") {
        classMetrics := classMetrics.(values := classMetrics.values +
          [ClassMemoryValue(time, 0, h.classSpaceReserved, h.classSpaceCommitted, h.classSpaceSize)]);
      } else if "-" <= row && Contains(row, "Thread") {
        var sizes := ParseReservedCommitted(ThreadTokens(row));
        if sizes.Err? {
          return false;
        }
        threadMetrics := threadMetrics.(values := threadMetrics.values +
          [ThreadMemoryValue(time, 0, sizes.value.reserved, sizes.value.committed)]);
      } else if "-" <= row && Contains(row, "Java Heap") {
        var sizes := ParseReservedCommitted(JavaHeapTokens(row));
        if sizes.Err? {
          return false;
        }
        heapMetrics := heapMetrics.(values := heapMetrics.values +
          [HeapMemoryValue(time, sizes.value.reserved, sizes.value.committed, h.heapSize)]);
      } else if "-" <= row && Contains(row, "Metaspace") {
        metaspaceMetrics := metaspaceMetrics.(values := metaspaceMetrics.values +
          [MetaspaceMemoryValue(time, h.metaspaceReserved, h.metaspaceCommitted, h.metaspaceSize)]);
      } else if "-" <= row {
        var region := ParseNameReservedCommitted(OtherTokens(row));
        if region.Err? {
          return false;
        }
        var n := region.value.name;
        var metric := GenericMemoryValue(time, region.value.sizes.reserved, region.value.sizes.committed);
        if n !in otherMetrics {
          otherMetrics := otherMetrics[n := NamedMetric(n, [metric])];
        } else {
          otherMetrics := otherMetrics[n := otherMetrics[n].(values := otherMetrics[n].values + [metric])];
        }
      }
      return true;
    }

    /** The row loop of `get_jvm_metrics` over the native-memory report;
      `false` is a panic, after which the rows already applied stay
      recorded. */
    method RecordNativeMemory(output: string, time: nat, h: HeapInfo.HeapFigures) returns (ok: bool)
      requires Valid()
      modifies this
      ensures Valid()
      ensures ProcessRows(old(State()), [], Split(output, '\n'), time, h) == Applied(State(), !ok)
    {
      var rows := Split(output, '\n');
      var buffer: seq<string> := [];
      for i := 0 to |rows|
        invariant Valid()
        invariant ProcessRows(State(), buffer, rows[i..], time, h) == ProcessRows(old(State()), [], rows, time, h)
      {
        var row := rows[i];
        assert rows[i..][0] == row && rows[i..][1..] == rows[i + 1..];
        if Trim(row) == "" {
          ghost var groupStart := State();
          for j := 0 to |buffer|
            invariant Valid()
            invariant ApplyRows(State(), buffer[j..], time, h) == ApplyRows(groupStart, buffer, time, h)
          {
            assert buffer[j..][0] == buffer[j] && buffer[j..][1..] == buffer[j + 1..];
            var recorded := RecordRow(buffer[j], time, h);
            if !recorded {
              return false;
            }
          }
          buffer := [];
        } else {
          buffer := buffer + [row];
        }
      }
      return true;
    }
  }

  /** `get_jvm_metrics` on the two tool runs and the call's time. */
  method GetJvmMetrics(cache: MetricsCache, heapRun: ToolRun, nmtRun: ToolRun, time: nat) returns (r: Result<JvmMetrics>)
    requires cache.Valid()
    modifies cache
    ensures cache.Valid()
    ensures Call(cache.State(), r) == MetricsCall(old(cache.State()), heapRun, nmtRun, time)
  {
    if heapRun.NotStarted? {
      return Err(SpawnFailed(heapRun.message));
    }
    var figures := HeapInfo.ScanHeapInfo(heapRun.stdout);
    if figures.Err? {
      return figures.PropagateFailure();
    }
    if nmtRun.NotStarted? {
      return Err(SpawnFailed(nmtRun.message));
    }
    if !nmtRun.success {
      return Err(ToolFailed);
    }
    var output := nmtRun.stdout;
    if Contains(output, HeapInfo.NoSuchProcessText) {
      return Err(NoSuchProcess);
    } else if Contains(output, NmtDisabledText) {
      return Err(NmtDisabled);
    }
    var ok := cache.RecordNativeMemory(output, time, figures.value);
    if !ok {
      return Err(Panic);
    }
    return Ok(Snapshot(cache.State()));
  }
}
