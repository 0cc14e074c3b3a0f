/** The first half of `get_jvm_metrics`: the tool's `GC.heap_info` report is
    scanned row by row for the used heap (in the layout of whichever
    collector is running), and for the used, committed and reserved sizes of
    the metaspace and of the class space.

    The rules of the scan are stated for any size reader `read(row, marker,
    reversed)`; the scan of a report uses `MemoryFromHeapInfo`, the model of
    `parse_memory_from_heap_info`. What the rules promise therefore does not
    depend on how a size token is decoded. */
module HeapInfo {
  import opened Wrappers
  import opened Text
  import opened Numbers
  import opened MemoryTokens

  /** The figures the scan collects, in bytes. */
  datatype HeapFigures = HeapFigures(
    heapSize: Option<nat>,
    metaspaceSize: Option<nat>,
    metaspaceCommitted: Option<nat>,
    metaspaceReserved: Option<nat>,
    classSpaceSize: Option<nat>,
    classSpaceCommitted: Option<nat>,
    classSpaceReserved: Option<nat>)

  /** The scan state: whether a Shenandoah header has been seen, and the
      figures so far. */
  datatype HeapScan = HeapScan(shenandoah: bool, figures: HeapFigures)

  /** A reader of the size next to a marker in a row. */
  type SizeReader = (string, string, bool) -> Result<Option<nat>>

  const NoFigures := HeapFigures(None, None, None, None, None, None, None)

  const Start := HeapScan(false, NoFigures)

  const NoSuchProcessText := "IOException: No such process"

  /** One row of the report, its cases tested in order:
      - a `Shenandoah` header row marks the collector; until the used heap is
        known, each later row is read for the figure just before `used`;
      - otherwise the row is read by the collector layouts and then by the
        metaspace rows, see `CollectorStep` and `SpaceStep`.
      A size that cannot be read is the `unwrap` panic. */
  function HeapStep(s: HeapScan, row: string, read: SizeReader): Result<HeapScan> {
    if "Shenandoah" <= row then Ok(s.(shenandoah := true))
    else if s.shenandoah && s.figures.heapSize.None? then SetHeap(s, row, true, read)
    else CollectorStep(s, row, read)
  }

  /** The collector layouts:
      - a Z, G1 or serial young-generation row sets the used heap;
      - a serial old-generation row adds its used figure, when the young one
        is known;
      - a parallel young-generation row sets the used heap, a parallel
        old-generation row adds to it likewise. */
  function CollectorStep(s: HeapScan, row: string, read: SizeReader): Result<HeapScan> {
    if " ZHeap" <= row || " garbage-first" <= row || " def new generation" <= row then SetHeap(s, row, false, read)
    else if " tenured generation" <= row && s.figures.heapSize.Some? then AddOldGeneration(s, row, read)
    else if " PSYoungGen" <= row then SetHeap(s, row, false, read)
    else if " ParOldGen" <= row && s.figures.heapSize.Some? then AddOldGeneration(s, row, read)
    else SpaceStep(s, row, read)
  }

  /** A metaspace or class-space row sets that space's used, committed and
      reserved figures. */
  function SpaceStep(s: HeapScan, row: string, read: SizeReader): Result<HeapScan> {
    if " Metaspace" <= row then
      var t :- SpaceFigures(row, read);
      Ok(s.(figures := s.figures.(metaspaceSize := t.0, metaspaceCommitted := t.1, metaspaceReserved := t.2)))
    else if "  class space" <= row then
      var t :- SpaceFigures(row, read);
      Ok(s.(figures := s.figures.(classSpaceSize := t.0, classSpaceCommitted := t.1, classSpaceReserved := t.2)))
    else Ok(s)
  }

  /** The used heap read from the row, before or after `used`. */
  function SetHeap(s: HeapScan, row: string, reversed: bool, read: SizeReader): Result<HeapScan> {
    var used :- read(row, "used", reversed);
    Ok(s.(figures := s.figures.(heapSize := used)))
  }

  /** The used, committed and reserved figures of a space row. */
  function SpaceFigures(row: string, read: SizeReader): Result<(Option<nat>, Option<nat>, Option<nat>)> {
    var used :- read(row, "used", false);
    var committed :- read(row, "committed", false);
    var reserved :- read(row, "reserved", false);
    Ok((used, committed, reserved))
  }

  /** An old-generation row on a known young figure: the used heap becomes
      the `u64` sum of the two when the row has a used figure, and stays as
      it was otherwise. */
  function AddOldGeneration(s: HeapScan, row: string, read: SizeReader): Result<HeapScan>
    requires s.figures.heapSize.Some?
  {
    var oldGen :- read(row, "used", false);
    match oldGen
    case Some(o) => Ok(s.(figures := s.figures.(heapSize := Some(Wrap64(s.figures.heapSize.value + o)))))
    case None => Ok(s)
  }

  /** The rows seen so far, in order; the first panic ends the scan. */
  function HeapFold(rows: seq<string>, read: SizeReader): Result<HeapScan>
    decreases |rows|
  {
    if |rows| == 0 then Ok(Start)
    else
      var prior := HeapFold(rows[..|rows| - 1], read);
      if prior.Err? then prior else HeapStep(prior.value, rows[|rows| - 1], read)
  }

  /** The heap-info half of `get_jvm_metrics` on the report: the process is
      gone when the report says so; otherwise the figures of the scan. */
  function HeapInfoOf(output: string): Result<HeapFigures> {
    if Contains(output, NoSuchProcessText) then Err(NoSuchProcess)
    else
      var s :- HeapFold(Split(output, '\n'), MemoryFromHeapInfo);
      Ok(s.figures)
  }

  /** The scan of one more row. */
  lemma HeapFoldSnoc(rows: seq<string>, row: string, read: SizeReader)
    ensures HeapFold(rows + [row], read) ==
      if HeapFold(rows, read).Err? then HeapFold(rows, read) else HeapStep(HeapFold(rows, read).value, row, read)
  {
    assert (rows + [row])[..|rows|] == rows;
  }

  /** Once the scan has panicked, further rows do not matter. */
  lemma {:induction false} HeapFoldSticky(rows: seq<string>, k: nat, read: SizeReader)
    requires k <= |rows| && HeapFold(rows[..k], read).Err?
    ensures HeapFold(rows, read) == HeapFold(rows[..k], read)
    decreases |rows| - k
  {
    if k < |rows| {
      assert rows[..k + 1][..k] == rows[..k];
      HeapFoldSticky(rows, k + 1, read);
    } else {
      assert rows[..k] == rows;
    }
  }

  /** The row loop of `get_jvm_metrics` over the heap report: each row is
      one step of the scan, and the first panic ends it. */
  method ScanHeapInfo(output: string) returns (r: Result<HeapFigures>)
    ensures r == HeapInfoOf(output)
  {
    if Contains(output, NoSuchProcessText) {
      return Err(NoSuchProcess);
    }
    var rows := Split(output, '\n');
    var scan := Start;
    for i := 0 to |rows|
      invariant HeapFold(rows[..i], MemoryFromHeapInfo) == Ok(scan)
    {
      assert rows[..i + 1][..i] == rows[..i];
      var next := HeapStep(scan, rows[i], MemoryFromHeapInfo);
      if next.Err? {
        HeapFoldSticky(rows, i + 1, MemoryFromHeapInfo);
        return next.PropagateFailure();
      }
      scan := next.value;
    }
    assert rows[..|rows|] == rows;
    return Ok(scan.figures);
  }

  // ---------------------------------------------------------------------------
  // Properties of the scan

  /** A row of one of the heap layouts. */
  predicate HeapRow(row: string) {
    " ZHeap" <= row || " garbage-first" <= row || " def new generation" <= row
    || " tenured generation" <= row || " PSYoungGen" <= row || " ParOldGen" <= row
  }

  /** A row that sets the metaspace or class-space figures. */
  predicate SpaceRow(row: string) {
    " Metaspace" <= row || "  class space" <= row
  }

  /** The metaspace and class-space figures change only on a metaspace or
      class-space row, and the collector flag only on a Shenandoah header. */
  lemma SpacesOnlyFromTheirRows(s: HeapScan, row: string, read: SizeReader)
    requires HeapStep(s, row, read).Ok? && !SpaceRow(row)
    ensures HeapStep(s, row, read).value.figures == s.figures.(heapSize := HeapStep(s, row, read).value.figures.heapSize)
    ensures !("Shenandoah" <= row) ==> HeapStep(s, row, read).value.shenandoah == s.shenandoah
  {
  }

  /** Outside a pending Shenandoah read, the used heap changes only on a
      heap row. */
  lemma HeapOnlyFromHeapRows(s: HeapScan, row: string, read: SizeReader)
    requires HeapStep(s, row, read).Ok? && !HeapRow(row)
    requires !s.shenandoah || s.figures.heapSize.Some?
    ensures HeapStep(s, row, read).value.figures.heapSize == s.figures.heapSize
  {
  }

  /** A parallel old-generation row adds its used figure to a known young
      one, wrapping at 2^64, and leaves it when the row has none; with no
      young figure the row is ignored. */
  lemma {:induction false} ParallelOldGenerationAdds(s: HeapScan, row: string, read: SizeReader)
    requires !s.shenandoah && " ParOldGen" <= row
    ensures s.figures.heapSize.Some? ==> (HeapStep(s, row, read) ==
      match read(row, "used", false)
      case Ok(Some(b)) => Ok(s.(figures := s.figures.(heapSize := Some(Wrap64(s.figures.heapSize.value + b)))))
      case Ok(None) => Ok(s)
      case Err(e) => Err(e))
    ensures s.figures.heapSize.None? ==> HeapStep(s, row, read) == Ok(s)
  {
    PrefixesExclusive(" ParOldGen", "Shenandoah", row, 0);
    PrefixesExclusive(" ParOldGen", " ZHeap", row, 1);
    PrefixesExclusive(" ParOldGen", " garbage-first", row, 1);
    PrefixesExclusive(" ParOldGen", " def new generation", row, 1);
    PrefixesExclusive(" ParOldGen", " tenured generation", row, 1);
    PrefixesExclusive(" ParOldGen", " PSYoungGen", row, 2);
    PrefixesExclusive(" ParOldGen", " Metaspace", row, 1);
    PrefixesExclusive(" ParOldGen", "  class space", row, 1);
  }

  /** The serial collector's old-generation row behaves the same way. */
  lemma {:induction false} SerialOldGenerationAdds(s: HeapScan, row: string, read: SizeReader)
    requires !s.shenandoah && " tenured generation" <= row
    ensures s.figures.heapSize.Some? ==> (HeapStep(s, row, read) ==
      match read(row, "used", false)
      case Ok(Some(b)) => Ok(s.(figures := s.figures.(heapSize := Some(Wrap64(s.figures.heapSize.value + b)))))
      case Ok(None) => Ok(s)
      case Err(e) => Err(e))
    ensures s.figures.heapSize.None? ==> HeapStep(s, row, read) == Ok(s)
  {
    PrefixesExclusive(" tenured generation", "Shenandoah", row, 0);
    PrefixesExclusive(" tenured generation", " ZHeap", row, 1);
    PrefixesExclusive(" tenured generation", " garbage-first", row, 1);
    PrefixesExclusive(" tenured generation", " def new generation", row, 1);
    PrefixesExclusive(" tenured generation", " PSYoungGen", row, 1);
    PrefixesExclusive(" tenured generation", " ParOldGen", row, 1);
    PrefixesExclusive(" tenured generation", " Metaspace", row, 1);
    PrefixesExclusive(" tenured generation", "  class space", row, 1);
  }

  /** A young-generation row of the parallel collector sets the used heap
      from its own figure, whatever was known before. */
  lemma {:induction false} YoungGenerationSets(s: HeapScan, row: string, read: SizeReader)
    requires !s.shenandoah && " PSYoungGen" <= row
    ensures HeapStep(s, row, read) ==
      match read(row, "used", false)
      case Ok(used) => Ok(s.(figures := s.figures.(heapSize := used)))
      case Err(e) => Err(e)
  {
    PrefixesExclusive(" PSYoungGen", "Shenandoah", row, 0);
    PrefixesExclusive(" PSYoungGen", " ZHeap", row, 1);
    PrefixesExclusive(" PSYoungGen", " garbage-first", row, 1);
    PrefixesExclusive(" PSYoungGen", " def new generation", row, 1);
    PrefixesExclusive(" PSYoungGen", " tenured generation", row, 1);
  }

  /** The parallel collector's report: the used heap is the young
      generation's figure plus the old generation's, wrapping at 2^64. */
  lemma {:induction false} ParallelHeapIsYoungPlusOld(young: string, oldGen: string, a: nat, b: nat, read: SizeReader)
    requires " PSYoungGen" <= young && " ParOldGen" <= oldGen
    requires read(young, "used", false) == Ok(Some(a))
    requires read(oldGen, "used", false) == Ok(Some(b))
    ensures HeapFold([young, oldGen], read) == Ok(HeapScan(false, NoFigures.(heapSize := Some(Wrap64(a + b)))))
  {
    var s1 := Start.(figures := NoFigures.(heapSize := Some(a)));
    YoungGenerationSets(Start, young, read);
    HeapFoldSnoc([], young, read);
    assert [] + [young] == [young];
    ParallelOldGenerationAdds(s1, oldGen, read);
    HeapFoldSnoc([young], oldGen, read);
    assert [young] + [oldGen] == [young, oldGen];
  }

  /** A parallel old-generation row with no young one before it leaves the
      used heap unknown. */
  lemma {:induction false} OldGenerationAloneIgnored(oldGen: string, read: SizeReader)
    requires " ParOldGen" <= oldGen
    ensures HeapFold([oldGen], read) == Ok(Start)
  {
    HeapFoldSnoc([], oldGen, read);
    assert [] + [oldGen] == [oldGen];
    ParallelOldGenerationAdds(Start, oldGen, read);
  }

  lemma CollectorRowJoin(name: string, u: string)
    ensures Join(["", name, "used", u], " ") == " " + name + " used " + u
  {
    var ts := ["", name, "used", u];
    assert ts[1..][1..] == ts[2..] && ts[2..][1..] == [u];
    assert Join(ts[2..], " ") == "used " + u;
    assert Join(ts[1..], " ") == name + " used " + u;
  }

  /** A collector row `<name> used <n>K` has n * 1024 bytes used. */
  lemma CollectorRowUsed(name: string, n: nat)
    requires ' ' !in name && name != "used"
    requires n * 1024 < U64_LIMIT
    ensures MemoryFromHeapInfo(" " + name + " used " + (DecimalString(n) + "K"), "used", false) == Ok(Some(n * 1024))
  {
    var u := DecimalString(n) + ['K'] + "";
    assert u == DecimalString(n) + "K";
    var ts := ["", name, "used", u];
    CollectorRowJoin(name, u);
    assert "used" !in ts[..2];
    SizeTokenBytes(u, n, 'K', "");
    assert SizeInBytes(u) == Ok(n * 1024) by {
      assert SizeUnitOf(['K']) == Kilobytes;
    }
    LabelledSize(ts, 2, "used", false);
    assert ts[2 + 1] == u;
  }

  lemma YoungRowExample(young: string)
    requires young == " PSYoungGen used 100K"
    ensures MemoryFromHeapInfo(young, "used", false) == Ok(Some(102400))
  {
    assert young == " " + "PSYoungGen" + " used " + (DecimalString(100) + "K") by {
      assert DecimalString(100) == "100";
    }
    CollectorRowUsed("PSYoungGen", 100);
  }

  lemma OldRowExample(oldGen: string)
    requires oldGen == " ParOldGen used 200K"
    ensures MemoryFromHeapInfo(oldGen, "used", false) == Ok(Some(204800))
  {
    assert oldGen == " " + "ParOldGen" + " used " + (DecimalString(200) + "K") by {
      assert DecimalString(200) == "200";
    }
    CollectorRowUsed("ParOldGen", 200);
  }

  /** A parallel collector's report with 100K used in the young generation
      and 200K in the old one has 307200 bytes of used heap. */
  lemma ParallelHeapExample(young: string, oldGen: string)
    requires young == " PSYoungGen used 100K"
    requires oldGen == " ParOldGen used 200K"
    ensures HeapFold([young, oldGen], MemoryFromHeapInfo) == Ok(HeapScan(false, NoFigures.(heapSize := Some(307200))))
  {
    YoungRowExample(young);
    OldRowExample(oldGen);
    ParallelHeapIsYoungPlusOld(young, oldGen, 102400, 204800, MemoryFromHeapInfo);
  }

  /** After a Shenandoah header, rows whose figure in front of `used` is
      missing leave the used heap unknown and keep it pending. */
  lemma {:induction false} ShenandoahPending(header: string, rows: seq<string>, read: SizeReader)
    requires "Shenandoah" <= header
    requires forall k | 0 <= k < |rows| :: !("Shenandoah" <= rows[k]) && read(rows[k], "used", true) == Ok(None)
    ensures HeapFold([header] + rows, read) == Ok(HeapScan(true, NoFigures))
    decreases |rows|
  {
    if |rows| == 0 {
      HeapFoldSnoc([], header, read);
      assert [] + [header] == [header] + rows;
    } else {
      var init := rows[..|rows| - 1];
      ShenandoahPending(header, init, read);
      HeapFoldSnoc([header] + init, rows[|rows| - 1], read);
      assert [header] + init + [rows[|rows| - 1]] == [header] + rows;
    }
  }

  /** Under Shenandoah the used heap is the figure in front of `used` on the
      first row after the header that has one, whatever that row starts
      with, collector rows included. */
  lemma {:induction false} ShenandoahUsedFromFirstFigure(header: string, rows: seq<string>, row: string, used: nat,
                                                        read: SizeReader)
    requires "Shenandoah" <= header && !("Shenandoah" <= row)
    requires forall k | 0 <= k < |rows| :: !("Shenandoah" <= rows[k]) && read(rows[k], "used", true) == Ok(None)
    requires read(row, "used", true) == Ok(Some(used))
    ensures HeapFold([header] + rows + [row], read) == Ok(HeapScan(true, NoFigures.(heapSize := Some(used))))
  {
    ShenandoahPending(header, rows, read);
    HeapFoldSnoc([header] + rows, row, read);
  }
}
