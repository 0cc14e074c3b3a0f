/** The VM summary of `get_vm_information`: the tool's `VM.info` report is
    cut into blocks at blank lines; the `VM Arguments:` block gives the JVM
    arguments and the main command, the `GC Precious Log:` block the CPU
    count, the memory and the heap capacities. */
module VmInfo {
  import opened Wrappers
  import opened Text

  datatype VmArguments = VmArguments(jvmArgs: Option<string>, javaCommand: Option<string>)

  datatype VmResources = VmResources(
    cpus: Option<string>,
    memory: Option<string>,
    heapSizeMin: Option<string>,
    heapSizeInit: Option<string>,
    heapSizeMax: Option<string>)

  datatype VmInformation = VmInformation(arguments: Option<VmArguments>, resources: Option<VmResources>)

  const ArgumentsHeader := "VM Arguments:"
  const ResourcesHeader := "GC Precious Log:"

  /** The value of a labelled row: every occurrence of the label deleted,
      the rest trimmed. */
  function Labelled(row: string, marker: string): string
    requires marker != []
  {
    Trim(Replace(row, marker, ""))
  }

  /** The first of the labels the row starts with. */
  function MatchingLabel(row: string, labels: seq<string>): (r: Option<string>)
    ensures r.Some? ==> r.value in labels && r.value <= row
    ensures r.None? <==> forall k | 0 <= k < |labels| :: !(labels[k] <= row)
    decreases |labels|
  {
    if |labels| == 0 then None
    else if labels[0] <= row then Some(labels[0])
    else MatchingLabel(row, labels[1..])
  }

  predicate NonEmptyLabels(labels: seq<string>) {
    forall k | 0 <= k < |labels| :: labels[k] != []
  }

  /** A field after one more row: the row's value, its label deleted and
      the rest trimmed, when the row starts with one of `labels`; the
      previous value otherwise. */
  function Refill(prior: Option<string>, row: string, labels: seq<string>): Option<string>
    requires NonEmptyLabels(labels)
  {
    match MatchingLabel(row, labels)
    case Some(l) => Some(Labelled(row, l))
    case None => prior
  }

  /** A field filled from the rows starting with one of `labels`: the last
      such row wins; absent when no row starts with a label. */
  function LastField(rows: seq<string>, labels: seq<string>): Option<string>
    requires NonEmptyLabels(labels)
    decreases |rows|
  {
    if |rows| == 0 then None
    else Refill(LastField(rows[..|rows| - 1], labels), rows[|rows| - 1], labels)
  }

  /** The arguments block: `jvm_args:` and `java_command:` rows. */
  function ArgumentsOf(rows: seq<string>): VmArguments {
    VmArguments(LastField(rows, ["jvm_args:"]), LastField(rows, ["java_command:"]))
  }

  lemma LastFieldStep(rows: seq<string>, i: nat, labels: seq<string>)
    requires NonEmptyLabels(labels) && i < |rows|
    ensures LastField(rows[..i + 1], labels) == Refill(LastField(rows[..i], labels), rows[i], labels)
  {
    assert rows[..i + 1][..i] == rows[..i];
  }

  /** The row loop of the arguments block: a row starting with a label sets
      its field, the last one winning. */
  method ScanArguments(rows: seq<string>) returns (a: VmArguments)
    ensures a == ArgumentsOf(rows)
  {
    var jvmArgs: Option<string> := None;
    var javaCommand: Option<string> := None;
    for i := 0 to |rows|
      invariant VmArguments(jvmArgs, javaCommand) == ArgumentsOf(rows[..i])
    {
      var row := rows[i];
      LastFieldStep(rows, i, ["jvm_args:"]);
      LastFieldStep(rows, i, ["java_command:"]);
      PrefixesExclusive("jvm_args:", "java_command:", row, 1);
      if "jvm_args:" <= row {
        jvmArgs := Some(Labelled(row, "jvm_args:"));
      } else if "java_command:" <= row {
        javaCommand := Some(Labelled(row, "java_command:"));
      }
    }
    assert rows[..|rows|] == rows;
    return VmArguments(jvmArgs, javaCommand);
  }

  /** One row of the resources block, its labels tested in order; the first
      one the row starts with decides the field it sets. Z prints the heap
      capacities without the word `Heap`. */
  function ResourceStep(acc: VmResources, row: string): VmResources {
    if " CPUs:" <= row then acc.(cpus := Some(Labelled(row, " CPUs:")))
    else if " Memory:" <= row then acc.(memory := Some(Labelled(row, " Memory:")))
    else if " Heap Min Capacity:" <= row then acc.(heapSizeMin := Some(Labelled(row, " Heap Min Capacity:")))
    else if " Min Capacity:" <= row then acc.(heapSizeMin := Some(Labelled(row, " Min Capacity:")))
    else if " Heap Initial Capacity:" <= row then acc.(heapSizeInit := Some(Labelled(row, " Heap Initial Capacity:")))
    else if " Initial Capacity:" <= row then acc.(heapSizeInit := Some(Labelled(row, " Initial Capacity:")))
    else if " Heap Max Capacity:" <= row then acc.(heapSizeMax := Some(Labelled(row, " Heap Max Capacity:")))
    else if " Max Capacity:" <= row then acc.(heapSizeMax := Some(Labelled(row, " Max Capacity:")))
    else acc
  }

  /** The resources block, row by row. */
  function ResourcesOf(rows: seq<string>): VmResources
    decreases |rows|
  {
    if |rows| == 0 then VmResources(None, None, None, None, None)
    else ResourceStep(ResourcesOf(rows[..|rows| - 1]), rows[|rows| - 1])
  }

  /** No row starts with labels of two different resource fields. */
  lemma ResourcePrefixesExclusive(row: string)
    ensures " Memory:" <= row ==> !(" CPUs:" <= row)
    ensures " Heap Min Capacity:" <= row || " Min Capacity:" <= row ==> !(" CPUs:" <= row) && !(" Memory:" <= row)
    ensures " Heap Initial Capacity:" <= row || " Initial Capacity:" <= row ==>
      !(" CPUs:" <= row) && !(" Memory:" <= row) && !(" Heap Min Capacity:" <= row) && !(" Min Capacity:" <= row)
    ensures " Heap Max Capacity:" <= row || " Max Capacity:" <= row ==>
      !(" CPUs:" <= row) && !(" Memory:" <= row) && !(" Heap Min Capacity:" <= row) && !(" Min Capacity:" <= row)
      && !(" Heap Initial Capacity:" <= row) && !(" Initial Capacity:" <= row)
  {
    PrefixesExclusive(" Memory:", " CPUs:", row, 1);
    PrefixesExclusive(" Heap Min Capacity:", " CPUs:", row, 1);
    PrefixesExclusive(" Heap Min Capacity:", " Memory:", row, 1);
    PrefixesExclusive(" Min Capacity:", " CPUs:", row, 1);
    PrefixesExclusive(" Min Capacity:", " Memory:", row, 2);
    PrefixesExclusive(" Heap Initial Capacity:", " CPUs:", row, 1);
    PrefixesExclusive(" Heap Initial Capacity:", " Memory:", row, 1);
    PrefixesExclusive(" Heap Initial Capacity:", " Heap Min Capacity:", row, 6);
    PrefixesExclusive(" Heap Initial Capacity:", " Min Capacity:", row, 1);
    PrefixesExclusive(" Initial Capacity:", " CPUs:", row, 1);
    PrefixesExclusive(" Initial Capacity:", " Memory:", row, 1);
    PrefixesExclusive(" Initial Capacity:", " Heap Min Capacity:", row, 1);
    PrefixesExclusive(" Initial Capacity:", " Min Capacity:", row, 1);
    PrefixesExclusive(" Heap Max Capacity:", " CPUs:", row, 1);
    PrefixesExclusive(" Heap Max Capacity:", " Memory:", row, 1);
    PrefixesExclusive(" Heap Max Capacity:", " Heap Min Capacity:", row, 7);
    PrefixesExclusive(" Heap Max Capacity:", " Min Capacity:", row, 1);
    PrefixesExclusive(" Heap Max Capacity:", " Heap Initial Capacity:", row, 6);
    PrefixesExclusive(" Heap Max Capacity:", " Initial Capacity:", row, 1);
    PrefixesExclusive(" Max Capacity:", " CPUs:", row, 1);
    PrefixesExclusive(" Max Capacity:", " Memory:", row, 2);
    PrefixesExclusive(" Max Capacity:", " Heap Min Capacity:", row, 1);
    PrefixesExclusive(" Max Capacity:", " Min Capacity:", row, 2);
    PrefixesExclusive(" Max Capacity:", " Heap Initial Capacity:", row, 1);
    PrefixesExclusive(" Max Capacity:", " Initial Capacity:", row, 1);
  }

  /** One row sets each resource field exactly as the last-row-wins rule
      for that field's labels says. */
  lemma ResourceStepFields(acc: VmResources, row: string)
    ensures ResourceStep(acc, row) == VmResources(
      Refill(acc.cpus, row, [" CPUs:"]),
      Refill(acc.memory, row, [" Memory:"]),
      Refill(acc.heapSizeMin, row, [" Heap Min Capacity:", " Min Capacity:"]),
      Refill(acc.heapSizeInit, row, [" Heap Initial Capacity:", " Initial Capacity:"]),
      Refill(acc.heapSizeMax, row, [" Heap Max Capacity:", " Max Capacity:"]))
  {
    ResourcePrefixesExclusive(row);
  }

  /** Each resource field is taken from the last row starting with one of
      its labels, and is absent when there is none. */
  lemma {:induction false} ResourcesAreLastRows(rows: seq<string>)
    ensures ResourcesOf(rows) == VmResources(
      LastField(rows, [" CPUs:"]),
      LastField(rows, [" Memory:"]),
      LastField(rows, [" Heap Min Capacity:", " Min Capacity:"]),
      LastField(rows, [" Heap Initial Capacity:", " Initial Capacity:"]),
      LastField(rows, [" Heap Max Capacity:", " Max Capacity:"]))
    decreases |rows|
  {
    if |rows| > 0 {
      ResourcesAreLastRows(rows[..|rows| - 1]);
      ResourceStepFields(ResourcesOf(rows[..|rows| - 1]), rows[|rows| - 1]);
    }
  }

  /** The row loop of the resources block. */
  method ScanResources(rows: seq<string>) returns (res: VmResources)
    ensures res == ResourcesOf(rows)
  {
    var cpus: Option<string> := None;
    var memory: Option<string> := None;
    var heapSizeMin: Option<string> := None;
    var heapSizeInit: Option<string> := None;
    var heapSizeMax: Option<string> := None;
    for i := 0 to |rows|
      invariant VmResources(cpus, memory, heapSizeMin, heapSizeInit, heapSizeMax) == ResourcesOf(rows[..i])
    {
      var row := rows[i];
      assert rows[..i + 1][..i] == rows[..i];
      if " CPUs:" <= row {
        cpus := Some(Labelled(row, " CPUs:"));
      } else if " Memory:" <= row {
        memory := Some(Labelled(row, " Memory:"));
      } else if " Heap Min Capacity:" <= row {
        heapSizeMin := Some(Labelled(row, " Heap Min Capacity:"));
      } else if " Min Capacity:" <= row {
        heapSizeMin := Some(Labelled(row, " Min Capacity:"));
      } else if " Heap Initial Capacity:" <= row {
        heapSizeInit := Some(Labelled(row, " Heap Initial Capacity:"));
      } else if " Initial Capacity:" <= row {
        heapSizeInit := Some(Labelled(row, " Initial Capacity:"));
      } else if " Heap Max Capacity:" <= row {
        heapSizeMax := Some(Labelled(row, " Heap Max Capacity:"));
      } else if " Max Capacity:" <= row {
        heapSizeMax := Some(Labelled(row, " Max Capacity:"));
      }
    }
    assert rows[..|rows|] == rows;
    return VmResources(cpus, memory, heapSizeMin, heapSizeInit, heapSizeMax);
  }

  /** The blocks of the report seen so far: an arguments block replaces the
      arguments, a resources block the resources, any other block is
      ignored. A block is recognised by its first row. */
  function VmInfoOf(blocks: seq<string>): VmInformation
    decreases |blocks|
  {
    if |blocks| == 0 then VmInformation(None, None)
    else
      var prior := VmInfoOf(blocks[..|blocks| - 1]);
      var rows := Split(blocks[|blocks| - 1], '\n');
      if ArgumentsHeader <= rows[0] then prior.(arguments := Some(ArgumentsOf(rows)))
      else if ResourcesHeader <= rows[0] then prior.(resources := Some(ResourcesOf(rows)))
      else prior
  }

  /** The block loop of `get_vm_information`. */
  method ParseVmInfo(output: string) returns (info: VmInformation)
    ensures info == VmInfoOf(SplitOn(output, "\n\n"))
  {
    var blocks := SplitOn(output, "\n\n");
    var arguments: Option<VmArguments> := None;
    var resources: Option<VmResources> := None;
    for i := 0 to |blocks|
      invariant VmInformation(arguments, resources) == VmInfoOf(blocks[..i])
    {
      assert blocks[..i + 1][..i] == blocks[..i];
      var rows := Split(blocks[i], '\n');
      var firstRow := rows[0];
      if ArgumentsHeader <= firstRow {
        var a := ScanArguments(rows);
        arguments := Some(a);
      } else if ResourcesHeader <= firstRow {
        var r := ScanResources(rows);
        resources := Some(r);
      }
    }
    assert blocks[..|blocks|] == blocks;
    return VmInformation(arguments, resources);
  }

  /** A block's first row starts with a header exactly when the block does. */
  lemma HeaderOfBlock(block: string)
    ensures ArgumentsHeader <= Split(block, '\n')[0] <==> ArgumentsHeader <= block
    ensures ResourcesHeader <= Split(block, '\n')[0] <==> ResourcesHeader <= block
    ensures !(ArgumentsHeader <= block && ResourcesHeader <= block)
  {
    FirstPiecePrefix(block, '\n', ArgumentsHeader);
    FirstPiecePrefix(block, '\n', ResourcesHeader);
    PrefixesExclusive(ArgumentsHeader, ResourcesHeader, block, 0);
  }

  /** The resources are absent exactly when no block starts with the
      resources header; likewise the arguments. Each is unaffected by the
      other kind of block. */
  lemma {:induction false} PresentIffBlock(blocks: seq<string>)
    ensures VmInfoOf(blocks).resources.Some? <==> exists i | 0 <= i < |blocks| :: ResourcesHeader <= blocks[i]
    ensures VmInfoOf(blocks).arguments.Some? <==> exists i | 0 <= i < |blocks| :: ArgumentsHeader <= blocks[i]
    decreases |blocks|
  {
    if |blocks| > 0 {
      var init := blocks[..|blocks| - 1];
      PresentIffBlock(init);
      HeaderOfBlock(blocks[|blocks| - 1]);
      assert forall i | 0 <= i < |init| :: init[i] == blocks[i];
    }
  }

  /** The resources come from the last resources block, found at the
      returned position. */
  lemma {:induction false} LastResourcesBlockWins(blocks: seq<string>) returns (i: nat)
    requires VmInfoOf(blocks).resources.Some?
    ensures i < |blocks| && ResourcesHeader <= blocks[i]
    ensures VmInfoOf(blocks).resources == Some(ResourcesOf(Split(blocks[i], '\n')))
    ensures forall j | i < j < |blocks| :: !(ResourcesHeader <= blocks[j])
    decreases |blocks|
  {
    var init := blocks[..|blocks| - 1];
    HeaderOfBlock(blocks[|blocks| - 1]);
    if ResourcesHeader <= blocks[|blocks| - 1] {
      i := |blocks| - 1;
    } else {
      i := LastResourcesBlockWins(init);
    }
  }

  /** The arguments come from the last arguments block, found at the
      returned position. */
  lemma {:induction false} LastArgumentsBlockWins(blocks: seq<string>) returns (i: nat)
    requires VmInfoOf(blocks).arguments.Some?
    ensures i < |blocks| && ArgumentsHeader <= blocks[i]
    ensures VmInfoOf(blocks).arguments == Some(ArgumentsOf(Split(blocks[i], '\n')))
    ensures forall j | i < j < |blocks| :: !(ArgumentsHeader <= blocks[j])
    decreases |blocks|
  {
    var init := blocks[..|blocks| - 1];
    HeaderOfBlock(blocks[|blocks| - 1]);
    if ArgumentsHeader <= blocks[|blocks| - 1] {
      i := |blocks| - 1;
    } else {
      i := LastArgumentsBlockWins(init);
    }
  }

  /** A field is the last row starting with one of its labels, found at the
      returned position, with that label deleted and the rest trimmed. */
  lemma {:induction false} LastRowWins(rows: seq<string>, labels: seq<string>) returns (i: nat)
    requires NonEmptyLabels(labels) && LastField(rows, labels).Some?
    ensures i < |rows| && MatchingLabel(rows[i], labels).Some?
    ensures LastField(rows, labels) == Some(Labelled(rows[i], MatchingLabel(rows[i], labels).value))
    ensures forall j | i < j < |rows| :: MatchingLabel(rows[j], labels).None?
    decreases |rows|
  {
    if MatchingLabel(rows[|rows| - 1], labels).Some? {
      i := |rows| - 1;
    } else {
      i := LastRowWins(rows[..|rows| - 1], labels);
    }
  }

  /** `get_vm_information`: the summary when the tool ran and succeeded, its
      start-up error text when it could not be started, and the generic
      failure message when it exited with a failure status. */
  method GetVmInformation(run: ToolRun) returns (r: Result<VmInformation>)
    ensures run.NotStarted? ==> r == Err(SpawnFailed(run.message))
    ensures run.Ran? && !run.success ==> r == Err(ToolFailed)
    ensures run.Ran? && run.success ==> r == Ok(VmInfoOf(SplitOn(run.stdout, "\n\n")))
  {
    match run
    case NotStarted(message) =>
      r := Err(SpawnFailed(message));
    case Ran(stdout, success) =>
      if success {
        var info := ParseVmInfo(stdout);
        r := Ok(info);
      } else {
        r := Err(ToolFailed);
      }
  }
}
