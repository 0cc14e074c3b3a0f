/** The process listing of `get_jvm_processes`: the tool run without
    arguments prints one line per running JVM, its id, main class or jar, and
    arguments, separated by single spaces. */
module Processes {
  import opened Wrappers
  import opened Text

  datatype ProcessRef = ProcessRef(id: string, name: string, path: Option<string>)

  /** One line of the listing: skipped when it is the tool itself (it holds
      `jdk.jcmd`) or has fewer than two space-separated tokens; otherwise the
      first token is the id, the second the name, and any further tokens,
      joined back with spaces, the path. */
  function ProcessOfLine(line: string): Option<ProcessRef> {
    if Contains(line, "jdk.jcmd") then None
    else
      var parts := Split(line, ' ');
      if |parts| < 2 then None
      else if |parts| >= 3 then Some(ProcessRef(parts[0], parts[1], Some(Join(parts[2..], " "))))
      else Some(ProcessRef(parts[0], parts[1], None))
  }

  /** The processes of the listed lines, in line order. */
  function ProcessList(lines: seq<string>): seq<ProcessRef>
    decreases |lines|
  {
    if |lines| == 0 then []
    else
      var prior := ProcessList(lines[..|lines| - 1]);
      match ProcessOfLine(lines[|lines| - 1])
      case Some(p) => prior + [p]
      case None => prior
  }

  /** How a process is written on its line. */
  function Rendered(p: ProcessRef): string {
    p.id + " " + p.name + (if p.path.Some? then " " + p.path.value else "")
  }

  /** A line is skipped exactly when it names the tool itself or holds no
      space. */
  lemma SkippedLines(line: string)
    ensures ProcessOfLine(line).None? <==> Contains(line, "jdk.jcmd") || ' ' !in line
  {
    SplitCount(line, ' ');
  }

  /** A process read from a line gives back that line when written out; its
      path is absent exactly when the line has two tokens. */
  lemma LineRoundTrip(line: string)
    requires ProcessOfLine(line).Some?
    ensures Rendered(ProcessOfLine(line).value) == line
    ensures ProcessOfLine(line).value.path.None? <==> |Split(line, ' ')| == 2
  {
    var parts := Split(line, ' ');
    JoinSplitOn(line, " ");
    assert Join(parts, " ") == parts[0] + " " + Join(parts[1..], " ");
    if |parts| >= 3 {
      assert parts[1..][1..] == parts[2..];
      assert Join(parts[1..], " ") == parts[1] + " " + Join(parts[2..], " ");
    }
  }

  /** Written out and read back, a process whose id and name hold no space
      is itself, provided its line does not name the tool. */
  lemma RenderedRoundTrip(p: ProcessRef)
    requires ' ' !in p.id && ' ' !in p.name
    requires !Contains(Rendered(p), "jdk.jcmd")
    ensures ProcessOfLine(Rendered(p)) == Some(p)
  {
    var line := Rendered(p);
    if p.path.Some? {
      var tail := p.name + " " + p.path.value;
      assert line == p.id + [' '] + tail;
      SplitAfterPiece(p.id, ' ', tail);
      SplitAfterPiece(p.name, ' ', p.path.value);
      var parts := Split(line, ' ');
      assert parts == [p.id, p.name] + Split(p.path.value, ' ');
      assert parts[2..] == Split(p.path.value, ' ');
      JoinSplitOn(p.path.value, " ");
    } else {
      assert line == p.id + [' '] + p.name;
      SplitAfterPiece(p.id, ' ', p.name);
      SplitWithoutSeparator(p.name, ' ');
    }
  }

  /** The listing of two runs of lines is the listing of the first followed
      by that of the second. */
  lemma {:induction false} ProcessListAppend(a: seq<string>, b: seq<string>)
    ensures ProcessList(a + b) == ProcessList(a) + ProcessList(b)
    decreases |b|
  {
    if |b| == 0 {
      assert a + b == a;
    } else {
      var b' := b[..|b| - 1];
      assert (a + b)[..|a + b| - 1] == a + b';
      assert (a + b)[|a + b| - 1] == b[|b| - 1];
      ProcessListAppend(a, b');
    }
  }

  /** Every listed process is read from some line. */
  lemma {:induction false} ListedProcessesComeFromLines(lines: seq<string>)
    ensures forall p | p in ProcessList(lines) :: exists l | l in lines :: ProcessOfLine(l) == Some(p)
    decreases |lines|
  {
    if |lines| > 0 {
      var init := lines[..|lines| - 1];
      ListedProcessesComeFromLines(init);
      assert forall l | l in init :: l in lines;
    }
  }

  /** The parsing loop of `get_jvm_processes`. */
  method ParseProcesses(output: string) returns (processes: seq<ProcessRef>)
    ensures processes == ProcessList(Split(output, '\n'))
  {
    var lines := Split(output, '\n');
    processes := [];
    for i := 0 to |lines|
      invariant processes == ProcessList(lines[..i])
    {
      var line := lines[i];
      assert lines[..i + 1][..i] == lines[..i] && lines[..i + 1][i] == line;
      assert ProcessList(lines[..i + 1]) == ProcessList(lines[..i]) + (if ProcessOfLine(line).Some? then [ProcessOfLine(line).value] else []);
      if Contains(line, "jdk.jcmd") {
        continue;
      }
      var parts := Split(line, ' ');
      if |parts| < 2 {
        continue;
      }
      if |parts| >= 3 {
        var path: seq<string> := [];
        for k := 2 to |parts|
          invariant path == parts[2..k]
        {
          path := path + [parts[k]];
        }
        assert path == parts[2..];
        processes := processes + [ProcessRef(parts[0], parts[1], Some(Join(path, " ")))];
      } else {
        processes := processes + [ProcessRef(parts[0], parts[1], None)];
      }
    }
    assert lines[..|lines|] == lines;
  }

  /** `get_jvm_processes`: the listing when the tool ran and succeeded, its
      start-up error text when it could not be started, and the generic
      failure message when it exited with a failure status. */
  method GetJvmProcesses(run: ToolRun) returns (r: Result<seq<ProcessRef>>)
    ensures run.NotStarted? ==> r == Err(SpawnFailed(run.message))
    ensures run.Ran? && !run.success ==> r == Err(ToolFailed)
    ensures run.Ran? && run.success ==> r == Ok(ProcessList(Split(run.stdout, '\n')))
  {
    match run
    case NotStarted(message) =>
      r := Err(SpawnFailed(message));
    case Ran(stdout, success) =>
      if success {
        var processes := ParseProcesses(stdout);
        r := Ok(processes);
      } else {
        r := Err(ToolFailed);
      }
  }
}
