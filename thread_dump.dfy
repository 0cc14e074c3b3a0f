/** The thread dump of `get_threads`: the report is cut into blocks at
    blank lines; a block whose first row starts with a quote describes one
    thread. Its header names the thread between the first and the last quote
    and lists the thread's fields after it. A header whose remainder holds a
    '#' is an application thread, any other a thread of the JVM itself.
    Every thread is counted into a state bucket, its CPU time is turned into
    the time used since the previous dump, and one census of each kind is
    appended to the metrics cache. */
module ThreadDump {
  import opened Wrappers
  import opened Text
  import opened Numbers
  import opened ThreadCache
  import Metrics

  // ---------------------------------------------------------------------------
  // The header row

  datatype Header = Header(name: string, rest: string)

  /** The last position of `c` in `s`. */
  function LastIndexOfChar(s: string, c: char): (r: nat)
    requires c in s
    ensures r < |s| && s[r] == c
    ensures forall k | r < k < |s| :: s[k] != c
    decreases |s|
  {
    if s[|s| - 1] == c then |s| - 1 else LastIndexOfChar(s[..|s| - 1], c)
  }

  /** The header of a thread block, cut at its last quote `q`: the name is
      the `q - 1` characters after the opening quote, and the remainder
      starts two characters after `q`, the character after the closing
      quote being skipped. When the opening quote is the only one, `q - 1`
      wraps round and the whole row after it is the name. A remainder that
      would start past the end of the row is the slicing panic. */
  function HeaderOf(row: string): Result<Header>
    requires |row| > 0 && row[0] == '"'
  {
    var q := LastIndexOfChar(row, '"');
    var name := if q == 0 then row[1..] else row[1..q];
    if q + 2 > |row| then Err(Panic) else Ok(Header(name, row[q + 2..]))
  }

  /** A header written as a quoted name, a space and a remainder without
      quotes is read back as that name and remainder, whatever quotes the
      name holds. */
  lemma HeaderRoundTrip(name: string, rest: string)
    requires '"' !in rest
    ensures HeaderOf("\"" + name + "\" " + rest) == Ok(Header(name, rest))
  {
    var row := "\"" + name + "\" " + rest;
    var q := |name| + 1;
    assert row[q] == '"';
    assert forall k | q < k < |row| :: row[k] != '"' by {
      forall k | q < k < |row|
        ensures row[k] != '"'
      {
        if k > q + 1 {
          assert row[k] == rest[k - q - 2];
        }
      }
    }
    LastQuoteIs(row, q);
    assert row[1..q] == name && row[q + 2..] == rest;
  }

  lemma LastQuoteIs(row: string, q: nat)
    requires q < |row| && row[q] == '"'
    requires forall k | q < k < |row| :: row[k] != '"'
    ensures LastIndexOfChar(row, '"') == q
  {
    var r := LastIndexOfChar(row, '"');
    assert row[q] == '"' && row[r] == '"';
  }

  /** A header whose opening quote is its only quote takes the whole row as
      the name, and the remainder starts at the second character of the
      name. */
  lemma LoneQuoteHeader(s: string)
    requires '"' !in s && |s| >= 1
    ensures HeaderOf("\"" + s) == Ok(Header(s, s[1..]))
  {
    var row := "\"" + s;
    assert forall k | 0 < k < |row| :: row[k] != '"' by {
      forall k | 0 < k < |row|
        ensures row[k] != '"'
      {
        assert row[k] == s[k - 1];
      }
    }
    LastQuoteIs(row, 0);
    assert row[2..] == s[1..];
  }

  /** A header that ends with its closing quote has no remainder to slice. */
  lemma ClosingQuoteLastPanics(row: string)
    requires |row| > 0 && row[0] == '"' && row[|row| - 1] == '"'
    ensures HeaderOf(row) == Err(Panic)
  {
    LastQuoteIs(row, |row| - 1);
  }

  /** The label in front of the state on a block's second row. */
  const StateLabel := "java.lang.Thread.State:"

  /** The state of an application thread: the second row without its label,
      runs of spaces collapsed; empty for a block of one row. */
  function StatusOf(rows: seq<string>): string {
    if |rows| > 1 then CollapseSpaces(Replace(rows[1], StateLabel, "")) else ""
  }

  // ---------------------------------------------------------------------------
  // The header fields

  /** The number fields of a header. */
  datatype NumberField = Id | Prio | OsPrio | DefinedClasses

  /** The text in front of a number field's value. */
  function NumberFieldName(field: NumberField): (r: string)
    ensures r != []
  {
    match field
    case Id => "#"
    case Prio => "prio="
    case OsPrio => "os_prio="
    case DefinedClasses => "defined_classes="
  }

  /** The id is read as a `u32`, the other number fields as `u16`. */
  function NumberFieldLimit(field: NumberField): nat {
    if field == Id then U32_LIMIT else U16_LIMIT
  }

  /** A number field: its name deleted wherever it occurs and the rest read
      as an unsigned integer of the field's type; a failed read is the
      `unwrap` panic. */
  function FieldNumber(token: string, field: NumberField): Result<nat> {
    match ParseUnsigned(Replace(token, NumberFieldName(field), ""), NumberFieldLimit(field))
    case Some(n) => Ok(n)
    case None => Err(Panic)
  }

  /** The duration fields of a header. */
  datatype DurationField = Cpu | Elapsed

  function DurationFieldName(field: DurationField): (r: string)
    ensures r != []
  {
    match field
    case Cpu => "cpu="
    case Elapsed => "elapsed="
  }

  /** A duration field, read by `calculate_thread_time`. */
  function FieldDuration(token: string, field: DurationField): Result<real> {
    ThreadTime(token, DurationFieldName(field))
  }

  /** The decoders of the header figures. The token scans take them as a
      parameter, so that reasoning about a scan does not reach into the
      decoders; the dump is always read with `Decode`. */
  datatype Decoders = Decoders(
    number: (string, NumberField) -> Result<nat>,
    duration: (string, DurationField) -> Result<real>)

  const Decode := Decoders(FieldNumber, FieldDuration)

  datatype ApplicationFields = ApplicationFields(
    id: nat, daemon: bool, prio: nat, osThreadPrio: nat, cpu: real, elapsed: real, allocatedText: string,
    definedClasses: nat, threadId: string, osThreadId: string, lastKnownJavaStackPointer: string)

  const NoApplicationFields := ApplicationFields(0, false, 0, 0, 0.0, 0.0, "", 0, "", "", "")

  /** One token of an application thread's header, tested in the order of
      the token loop. Once `nid=` has been seen, a token that names no
      field and does not start with '[' is passed over; a token starting
      with '[' is the last known stack pointer. */
  function ApplicationStep(f: ApplicationFields, e: string, d: Decoders): Result<ApplicationFields> {
    if "#" <= e then
      var n :- d.number(e, Id); Ok(f.(id := n))
    else if e == "daemon" then Ok(f.(daemon := true))
    else if "prio=" <= e then
      var n :- d.number(e, Prio); Ok(f.(prio := n))
    else if "cpu=" <= e then
      var t :- d.duration(e, Cpu); Ok(f.(cpu := t))
    else if "elapsed=" <= e then
      var t :- d.duration(e, Elapsed); Ok(f.(elapsed := t))
    else if "allocated=" <= e then Ok(f.(allocatedText := Replace(e, "allocated=", "")))
    else if "defined_classes=" <= e then
      var n :- d.number(e, DefinedClasses); Ok(f.(definedClasses := n))
    else if "os_prio=" <= e then
      var n :- d.number(e, OsPrio); Ok(f.(osThreadPrio := n))
    else if "tid=" <= e then Ok(f.(threadId := Replace(e, "tid=", "")))
    else if "nid=" <= e then Ok(f.(osThreadId := Replace(e, "nid=", "")))
    else if f.osThreadId != "" && !("[" <= e) then Ok(f)
    else if "[" <= e then Ok(f.(lastKnownJavaStackPointer := RemoveChars(e, {'[', ']'})))
    else Ok(f)
  }

  /** The tokens seen so far, in order; the first panic ends the scan. */
  function ApplicationFieldsOf(elements: seq<string>, d: Decoders): Result<ApplicationFields>
    decreases |elements|
  {
    if |elements| == 0 then Ok(NoApplicationFields)
    else
      var prior := ApplicationFieldsOf(elements[..|elements| - 1], d);
      if prior.Err? then prior else ApplicationStep(prior.value, elements[|elements| - 1], d)
  }

  lemma {:induction false} ApplicationFieldsSticky(elements: seq<string>, k: nat, d: Decoders)
    requires k <= |elements| && ApplicationFieldsOf(elements[..k], d).Err?
    ensures ApplicationFieldsOf(elements, d) == ApplicationFieldsOf(elements[..k], d)
    decreases |elements| - k
  {
    if k < |elements| {
      assert elements[..k + 1][..k] == elements[..k];
      ApplicationFieldsSticky(elements, k + 1, d);
    } else {
      assert elements[..k] == elements;
    }
  }

  /** A token that sets a field of an application thread. */
  predicate ApplicationFieldToken(e: string) {
    "#" <= e || e == "daemon" || "prio=" <= e || "cpu=" <= e || "elapsed=" <= e || "allocated=" <= e
    || "defined_classes=" <= e || "os_prio=" <= e || "tid=" <= e || "nid=" <= e
  }

  /** The last of the words that starts with '[', its brackets deleted;
      `prior` when there is none. */
  function LastStackPointer(words: seq<string>, prior: string): string
    decreases |words|
  {
    if |words| == 0 then prior
    else if "[" <= words[|words| - 1] then RemoveChars(words[|words| - 1], {'[', ']'})
    else LastStackPointer(words[..|words| - 1], prior)
  }

  /** Tokens that name no field change nothing but the stack pointer, which
      the last token starting with '[' sets: the state words after `nid=` are
      dropped, and the `!nid.is_empty()` test changes nothing, since the same
      holds before `nid=` has been read. */
  lemma {:induction false} ApplicationFieldsAfterNid(head: seq<string>, words: seq<string>, d: Decoders)
    requires ApplicationFieldsOf(head, d).Ok?
    requires forall k | 0 <= k < |words| :: !ApplicationFieldToken(words[k])
    ensures ApplicationFieldsOf(head + words, d) == Ok(ApplicationFieldsOf(head, d).value.(
      lastKnownJavaStackPointer := LastStackPointer(words, ApplicationFieldsOf(head, d).value.lastKnownJavaStackPointer)))
    decreases |words|
  {
    if |words| == 0 {
      assert head + words == head;
    } else {
      var init := words[..|words| - 1];
      var last := words[|words| - 1];
      ApplicationFieldsAfterNid(head, init, d);
      assert (head + words)[..|head + words| - 1] == head + init;
      assert (head + words)[|head + words| - 1] == last;
      assert !ApplicationFieldToken(last);
      var f := ApplicationFieldsOf(head + init, d).value;
      assert ApplicationFieldsOf(head + words, d) == ApplicationStep(f, last, d);
    }
  }

  /** A token of an application thread's header changes at most the one field
      it names, to the figure its decoder reads; a token that names no field
      changes only the stack pointer, and only when it starts with '['. No
      earlier test of the chain takes a later token: `os_prio=` is not read as
      `prio=`, nor `defined_classes=` as `daemon`. */
  lemma ApplicationStepSetsOneField(f: ApplicationFields, e: string, d: Decoders)
    requires ApplicationStep(f, e, d).Ok?
    ensures var g := ApplicationStep(f, e, d).value;
      && ("#" <= e ==> g == f.(id := g.id) && d.number(e, Id) == Ok(g.id))
      && (e == "daemon" ==> g == f.(daemon := true))
      && ("prio=" <= e ==> g == f.(prio := g.prio) && d.number(e, Prio) == Ok(g.prio))
      && ("cpu=" <= e ==> g == f.(cpu := g.cpu) && d.duration(e, Cpu) == Ok(g.cpu))
      && ("elapsed=" <= e ==> g == f.(elapsed := g.elapsed) && d.duration(e, Elapsed) == Ok(g.elapsed))
      && ("allocated=" <= e ==> g == f.(allocatedText := Replace(e, "allocated=", "")))
      && ("defined_classes=" <= e ==>
            g == f.(definedClasses := g.definedClasses) && d.number(e, DefinedClasses) == Ok(g.definedClasses))
      && ("os_prio=" <= e ==> g == f.(osThreadPrio := g.osThreadPrio) && d.number(e, OsPrio) == Ok(g.osThreadPrio))
      && ("tid=" <= e ==> g == f.(threadId := Replace(e, "tid=", "")))
      && ("nid=" <= e ==> g == f.(osThreadId := Replace(e, "nid=", "")))
      && (!ApplicationFieldToken(e) && "[" <= e ==> g == f.(lastKnownJavaStackPointer := RemoveChars(e, {'[', ']'})))
      && (!ApplicationFieldToken(e) && !("[" <= e) ==> g == f)
  {
    // The prefixes differ at their first character, but for `daemon` and
    // `defined_classes=`, which differ at their second.
    if "#" <= e { PrefixChar("#", e, 0); }
    if "prio=" <= e { PrefixChar("prio=", e, 0); }
    if "cpu=" <= e { PrefixChar("cpu=", e, 0); }
    if "elapsed=" <= e { PrefixChar("elapsed=", e, 0); }
    if "allocated=" <= e { PrefixChar("allocated=", e, 0); }
    if "defined_classes=" <= e { PrefixChar("defined_classes=", e, 0); PrefixChar("defined_classes=", e, 1); }
    if "os_prio=" <= e { PrefixChar("os_prio=", e, 0); }
    if "tid=" <= e { PrefixChar("tid=", e, 0); }
    if "nid=" <= e { PrefixChar("nid=", e, 0); }
  }

  /** The token loop of an application thread, reading figures with `d`
      (`Decode` in `get_threads`). */
  method ScanApplicationTokens(elements: seq<string>, d: Decoders) returns (r: Result<ApplicationFields>)
    ensures r == ApplicationFieldsOf(elements, d)
  {
    var id := 0;
    var daemon := false;
    var prio := 0;
    var osThreadPrio := 0;
    var cpu := 0.0;
    var elapsed := 0.0;
    var allocatedText := "";
    var definedClasses := 0;
    var tid := "";
    var nid := "";
    var stackPointer := "";
    for i := 0 to |elements|
      invariant ApplicationFieldsOf(elements[..i], d) == Ok(ApplicationFields(
        id, daemon, prio, osThreadPrio, cpu, elapsed, allocatedText, definedClasses, tid, nid, stackPointer))
    {
      var e := elements[i];
      assert elements[..i + 1][..i] == elements[..i];
      var figure: Result<nat> := Ok(0);
      var time: Result<real> := Ok(0.0);
      if "#" <= e {
        figure := d.number(e, Id);
        if figure.Ok? { id := figure.value; }
      } else if e == "daemon" {
        daemon := true;
      } else if "prio=" <= e {
        figure := d.number(e, Prio);
        if figure.Ok? { prio := figure.value; }
      } else if "cpu=" <= e {
        time := d.duration(e, Cpu);
        if time.Ok? { cpu := time.value; }
      } else if "elapsed=" <= e {
        time := d.duration(e, Elapsed);
        if time.Ok? { elapsed := time.value; }
      } else if "allocated=" <= e {
        allocatedText := Replace(e, "allocated=", "");
      } else if "defined_classes=" <= e {
        figure := d.number(e, DefinedClasses);
        if figure.Ok? { definedClasses := figure.value; }
      } else if "os_prio=" <= e {
        figure := d.number(e, OsPrio);
        if figure.Ok? { osThreadPrio := figure.value; }
      } else if "tid=" <= e {
        tid := Replace(e, "tid=", "");
      } else if "nid=" <= e {
        nid := Replace(e, "nid=", "");
      } else if nid != "" && !("[" <= e) {
      } else if "[" <= e {
        stackPointer := RemoveChars(e, {'[', ']'});
      }
      if figure.Err? || time.Err? {
        ApplicationFieldsSticky(elements, i + 1, d);
        return if figure.Err? then Err(figure.error) else Err(time.error);
      }
    }
    assert elements[..|elements|] == elements;
    return Ok(ApplicationFields(
      id, daemon, prio, osThreadPrio, cpu, elapsed, allocatedText, definedClasses, tid, nid, stackPointer));
  }

  datatype JvmFields = JvmFields(
    osThreadPrio: nat, cpu: real, elapsed: real, threadId: string, osThreadId: string, status: seq<string>)

  const NoJvmFields := JvmFields(0, 0.0, 0.0, "", "", [])

  /** One token of a JVM thread's header. After `nid=`, every token that
      names no field and does not start with '[' (empty ones included) is a
      word of the state. */
  function JvmStep(f: JvmFields, e: string, d: Decoders): Result<JvmFields> {
    if "os_prio=" <= e then
      var n :- d.number(e, OsPrio); Ok(f.(osThreadPrio := n))
    else if "cpu=" <= e then
      var t :- d.duration(e, Cpu); Ok(f.(cpu := t))
    else if "elapsed=" <= e then
      var t :- d.duration(e, Elapsed); Ok(f.(elapsed := t))
    else if "tid=" <= e then Ok(f.(threadId := Replace(e, "tid=", "")))
    else if "nid=" <= e then Ok(f.(osThreadId := Replace(e, "nid=", "")))
    else if f.osThreadId != "" && !("[" <= e) then Ok(f.(status := f.status + [e]))
    else Ok(f)
  }

  function JvmFieldsOf(elements: seq<string>, d: Decoders): Result<JvmFields>
    decreases |elements|
  {
    if |elements| == 0 then Ok(NoJvmFields)
    else
      var prior := JvmFieldsOf(elements[..|elements| - 1], d);
      if prior.Err? then prior else JvmStep(prior.value, elements[|elements| - 1], d)
  }

  lemma {:induction false} JvmFieldsSticky(elements: seq<string>, k: nat, d: Decoders)
    requires k <= |elements| && JvmFieldsOf(elements[..k], d).Err?
    ensures JvmFieldsOf(elements, d) == JvmFieldsOf(elements[..k], d)
    decreases |elements| - k
  {
    if k < |elements| {
      assert elements[..k + 1][..k] == elements[..k];
      JvmFieldsSticky(elements, k + 1, d);
    } else {
      assert elements[..k] == elements;
    }
  }

  /** The token loop of a JVM thread, reading figures with `d` (`Decode` in
      `get_threads`). */
  method ScanJvmTokens(elements: seq<string>, d: Decoders) returns (r: Result<JvmFields>)
    ensures r == JvmFieldsOf(elements, d)
  {
    var osThreadPrio := 0;
    var cpu := 0.0;
    var elapsed := 0.0;
    var tid := "";
    var nid := "";
    var status: seq<string> := [];
    for i := 0 to |elements|
      invariant JvmFieldsOf(elements[..i], d) == Ok(JvmFields(osThreadPrio, cpu, elapsed, tid, nid, status))
    {
      var e := elements[i];
      assert elements[..i + 1][..i] == elements[..i];
      var figure: Result<nat> := Ok(0);
      var time: Result<real> := Ok(0.0);
      if "os_prio=" <= e {
        figure := d.number(e, OsPrio);
        if figure.Ok? { osThreadPrio := figure.value; }
      } else if "cpu=" <= e {
        time := d.duration(e, Cpu);
        if time.Ok? { cpu := time.value; }
      } else if "elapsed=" <= e {
        time := d.duration(e, Elapsed);
        if time.Ok? { elapsed := time.value; }
      } else if "tid=" <= e {
        tid := Replace(e, "tid=", "");
      } else if "nid=" <= e {
        nid := Replace(e, "nid=", "");
      } else if nid != "" && !("[" <= e) {
        status := status + [e];
      }
      if figure.Err? || time.Err? {
        JvmFieldsSticky(elements, i + 1, d);
        return if figure.Err? then Err(figure.error) else Err(time.error);
      }
    }
    assert elements[..|elements|] == elements;
    return Ok(JvmFields(osThreadPrio, cpu, elapsed, tid, nid, status));
  }

  /** A token that sets a field of a JVM thread. */
  predicate JvmFieldToken(e: string) {
    "os_prio=" <= e || "cpu=" <= e || "elapsed=" <= e || "tid=" <= e || "nid=" <= e
  }

  /** The words that follow the `nid=` token, without those starting with '['. */
  function StateWords(words: seq<string>): (r: seq<string>)
    ensures |r| <= |words|
    decreases |words|
  {
    if |words| == 0 then []
    else
      var prior := StateWords(words[..|words| - 1]);
      if "[" <= words[|words| - 1] then prior else prior + [words[|words| - 1]]
  }

  /** Once `nid=` has been read, the tokens that name no field are the state
      of a JVM thread, in order, except those starting with '['; the fields
      read before stay as they are. */
  lemma {:induction false} JvmStateAfterNid(head: seq<string>, words: seq<string>, d: Decoders)
    requires JvmFieldsOf(head, d).Ok? && JvmFieldsOf(head, d).value.osThreadId != ""
    requires forall k | 0 <= k < |words| :: !JvmFieldToken(words[k])
    ensures JvmFieldsOf(head + words, d) ==
      Ok(JvmFieldsOf(head, d).value.(status := JvmFieldsOf(head, d).value.status + StateWords(words)))
    decreases |words|
  {
    var base := JvmFieldsOf(head, d).value;
    if |words| == 0 {
      assert head + words == head;
      assert base.status + StateWords(words) == base.status;
    } else {
      var init := words[..|words| - 1];
      var last := words[|words| - 1];
      JvmStateAfterNid(head, init, d);
      assert (head + words)[..|head + words| - 1] == head + init;
      assert (head + words)[|head + words| - 1] == last;
      assert !JvmFieldToken(last);
      var f := JvmFieldsOf(head + init, d).value;
      assert f.osThreadId != "";
      assert JvmFieldsOf(head + words, d) == JvmStep(f, last, d);
      if "[" <= last {
        assert StateWords(words) == StateWords(init);
      } else {
        assert StateWords(words) == StateWords(init) + [last];
        assert base.status + StateWords(init) + [last] == base.status + StateWords(words);
      }
    }
  }

  // ---------------------------------------------------------------------------
  // Threads and the census

  datatype ApplicationThread = ApplicationThread(
    name: string, id: nat, daemon: bool, prio: nat, osThreadPrio: nat, cpu: real, elapsed: real,
    allocatedText: string, definedClasses: nat, threadId: string, osThreadId: string, status: string,
    lastKnownJavaStackPointer: string)

  datatype JvmThread = JvmThread(
    name: string, osThreadPrio: nat, cpu: real, elapsed: real, threadId: string, osThreadId: string, status: string)

  /** What a block holds: an application thread with its state, a JVM
      thread, or no thread at all. */
  datatype ThreadBlock =
    | ApplicationBlock(name: string, fields: ApplicationFields, status: string)
    | JvmBlock(name: string, jvmFields: JvmFields)
    | NotAThread

  /** One block of the dump: skipped unless its first row starts with a
      quote; otherwise an application thread when the header's remainder
      holds a '#', else a JVM thread. */
  function ParseBlock(block: string, d: Decoders): Result<ThreadBlock> {
    var rows := Split(block, '\n');
    var first := rows[0];
    if !("\"" <= first) then Ok(NotAThread)
    else
      var header :- HeaderOf(first);
      if '#' in header.rest then
        var f :- ApplicationFieldsOf(Split(header.rest, ' '), d);
        Ok(ApplicationBlock(header.name, f, StatusOf(rows)))
      else
        var f :- JvmFieldsOf(Split(header.rest, ' '), d);
        Ok(JvmBlock(header.name, f))
  }

  /** A thread block is an application thread exactly when the remainder of
      its header holds a '#'. */
  lemma ApplicationIffHash(block: string, d: Decoders)
    requires ParseBlock(block, d).Ok? && !ParseBlock(block, d).value.NotAThread?
    ensures var first := Split(block, '\n')[0];
      && |first| > 0 && first[0] == '"' && HeaderOf(first).Ok?
      && (ParseBlock(block, d).value.ApplicationBlock? <==> '#' in HeaderOf(first).value.rest)
  {
  }

  /** A block whose first row does not start with a quote is no thread. */
  lemma UnquotedBlocksSkipped(block: string, d: Decoders)
    requires !("\"" <= Split(block, '\n')[0])
    ensures ParseBlock(block, d) == Ok(NotAThread)
  {
  }

  datatype ApplicationCensus = ApplicationCensus(
    newCount: nat, runnableCount: nat, timedWaitingCount: nat, waitingCount: nat, blockedCount: nat)

  datatype JvmCensus = JvmCensus(newCount: nat, runnableCount: nat, waitingCount: nat, blockedCount: nat)

  function ApplicationTotal(c: ApplicationCensus): nat {
    c.newCount + c.runnableCount + c.timedWaitingCount + c.waitingCount + c.blockedCount
  }

  function JvmTotal(c: JvmCensus): nat {
    c.newCount + c.runnableCount + c.waitingCount + c.blockedCount
  }

  /** The bucket of an application thread, by the prefix of its state (one
      of the constants of `java.lang.Thread.State`); `TIMED_WAITING` is
      tested before `WAITING`. */
  function CountApplication(c: ApplicationCensus, status: string): (r: ApplicationCensus)
    ensures ApplicationTotal(r) == ApplicationTotal(c) + (if
      "NEW" <= status || "RUNNABLE" <= status || "TIMED_WAITING" <= status || "WAITING" <= status
      || "BLOCKED" <= status then 1 else 0)
  {
    if "NEW" <= status then c.(newCount := c.newCount + 1)
    else if "RUNNABLE" <= status then c.(runnableCount := c.runnableCount + 1)
    else if "TIMED_WAITING" <= status then c.(timedWaitingCount := c.timedWaitingCount + 1)
    else if "WAITING" <= status then c.(waitingCount := c.waitingCount + 1)
    else if "BLOCKED" <= status then c.(blockedCount := c.blockedCount + 1)
    else c
  }

  /** The bucket of a JVM thread, by the prefix of the state words; there
      is no timed-waiting bucket. */
  function CountJvm(c: JvmCensus, status: string): (r: JvmCensus)
    ensures JvmTotal(r) == JvmTotal(c) + (if
      "new" <= status || "runnable" <= status || "waiting on condition" <= status || "blocked" <= status
      then 1 else 0)
  {
    if "new" <= status then c.(newCount := c.newCount + 1)
    else if "runnable" <= status then c.(runnableCount := c.runnableCount + 1)
    else if "waiting on condition" <= status then c.(waitingCount := c.waitingCount + 1)
    else if "blocked" <= status then c.(blockedCount := c.blockedCount + 1)
    else c
  }

  /** A timed-waiting thread is not counted as waiting. */
  lemma TimedWaitingNotWaiting(c: ApplicationCensus, status: string)
    requires "TIMED_WAITING" <= status
    ensures CountApplication(c, status) == c.(timedWaitingCount := c.timedWaitingCount + 1)
  {
    assert status[0] == 'T';
  }

  /** The state of a dump scan: the CPU cache, the threads so far and the
      two censuses. */
  datatype DumpState = DumpState(
    cache: Entries, applicationThreads: seq<ApplicationThread>, jvmThreads: seq<JvmThread>,
    application: ApplicationCensus, jvm: JvmCensus)

  /** One parsed block: the thread's CPU time replaced by the time used
      since the previous dump, the thread listed and counted. */
  function ThreadStep(s: DumpState, b: ThreadBlock): DumpState {
    match b
    case NotAThread => s
    case ApplicationBlock(name, f, status) =>
      var u := CacheUpdate(s.cache, f.cpu, name, false);
      var t := ApplicationThread(name, f.id, f.daemon, f.prio, f.osThreadPrio, u.delta, f.elapsed, f.allocatedText,
        f.definedClasses, f.threadId, f.osThreadId, status, f.lastKnownJavaStackPointer);
      s.(cache := u.entries, applicationThreads := s.applicationThreads + [t],
         application := CountApplication(s.application, status))
    case JvmBlock(name, f) =>
      var u := CacheUpdate(s.cache, f.cpu, name, true);
      var status := Join(f.status, " ");
      var t := JvmThread(name, f.osThreadPrio, u.delta, f.elapsed, f.threadId, f.osThreadId, status);
      s.(cache := u.entries, jvmThreads := s.jvmThreads + [t], jvm := CountJvm(s.jvm, status))
  }

  /** A scan state, and whether a panic stopped the scan. */
  datatype Dumped = Dumped(state: DumpState, panicked: bool)

  /** The blocks in order; a panic keeps the CPU cache entries of the
      blocks before it. */
  function DumpFold(s: DumpState, blocks: seq<string>, d: Decoders): Dumped
    decreases |blocks|
  {
    if |blocks| == 0 then Dumped(s, false)
    else
      match ParseBlock(blocks[0], d)
      case Err(_) => Dumped(s, true)
      case Ok(b) => DumpFold(ThreadStep(s, b), blocks[1..], d)
  }

  /** Each bucket count is bounded by the threads of its kind; the cache
      keeps its threads and files them under their names. */
  predicate CensusFits(s: DumpState) {
    && ApplicationTotal(s.application) <= |s.applicationThreads|
    && JvmTotal(s.jvm) <= |s.jvmThreads|
    && KeyedByName(s.cache)
  }

  /** A thread lands in at most one bucket, so no census counts more threads
      than were listed; cache entries are never removed. */
  lemma {:induction false} DumpFoldKeepsCensus(s: DumpState, blocks: seq<string>, d: Decoders)
    requires CensusFits(s)
    ensures CensusFits(DumpFold(s, blocks, d).state)
    ensures s.cache.Keys <= DumpFold(s, blocks, d).state.cache.Keys
    decreases |blocks|
  {
    if |blocks| > 0 && ParseBlock(blocks[0], d).Ok? {
      var next := ThreadStep(s, ParseBlock(blocks[0], d).value);
      assert CensusFits(next) && s.cache.Keys <= next.cache.Keys;
      DumpFoldKeepsCensus(next, blocks[1..], d);
    }
  }

  /** Every listed thread keeps its place: the threads of the blocks scanned
      so far come first, in block order. */
  lemma {:induction false} DumpFoldAppends(s: DumpState, blocks: seq<string>, d: Decoders)
    ensures s.applicationThreads <= DumpFold(s, blocks, d).state.applicationThreads
    ensures s.jvmThreads <= DumpFold(s, blocks, d).state.jvmThreads
    ensures |DumpFold(s, blocks, d).state.applicationThreads| + |DumpFold(s, blocks, d).state.jvmThreads|
      <= |s.applicationThreads| + |s.jvmThreads| + |blocks|
    decreases |blocks|
  {
    if |blocks| > 0 && ParseBlock(blocks[0], d).Ok? {
      DumpFoldAppends(ThreadStep(s, ParseBlock(blocks[0], d).value), blocks[1..], d);
    }
  }

  /** The scan from block `i` on: that block's step, then the rest. */
  lemma DumpFoldAt(s: DumpState, blocks: seq<string>, i: nat, d: Decoders)
    requires i < |blocks|
    ensures ParseBlock(blocks[i], d).Err? ==> DumpFold(s, blocks[i..], d) == Dumped(s, true)
    ensures ParseBlock(blocks[i], d).Ok? ==>
      DumpFold(s, blocks[i..], d) == DumpFold(ThreadStep(s, ParseBlock(blocks[i], d).value), blocks[i + 1..], d)
  {
    assert blocks[i..][0] == blocks[i] && blocks[i..][1..] == blocks[i + 1..];
  }

  // ---------------------------------------------------------------------------
  // The handler

  const NoApplicationCensus := ApplicationCensus(0, 0, 0, 0, 0)
  const NoJvmCensus := JvmCensus(0, 0, 0, 0)

  function ApplicationCountValue(time: nat, c: ApplicationCensus): Metrics.ThreadCountValue {
    Metrics.ThreadCountValue(time, c.newCount, c.runnableCount, c.waitingCount, c.timedWaitingCount, c.blockedCount)
  }

  function JvmCountValue(time: nat, c: JvmCensus): Metrics.ThreadCountValue {
    Metrics.ThreadCountValue(time, c.newCount, c.runnableCount, c.waitingCount, 0, c.blockedCount)
  }

  /** What `get_threads` hands back. */
  datatype Threads = Threads(
    applicationThreads: seq<ApplicationThread>, jvmThreads: seq<JvmThread>,
    threadCountApplication: Metrics.NamedMetric<Metrics.ThreadCountValue>,
    threadCountJvm: Metrics.NamedMetric<Metrics.ThreadCountValue>)

  /** The effect of `get_threads` on the CPU cache and the metrics cache,
      and its result. */
  datatype ThreadsCall = ThreadsCall(cache: Entries, metrics: Metrics.CacheState, result: Result<Threads>)

  /** `get_threads`: the tool's exit status is not examined; the blocks of
      the report are scanned, and unless a block panics one census of each
      kind, stamped with the call's time, is appended to the metrics cache. */
  function ThreadsCallOf(cache: Entries, st: Metrics.CacheState, run: ToolRun, time: nat): ThreadsCall {
    match run
    case NotStarted(message) => ThreadsCall(cache, st, Err(SpawnFailed(message)))
    case Ran(output, _) =>
      var d := DumpFold(DumpState(cache, [], [], NoApplicationCensus, NoJvmCensus), SplitOn(output, "\n\n"), Decode);
      if d.panicked then ThreadsCall(d.state.cache, st, Err(Panic))
      else
        var application := st.threadCountApplication + [ApplicationCountValue(time, d.state.application)];
        var jvm := st.threadCountJvm + [JvmCountValue(time, d.state.jvm)];
        ThreadsCall(d.state.cache, st.(threadCountApplication := application, threadCountJvm := jvm),
          Ok(Threads(d.state.applicationThreads, d.state.jvmThreads,
            Metrics.NamedMetric("ThreadCountApplication", application), Metrics.NamedMetric("ThreadCountJvm", jvm))))
  }

  /** A completed call appends exactly one census to each thread-count
      series and touches no memory series; its censuses count no more
      threads than it lists, and the JVM census has no timed-waiting
      threads. A call that panics leaves the metrics cache alone. */
  lemma ThreadsCallEffect(cache: Entries, st: Metrics.CacheState, run: ToolRun, time: nat)
    requires KeyedByName(cache)
    ensures var c := ThreadsCallOf(cache, st, run, time);
      && KeyedByName(c.cache) && cache.Keys <= c.cache.Keys
      && (c.result.Err? ==> c.metrics == st)
      && (c.result.Ok? ==>
        && c.metrics == st.(threadCountApplication := c.metrics.threadCountApplication,
                            threadCountJvm := c.metrics.threadCountJvm)
        && |c.metrics.threadCountApplication| == |st.threadCountApplication| + 1
        && |c.metrics.threadCountJvm| == |st.threadCountJvm| + 1
        && st.threadCountApplication <= c.metrics.threadCountApplication
        && st.threadCountJvm <= c.metrics.threadCountJvm
        && var a := c.metrics.threadCountApplication[|st.threadCountApplication|];
           var j := c.metrics.threadCountJvm[|st.threadCountJvm|];
           && a.time == time && j.time == time && j.timedWaitingCount == 0
           && a.newCount + a.runnableCount + a.waitingCount + a.timedWaitingCount + a.blockedCount
              <= |c.result.value.applicationThreads|
           && j.newCount + j.runnableCount + j.waitingCount + j.blockedCount <= |c.result.value.jvmThreads|)
  {
    if run.Ran? {
      var s := DumpState(cache, [], [], NoApplicationCensus, NoJvmCensus);
      DumpFoldKeepsCensus(s, SplitOn(run.stdout, "\n\n"), Decode);
    }
  }

  /** One parsed block in the block loop of `get_threads`: the thread's
      CPU time exchanged in the cache for the time used since the last dump,
      the thread listed, and its bucket counted. */
  method RecordThread(cpuCache: ThreadCpuCache, b: ThreadBlock, applicationThreads: seq<ApplicationThread>,
                      jvmThreads: seq<JvmThread>, application: ApplicationCensus, jvm: JvmCensus)
    returns (applicationThreads': seq<ApplicationThread>, jvmThreads': seq<JvmThread>,
             application': ApplicationCensus, jvm': JvmCensus)
    requires cpuCache.Valid()
    modifies cpuCache
    ensures cpuCache.Valid()
    ensures DumpState(cpuCache.entries, applicationThreads', jvmThreads', application', jvm') ==
      ThreadStep(DumpState(old(cpuCache.entries), applicationThreads, jvmThreads, application, jvm), b)
  {
    applicationThreads', jvmThreads', application', jvm' := applicationThreads, jvmThreads, application, jvm;
    match b
    case NotAThread =>
    case ApplicationBlock(name, f, status) =>
      var cpu := cpuCache.Update(f.cpu, name, false);
      applicationThreads' := applicationThreads + [ApplicationThread(name, f.id, f.daemon, f.prio, f.osThreadPrio,
        cpu, f.elapsed, f.allocatedText, f.definedClasses, f.threadId, f.osThreadId, status,
        f.lastKnownJavaStackPointer)];
      if "NEW" <= status {
        application' := application.(newCount := application.newCount + 1);
      } else if "RUNNABLE" <= status {
        application' := application.(runnableCount := application.runnableCount + 1);
      } else if "TIMED_WAITING" <= status {
        application' := application.(timedWaitingCount := application.timedWaitingCount + 1);
      } else if "WAITING" <= status {
        application' := application.(waitingCount := application.waitingCount + 1);
      } else if "BLOCKED" <= status {
        application' := application.(blockedCount := application.blockedCount + 1);
      }
    case JvmBlock(name, f) =>
      var cpu := cpuCache.Update(f.cpu, name, true);
      var statusName := Join(f.status, " ");
      jvmThreads' := jvmThreads + [JvmThread(name, f.osThreadPrio, cpu, f.elapsed, f.threadId, f.osThreadId,
        statusName)];
      if "new" <= statusName {
        jvm' := jvm.(newCount := jvm.newCount + 1);
      } else if "runnable" <= statusName {
        jvm' := jvm.(runnableCount := jvm.runnableCount + 1);
      } else if "waiting on condition" <= statusName {
        jvm' := jvm.(waitingCount := jvm.waitingCount + 1);
      } else if "blocked" <= statusName {
        jvm' := jvm.(blockedCount := jvm.blockedCount + 1);
      }
  }

  /** The block loop of `get_threads`. */
  method GetThreads(metrics: Metrics.MetricsCache, cpuCache: ThreadCpuCache, run: ToolRun, time: nat)
    returns (r: Result<Threads>)
    requires metrics.Valid() && cpuCache.Valid()
    modifies metrics, cpuCache
    ensures metrics.Valid() && cpuCache.Valid()
    ensures ThreadsCall(cpuCache.entries, metrics.State(), r) ==
      ThreadsCallOf(old(cpuCache.entries), old(metrics.State()), run, time)
  {
    if run.NotStarted? {
      return Err(SpawnFailed(run.message));
    }
    var blocks := SplitOn(run.stdout, "\n\n");
    var application := NoApplicationCensus;
    var jvm := NoJvmCensus;
    var applicationThreads: seq<ApplicationThread> := [];
    var jvmThreads: seq<JvmThread> := [];
    ghost var start := DumpState(cpuCache.entries, [], [], NoApplicationCensus, NoJvmCensus);
    for i := 0 to |blocks|
      invariant cpuCache.Valid() && unchanged(metrics)
      invariant DumpFold(DumpState(cpuCache.entries, applicationThreads, jvmThreads, application, jvm), blocks[i..], Decode)
        == DumpFold(start, blocks, Decode)
    {
      ghost var before := DumpState(cpuCache.entries, applicationThreads, jvmThreads, application, jvm);
      var parsed := ParseBlock(blocks[i], Decode);
      DumpFoldAt(before, blocks, i, Decode);
      if parsed.Err? {
        return Err(Panic);
      }
      applicationThreads, jvmThreads, application, jvm :=
        RecordThread(cpuCache, parsed.value, applicationThreads, jvmThreads, application, jvm);
    }
    metrics.RecordThreadCounts(ApplicationCountValue(time, application), JvmCountValue(time, jvm));
    return Ok(Threads(applicationThreads, jvmThreads, metrics.threadCountApplication, metrics.threadCountJvm));
  }
}
