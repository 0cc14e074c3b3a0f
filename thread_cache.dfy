/** The per-thread CPU cache of `update_thread_cache`: the CPU time last
    reported for each thread name, so that each thread dump can show how
    much CPU a thread used since the previous dump. */
module ThreadCache {

  datatype ThreadCacheEntry = ThreadCacheEntry(name: string, jvmThread: bool, cpu: real)

  type Entries = map<string, ThreadCacheEntry>

  /** Every entry is filed under its own thread name. */
  predicate KeyedByName(entries: Entries) {
    forall k | k in entries :: entries[k].name == k
  }

  function Abs(x: real): (r: real)
    ensures r >= 0.0 && (r == x || r == -x)
  {
    if x < 0.0 then -x else x
  }

  /** The cache after an update, and the CPU time reported for the thread. */
  datatype Updated = Updated(entries: Entries, delta: real)

  /** `update_thread_cache`: a thread seen for the first time is entered
      with its CPU time and reports 0; a known thread reports how far its
      CPU time moved since the last report, and only its CPU time is
      overwritten. */
  function CacheUpdate(entries: Entries, cpu: real, name: string, jvmThread: bool): (u: Updated)
    ensures u.entries.Keys == entries.Keys + {name}
    ensures forall k | k in entries && k != name :: u.entries[k] == entries[k]
    ensures u.entries[name].cpu == cpu && u.delta >= 0.0
    ensures name !in entries ==> u.delta == 0.0 && u.entries[name] == ThreadCacheEntry(name, jvmThread, cpu)
    ensures name in entries ==>
      u.delta == Abs(cpu - entries[name].cpu) && u.entries[name] == entries[name].(cpu := cpu)
    ensures KeyedByName(entries) ==> KeyedByName(u.entries)
  {
    if name in entries then
      Updated(entries[name := entries[name].(cpu := cpu)], Abs(cpu - entries[name].cpu))
    else
      Updated(entries[name := ThreadCacheEntry(name, jvmThread, cpu)], 0.0)
  }

  /** The CPU times reported for one thread over successive dumps. */
  function Reports(entries: Entries, name: string, jvmThread: bool, cpus: seq<real>): seq<real>
    decreases |cpus|
  {
    if |cpus| == 0 then []
    else
      var u := CacheUpdate(entries, cpus[0], name, jvmThread);
      [u.delta] + Reports(u.entries, name, jvmThread, cpus[1..])
  }

  /** Over successive dumps a thread reports 0 the first time, then each
      time the distance between its CPU time and the one before. */
  lemma {:induction false} ReportsAreDistances(entries: Entries, name: string, jvmThread: bool, cpus: seq<real>)
    requires name !in entries
    ensures |Reports(entries, name, jvmThread, cpus)| == |cpus|
    ensures |cpus| > 0 ==> Reports(entries, name, jvmThread, cpus)[0] == 0.0
    ensures forall k | 0 < k < |cpus| :: Reports(entries, name, jvmThread, cpus)[k] == Abs(cpus[k] - cpus[k - 1])
  {
    if |cpus| > 0 {
      var u := CacheUpdate(entries, cpus[0], name, jvmThread);
      KnownReports(u.entries, name, jvmThread, cpus[0], cpus[1..]);
    }
  }

  lemma {:induction false} KnownReports(entries: Entries, name: string, jvmThread: bool, last: real, cpus: seq<real>)
    requires name in entries && entries[name].cpu == last
    ensures |Reports(entries, name, jvmThread, cpus)| == |cpus|
    ensures |cpus| > 0 ==> Reports(entries, name, jvmThread, cpus)[0] == Abs(cpus[0] - last)
    ensures forall k | 0 < k < |cpus| :: Reports(entries, name, jvmThread, cpus)[k] == Abs(cpus[k] - cpus[k - 1])
    decreases |cpus|
  {
    if |cpus| > 0 {
      var u := CacheUpdate(entries, cpus[0], name, jvmThread);
      KnownReports(u.entries, name, jvmThread, cpus[0], cpus[1..]);
      var r := Reports(entries, name, jvmThread, cpus);
      forall k | 0 < k < |cpus|
        ensures r[k] == Abs(cpus[k] - cpus[k - 1])
      {
        assert r[k] == Reports(u.entries, name, jvmThread, cpus[1..])[k - 1];
        if k > 1 {
          assert cpus[1..][k - 1] == cpus[k] && cpus[1..][k - 2] == cpus[k - 1];
        }
      }
    }
  }

  /** CPU times of 10, 15 and 12 are reported as 0, 5 and 3. */
  lemma ReportsExample(entries: Entries, name: string, jvmThread: bool)
    requires name !in entries
    ensures Reports(entries, name, jvmThread, [10.0, 15.0, 12.0]) == [0.0, 5.0, 3.0]
  {
    ReportsAreDistances(entries, name, jvmThread, [10.0, 15.0, 12.0]);
  }

  /** The cache object behind `update_thread_cache`. It is never cleared:
      `reset` leaves it alone. */
  class ThreadCpuCache {
    var entries: Entries

    predicate Valid()
      reads this
    {
      KeyedByName(entries)
    }

    constructor ()
      ensures Valid() && entries == map[]
    {
      entries := map[];
    }

    /** `update_thread_cache`: the reported CPU time, the cache updated. */
    method Update(cpu: real, name: string, jvmThread: bool) returns (delta: real)
      requires Valid()
      modifies this
      ensures Valid()
      ensures Updated(entries, delta) == CacheUpdate(old(entries), cpu, name, jvmThread)
    {
      delta := 0.0;
      if name in entries {
        var existing := entries[name];
        delta := Abs(cpu - existing.cpu);
        entries := entries[name := existing.(cpu := cpu)];
      } else {
        entries := entries[name := ThreadCacheEntry(name, jvmThread, cpu)];
      }
    }
  }
}
