/**
 The in-memory Raft log: entries by index, the last purged position, and the
 operations the consensus library calls.
 */
module LogStore {
  import opened Types

  datatype LogId = LogId(term: nat, index: nat)

  datatype Payload = Blank | Normal(command: Command) | Membership(members: set<RaftId>)

  datatype Entry = Entry(logId: LogId, payload: Payload)

  datatype LogState = LogState(lastPurged: Option<LogId>, lastLogId: Option<LogId>)

  /** The log after inserting entries one after another; a later entry replaces an earlier one. */
  function Appended(log: map<nat, Entry>, entries: seq<Entry>): map<nat, Entry> {
    if entries == [] then log
    else
      var last := entries[|entries| - 1];
      Appended(log, entries[..|entries| - 1])[last.logId.index := last]
  }

  function Truncated(log: map<nat, Entry>, index: nat): map<nat, Entry> {
    map i | i in log && i < index :: log[i]
  }

  function Purged(log: map<nat, Entry>, index: nat): map<nat, Entry> {
    map i | i in log && index < i :: log[i]
  }

  /** The entries with index in `lo..hi`, in index order. */
  function Range(log: map<nat, Entry>, lo: nat, hi: nat): seq<Entry>
    requires lo <= hi
    decreases hi - lo
  {
    if lo == hi then []
    else if hi - 1 in log then Range(log, lo, hi - 1) + [log[hi - 1]]
    else Range(log, lo, hi - 1)
  }

  class LogStore {
    var log: map<nat, Entry>
    var lastPurged: Option<LogId>

    constructor ()
      ensures log == map[] && lastPurged == None
    {
      log, lastPurged := map[], None;
    }

    method Append(entries: seq<Entry>)
      modifies this`log
      ensures log == Appended(old(log), entries)
    {
      for i := 0 to |entries|
        invariant log == Appended(old(log), entries[..i])
      {
        log := log[entries[i].logId.index := entries[i]];
        assert entries[..i + 1][..i] == entries[..i];
      }
      assert entries[..|entries|] == entries;
    }

    /** Drop every entry at or after the given position. */
    method Truncate(logId: LogId)
      modifies this`log
      ensures log == Truncated(old(log), logId.index)
      ensures forall i :: i in log <==> i in old(log) && i < logId.index
    {
      RemoveAll(set i | i in log && logId.index <= i);
    }

    /** Drop every entry up to and including the given position and remember it. */
    method Purge(logId: LogId)
      modifies this
      ensures log == Purged(old(log), logId.index)
      ensures forall i :: i in log <==> i in old(log) && logId.index < i
      ensures lastPurged == Some(logId)
    {
      RemoveAll(set i | i in log && i <= logId.index);
      lastPurged := Some(logId);
    }

    method RemoveAll(keys: set<nat>)
      modifies this`log
      ensures log == old(log) - keys
    {
      var todo := keys;
      while todo != {}
        invariant todo <= keys
        invariant log == old(log) - (keys - todo)
        decreases |todo|
      {
        var k :| k in todo;
        todo := todo - {k};
        log := log - {k};
      }
    }

    /** The last purged position, and the newest entry's position or else the purged one. */
    method GetLogState() returns (state: LogState)
      ensures state.lastPurged == lastPurged
      ensures log == map[] ==> state.lastLogId == lastPurged
      ensures log != map[] ==>
                exists k | k in log :: (forall i | i in log :: i <= k) && state.lastLogId == Some(log[k].logId)
    {
      if log == map[] {
        return LogState(lastPurged, lastPurged);
      }
      var best :| best in log;
      var todo := log.Keys - {best};
      while todo != {}
        invariant todo <= log.Keys && best in log
        invariant forall i | i in log && i !in todo :: i <= best
        decreases |todo|
      {
        var k :| k in todo;
        todo := todo - {k};
        if best < k {
          best := k;
        }
      }
      state := LogState(lastPurged, Some(log[best].logId));
    }

    method TryGetLogEntries(lo: nat, hi: nat) returns (entries: seq<Entry>)
      requires lo <= hi
      ensures entries == Range(log, lo, hi)
    {
      entries := [];
      for i := lo to hi
        invariant entries == Range(log, lo, i)
      {
        if i in log {
          entries := entries + [log[i]];
        }
      }
    }
  }

  /** Where no entry of the range is missing, a read returns exactly those entries. */
  lemma {:induction false} RangeIsContiguous(log: map<nat, Entry>, all: seq<Entry>, lo: nat, hi: nat)
    requires lo <= hi <= |all|
    requires forall i | lo <= i < hi :: i in log && log[i] == all[i]
    ensures Range(log, lo, hi) == all[lo..hi]
    decreases hi - lo
  {
    if lo < hi {
      RangeIsContiguous(log, all, lo, hi - 1);
      assert all[lo..hi] == all[lo..hi - 1] + [all[hi - 1]];
    }
  }

  /** Appending leaves every index that is not rewritten as it was. */
  lemma {:induction false} AppendedKeeps(log: map<nat, Entry>, entries: seq<Entry>, i: nat)
    requires forall e | e in entries :: e.logId.index != i
    ensures i in Appended(log, entries) <==> i in log
    ensures i in log ==> Appended(log, entries)[i] == log[i]
  {
    if entries != [] {
      var last := entries[|entries| - 1];
      assert last in entries;
      AppendedKeeps(log, entries[..|entries| - 1], i);
    }
  }

  /** After appending, an index holds the last of the entries appended under it. */
  lemma {:induction false} AppendedHasLast(log: map<nat, Entry>, entries: seq<Entry>, k: nat)
    requires k < |entries| && forall j | k < j < |entries| :: entries[j].logId.index != entries[k].logId.index
    ensures var i := entries[k].logId.index;
            i in Appended(log, entries) && Appended(log, entries)[i] == entries[k]
  {
    var n := |entries| - 1;
    if k < n {
      AppendedHasLast(log, entries[..n], k);
    }
  }
}
