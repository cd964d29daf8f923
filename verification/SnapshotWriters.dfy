/**
 Several writers of snapshots at once. They share the temporary files, each of them may be cut off
 anywhere, and one whose operation fails gives up.
 */
module SnapshotWriters {
  import opened Types
  import opened SnapshotDisk

  // ----- Runs of writers -----

  /** The operation is the last one that the writer has done. */
  predicate IsLastOf(op: Op, w: Attempt) {
    0 < w.done <= 6 && op == WriteSnapshotOps(w.data, w.meta)[w.done - 1]
  }

  function Back(writers: seq<Attempt>, i: nat): seq<Attempt>
    requires i < |writers| && 0 < writers[i].done
  {
    writers[i := writers[i].(done := writers[i].done - 1)]
  }

  /** The operations that the writers have done, each writer's in its own order. */
  ghost predicate IsMerge(ops: seq<Op>, writers: seq<Attempt>) {
    if ops == [] then forall w | w in writers :: w.done == 0
    else
      var n := |ops| - 1;
      exists i | 0 <= i < |writers| :: IsLastOf(ops[n], writers[i]) && IsMerge(ops[..n], Back(writers, i))
  }

  /** What the writers do to a directory, all of it with success. */
  ghost predicate IsRun(dir: Directory, ops: seq<Op>, writers: seq<Attempt>) {
    IsMerge(ops, writers) && AllSucceed(dir, ops)
  }

  predicate IsFile(name: string) {
    name == DATA || name == META
  }

  lemma FilesDiffer()
    ensures DATA != META && Tmp(DATA) != Tmp(META)
    ensures forall a, b | IsFile(a) && IsFile(b) :: Tmp(a) != b
  {
    assert Tmp(DATA)[8] == '.' && DATA[8] == '.' && Tmp(META)[8] == '-' && META[8] == '-';
    assert |Tmp(DATA)| == |DATA| + 4 && |Tmp(META)| == |META| + 4;
  }

  /** One of the operations that write the file. */
  predicate IsWriting(op: Op, name: string) {
    match op
    case Write(f, _) => f == Tmp(name)
    case Sync(f) => f == Tmp(name)
    case Rename(from, to) => from == Tmp(name) && to == name
  }

  ghost predicate OnlyWrites(ops: seq<Op>) {
    forall k | 0 <= k < |ops| :: IsWriting(ops[k], DATA) || IsWriting(ops[k], META)
  }

  lemma {:induction false} MergeOnlyWrites(ops: seq<Op>, writers: seq<Attempt>)
    requires IsMerge(ops, writers)
    ensures OnlyWrites(ops)
    decreases |ops|
  {
    if ops != [] {
      var n := |ops| - 1;
      var i :| 0 <= i < |writers| && IsLastOf(ops[n], writers[i]) && IsMerge(ops[..n], Back(writers, i));
      MergeOnlyWrites(ops[..n], Back(writers, i));
      forall k | 0 <= k < n ensures IsWriting(ops[k], DATA) || IsWriting(ops[k], META) {
        assert ops[k] == ops[..n][k];
      }
    }
  }

  // ----- One file -----

  predicate Writes(op: Op, name: string) {
    op.Write? && op.name == name
  }

  ghost predicate Unwritten(ops: seq<Op>, name: string) {
    forall k | 0 <= k < |ops| :: !Writes(ops[k], name)
  }

  /** A sync of the file follows its last write. */
  ghost predicate SyncedSince(ops: seq<Op>, name: string) {
    exists k | 0 <= k < |ops| :: ops[k] == Sync(name) && Unwritten(ops[k + 1..], name)
  }

  ghost predicate NeverTarget(ops: seq<Op>, name: string) {
    forall k | 0 <= k < |ops| :: !(ops[k].Rename? && ops[k].to == name)
  }

  lemma UnwrittenStep(ops: seq<Op>, name: string)
    requires ops != []
    ensures var n := |ops| - 1; Unwritten(ops, name) <==> Unwritten(ops[..n], name) && !Writes(ops[n], name)
  {
    var n := |ops| - 1;
    assert forall k | 0 <= k < n :: ops[k] == ops[..n][k];
  }

  lemma SyncedStep(ops: seq<Op>, name: string)
    requires ops != []
    ensures var n := |ops| - 1;
            SyncedSince(ops, name) <==>
              ops[n] == Sync(name) || (SyncedSince(ops[..n], name) && !Writes(ops[n], name))
  {
    var n := |ops| - 1;
    if SyncedSince(ops, name) && ops[n] != Sync(name) {
      var k :| 0 <= k < |ops| && ops[k] == Sync(name) && Unwritten(ops[k + 1..], name);
      UnwrittenStep(ops[k + 1..], name);
      assert ops[..n][k] == Sync(name) && ops[..n][k + 1..] == ops[k + 1..][..n - k - 1];
    }
    if SyncedSince(ops[..n], name) && !Writes(ops[n], name) {
      var k :| 0 <= k < n && ops[..n][k] == Sync(name) && Unwritten(ops[..n][k + 1..], name);
      UnwrittenStep(ops[k + 1..], name);
      assert ops[..n][k + 1..] == ops[k + 1..][..n - k - 1] && ops[k] == Sync(name);
    }
    if ops[n] == Sync(name) {
      assert Unwritten(ops[n + 1..], name);
    }
  }

  /**
   For every sequence of operations: a file that is there, and that nothing is renamed to, is durable
   exactly if a sync of it follows the last write of it, or it was durable before and is not written.
   */
  lemma {:induction false} DurableIff(dir: Directory, ops: seq<Op>, name: string)
    requires NeverTarget(ops, name) && name in DoAll(dir, ops)
    ensures DoAll(dir, ops)[name].durable <==>
              SyncedSince(ops, name) || (Unwritten(ops, name) && name in dir && dir[name].durable)
    decreases |ops|
  {
    if ops != [] {
      var n := |ops| - 1;
      UnwrittenStep(ops, name);
      SyncedStep(ops, name);
      if !Writes(ops[n], name) {
        assert NeverTarget(ops[..n], name);
        assert name in DoAll(dir, ops[..n]);
        DurableIff(dir, ops[..n], name);
      }
    }
  }

  /** The write of the file after which nothing is written to it. */
  ghost predicate IsLastWrite(ops: seq<Op>, name: string, k: nat) {
    k < |ops| && Writes(ops[k], name) && Unwritten(ops[k + 1..], name)
  }

  /** And it holds what the last write of it wrote. */
  lemma {:induction false} ContentIsLastWrite(dir: Directory, ops: seq<Op>, name: string, k: nat)
    requires NeverTarget(ops, name) && name in DoAll(dir, ops) && IsLastWrite(ops, name, k)
    ensures DoAll(dir, ops)[name].content == ops[k].content
    decreases |ops|
  {
    var n := |ops| - 1;
    if k < n {
      UnwrittenStep(ops[k + 1..], name);
      assert ops[..n][k + 1..] == ops[k + 1..][..n - k - 1];
      assert NeverTarget(ops[..n], name) && name in DoAll(dir, ops[..n]);
      ContentIsLastWrite(dir, ops[..n], name, k);
    }
  }

  // ----- The two files -----

  lemma NextIsDone(dir: Directory, ops: seq<Op>, op: Op)
    ensures DoAll(dir, ops + [op]) == Do(DoAll(dir, ops), op)
  {
    assert (ops + [op])[..|ops|] == ops;
  }

  predicate Publishes(op: Op, name: string) {
    op.Rename? && op.to == name
  }

  /** The operation after which the file is not replaced any more. */
  ghost predicate IsLastRename(ops: seq<Op>, name: string, k: nat) {
    k < |ops| && Publishes(ops[k], name) && NeverTarget(ops[k + 1..], name)
  }

  /** The other operations leave the file alone. */
  lemma {:induction false} FileStays(dir: Directory, ops: seq<Op>, name: string)
    requires IsFile(name) && OnlyWrites(ops) && NeverTarget(ops, name)
    ensures (name in DoAll(dir, ops) <==> name in dir) && (name in dir ==> DoAll(dir, ops)[name] == dir[name])
    decreases |ops|
  {
    if ops != [] {
      var n := |ops| - 1;
      FilesDiffer();
      assert OnlyWrites(ops[..n]) && NeverTarget(ops[..n], name);
      FileStays(dir, ops[..n], name);
    }
  }

  lemma TmpIsNoTarget(ops: seq<Op>, name: string)
    requires IsFile(name) && OnlyWrites(ops)
    ensures NeverTarget(ops, Tmp(name))
  {
    FilesDiffer();
  }

  lemma {:induction false} EachSucceeds(dir: Directory, ops: seq<Op>, k: nat)
    requires AllSucceed(dir, ops) && k < |ops|
    ensures Succeeds(DoAll(dir, ops[..k]), ops[k])
    decreases |ops|
  {
    var n := |ops| - 1;
    if k < n {
      EachSucceeds(dir, ops[..n], k);
      assert ops[..n][..k] == ops[..k];
    }
  }

  /** The file is what was renamed to it last. */
  lemma FileIsLastRenamed(dir: Directory, ops: seq<Op>, name: string, k: nat)
    requires IsFile(name) && OnlyWrites(ops) && AllSucceed(dir, ops) && IsLastRename(ops, name, k)
    ensures var before := DoAll(dir, ops[..k]);
            && Tmp(name) in before && name in DoAll(dir, ops) && DoAll(dir, ops)[name] == before[Tmp(name)]
  {
    RenameReplaces(dir, ops, name, k);
    RestOnlyWrites(ops, k + 1);
    StaysAfter(dir, ops, ops[..k + 1], ops[k + 1..], name);
  }

  lemma StaysAfter(dir: Directory, ops: seq<Op>, first: seq<Op>, rest: seq<Op>, name: string)
    requires ops == first + rest && IsFile(name) && OnlyWrites(rest) && NeverTarget(rest, name)
    requires name in DoAll(dir, first)
    ensures name in DoAll(dir, ops) && DoAll(dir, ops)[name] == DoAll(dir, first)[name]
  {
    DoAllConcat(dir, first, rest);
    FileStays(DoAll(dir, first), rest, name);
  }

  lemma RestOnlyWrites(ops: seq<Op>, k: nat)
    requires OnlyWrites(ops) && k <= |ops|
    ensures OnlyWrites(ops[..k]) && OnlyWrites(ops[k..])
  {
  }

  lemma RenameReplaces(dir: Directory, ops: seq<Op>, name: string, k: nat)
    requires IsFile(name) && OnlyWrites(ops) && AllSucceed(dir, ops) && k < |ops| && Publishes(ops[k], name)
    ensures var before, after := DoAll(dir, ops[..k]), DoAll(dir, ops[..k + 1]);
            && Tmp(name) in before && name in after && after[name] == before[Tmp(name)]
  {
    RenamesTmp(ops[k], name);
    EachSucceeds(dir, ops, k);
    assert ops[..k + 1] == ops[..k] + [ops[k]];
    NextIsDone(dir, ops[..k], ops[k]);
  }

  lemma RenamesTmp(op: Op, name: string)
    requires IsFile(name) && (IsWriting(op, DATA) || IsWriting(op, META)) && Publishes(op, name)
    ensures op == Rename(Tmp(name), name)
  {
    FilesDiffer();
  }

  /** A writer that has begun a file has written its temporary file. */
  lemma {:induction false} BegunIsWritten(ops: seq<Op>, writers: seq<Attempt>, i: nat)
    requires IsMerge(ops, writers) && i < |writers|
    ensures 1 <= writers[i].done ==> !Unwritten(ops, Tmp(DATA))
    ensures 4 <= writers[i].done ==> !Unwritten(ops, Tmp(META))
    decreases |ops|
  {
    if ops != [] {
      var n := |ops| - 1;
      var j :| 0 <= j < |writers| && IsLastOf(ops[n], writers[j]) && IsMerge(ops[..n], Back(writers, j));
      BegunIsWritten(ops[..n], Back(writers, j), i);
      UnwrittenStep(ops, Tmp(DATA));
      UnwrittenStep(ops, Tmp(META));
    } else {
      assert writers[i].done == 0;
    }
  }

  /** So a rename follows a write of the temporary file, by whichever writer. */
  lemma {:induction false} RenamedIsBegun(ops: seq<Op>, writers: seq<Attempt>, name: string, k: nat)
    requires IsMerge(ops, writers) && IsFile(name) && k < |ops| && Publishes(ops[k], name)
    ensures !Unwritten(ops[..k], Tmp(name))
    decreases |ops|
  {
    var n := |ops| - 1;
    var j :| 0 <= j < |writers| && IsLastOf(ops[n], writers[j]) && IsMerge(ops[..n], Back(writers, j));
    if k < n {
      RenamedIsBegun(ops[..n], Back(writers, j), name, k);
      assert ops[..n][..k] == ops[..k];
    } else {
      FilesDiffer();
      BegunIsWritten(ops[..n], Back(writers, j), j);
    }
  }

  /** Whatever a crash does to the rest, the file is found as it was. */
  ghost predicate SurvivesCrash(dir: Directory, name: string) {
    forall after | Survives(dir, after) :: name in after && name in dir && after[name] == dir[name]
  }

  lemma SurvivesIffDurable(dir: Directory, name: string)
    requires name in dir
    ensures SurvivesCrash(dir, name) <==> dir[name].durable
  {
    if !dir[name].durable {
      assert Survives(dir, dir - {name});
    }
  }

  /**
   On every run of any number of writers, each cut off anywhere, from any directory: a file that was
   renamed survives a crash exactly if a sync of its temporary file came between the last write of
   that and the last rename, by whichever writers.
   */
  lemma RenamedSurvivesIff(dir: Directory, ops: seq<Op>, writers: seq<Attempt>, name: string, k: nat)
    requires IsRun(dir, ops, writers) && IsFile(name) && IsLastRename(ops, name, k)
    ensures SurvivesCrash(DoAll(dir, ops), name) <==> SyncedSince(ops[..k], Tmp(name))
  {
    MergeOnlyWrites(ops, writers);
    FileIsLastRenamed(dir, ops, name, k);
    SurvivesIffDurable(DoAll(dir, ops), name);
    RestOnlyWrites(ops, k);
    TmpIsNoTarget(ops[..k], name);
    RenamedIsBegun(ops, writers, name, k);
    DurableIff(dir, ops[..k], Tmp(name));
  }

  /** A file that was not renamed is the one that was there. */
  lemma UnrenamedStays(dir: Directory, ops: seq<Op>, writers: seq<Attempt>, name: string)
    requires IsRun(dir, ops, writers) && IsFile(name) && NeverTarget(ops, name)
    ensures (name in DoAll(dir, ops) <==> name in dir) && (name in dir ==> DoAll(dir, ops)[name] == dir[name])
  {
    MergeOnlyWrites(ops, writers);
    FileStays(dir, ops, name);
  }

  /** And what was renamed is what some writer wrote, complete, and last of all before the rename. */
  lemma RenamedIsWritten(dir: Directory, ops: seq<Op>, writers: seq<Attempt>, name: string, k: nat)
    returns (w: nat)
    requires IsRun(dir, ops, writers) && IsFile(name) && IsLastRename(ops, name, k)
    ensures IsLastWrite(ops[..k], Tmp(name), w)
    ensures name in DoAll(dir, ops) && DoAll(dir, ops)[name].content == ops[w].content
  {
    MergeOnlyWrites(ops, writers);
    FileIsLastRenamed(dir, ops, name, k);
    RestOnlyWrites(ops, k);
    TmpIsNoTarget(ops[..k], name);
    RenamedIsBegun(ops, writers, name, k);
    w := LastWrite(ops[..k], Tmp(name));
    ContentIsLastWrite(dir, ops[..k], Tmp(name), w);
  }

  lemma {:induction false} LastWrite(ops: seq<Op>, name: string) returns (w: nat)
    requires !Unwritten(ops, name)
    ensures IsLastWrite(ops, name, w)
    decreases |ops|
  {
    var n := |ops| - 1;
    if Writes(ops[n], name) {
      w := n;
    } else {
      UnwrittenStep(ops, name);
      w := LastWrite(ops[..n], name);
      assert ops[w] == ops[..n][w] && ops[w + 1..][..n - w - 1] == ops[..n][w + 1..];
      UnwrittenStep(ops[w + 1..], name);
    }
  }

  // ----- Writers that get in each other's way -----

  lemma OneMoreDone(ops: seq<Op>, writers: seq<Attempt>, i: nat)
    requires IsMerge(ops, writers) && i < |writers| && writers[i].done < 6
    ensures var w := writers[i];
            IsMerge(ops + [WriteSnapshotOps(w.data, w.meta)[w.done]], writers[i := w.(done := w.done + 1)])
  {
    var w := writers[i];
    var more, later := ops + [WriteSnapshotOps(w.data, w.meta)[w.done]], writers[i := w.(done := w.done + 1)];
    assert more[..|ops|] == ops && Back(later, i) == writers;
    assert IsLastOf(more[|ops|], later[i]);
  }

  lemma OneMoreSucceeds(dir: Directory, ops: seq<Op>, op: Op)
    requires AllSucceed(dir, ops) && Succeeds(DoAll(dir, ops), op)
    ensures AllSucceed(dir, ops + [op])
  {
    assert (ops + [op])[..|ops|] == ops;
  }

  /** A writer does its next operation. */
  predicate Does(writers: seq<Attempt>, later: seq<Attempt>, i: nat, op: Op) {
    && i < |writers| && writers[i].done < 6
    && op == WriteSnapshotOps(writers[i].data, writers[i].meta)[writers[i].done]
    && later == writers[i := writers[i].(done := writers[i].done + 1)]
  }

  lemma Grows(dir: Directory, ops: seq<Op>, op: Op, writers: seq<Attempt>, later: seq<Attempt>, i: nat)
    requires IsRun(dir, ops, writers) && Does(writers, later, i, op) && Succeeds(DoAll(dir, ops), op)
    ensures IsRun(dir, ops + [op], later)
  {
    OneMoreDone(ops, writers, i);
    OneMoreSucceeds(dir, ops, op);
  }

  function Two(a: Attempt, b: Attempt, i: nat, j: nat): seq<Attempt> {
    [a.(done := i), b.(done := j)]
  }

  lemma NothingDone(dir: Directory, a: Attempt, b: Attempt)
    ensures IsRun(dir, [], Two(a, b, 0, 0))
  {
  }

  /** Both data files are written, the newer one first, and then both metadata files, the older one first. */
  function Crossed(newer: Attempt, older: Attempt): seq<Op> {
    AtomicWriteOps(DATA, newer.data) + AtomicWriteOps(DATA, older.data)
    + AtomicWriteOps(META, older.meta) + AtomicWriteOps(META, newer.meta)
  }

  /** Two writers at once, neither of them cut off, can leave the older data with the newer metadata. */
  lemma WritersCross(dir: Directory, newer: Attempt, older: Attempt)
    ensures IsRun(dir, Crossed(newer, older), Two(newer, older, 6, 6))
    ensures ReadPair(DoAll(dir, Crossed(newer, older))) == Some((older.data, newer.meta))
  {
    CrossedRuns(dir, newer, older);
    var d1, d0 := AtomicWriteOps(DATA, newer.data), AtomicWriteOps(DATA, older.data);
    var m0, m1 := AtomicWriteOps(META, older.meta), AtomicWriteOps(META, newer.meta);
    DoAllConcat(dir, d1, d0);
    DoAllConcat(dir, d1 + d0, m0);
    DoAllConcat(dir, d1 + d0 + m0, m1);
    OneFileWritten(DoAll(dir, d1), DATA, older.data);
    OneFileWritten(DoAll(dir, d1 + d0), META, older.meta);
    OneFileWritten(DoAll(dir, d1 + d0 + m0), META, newer.meta);
  }

  lemma CrossedRuns(dir: Directory, newer: Attempt, older: Attempt)
    ensures IsRun(dir, Crossed(newer, older), Two(newer, older, 6, 6))
  {
    var d1, d0 := AtomicWriteOps(DATA, newer.data), AtomicWriteOps(DATA, older.data);
    var m0, m1 := AtomicWriteOps(META, older.meta), AtomicWriteOps(META, newer.meta);
    NothingDone(dir, newer, older);
    WritesNext(dir, [], Two(newer, older, 0, 0), Two(newer, older, 3, 0), 0);
    assert [] + d1 == d1;
    WritesNext(dir, d1, Two(newer, older, 3, 0), Two(newer, older, 3, 3), 1);
    WritesNext(dir, d1 + d0, Two(newer, older, 3, 3), Two(newer, older, 3, 6), 1);
    WritesNext(dir, d1 + d0 + m0, Two(newer, older, 3, 6), Two(newer, older, 6, 6), 0);
  }

  /** The operations that write a writer's next file. */
  function NextFile(w: Attempt, done: nat): seq<Op> {
    if done == 0 then AtomicWriteOps(DATA, w.data) else AtomicWriteOps(META, w.meta)
  }

  /** A writer writes its next file without being disturbed. */
  lemma WritesNext(dir: Directory, ops: seq<Op>, writers: seq<Attempt>, later: seq<Attempt>, i: nat)
    requires IsRun(dir, ops, writers) && i < |writers| && (writers[i].done == 0 || writers[i].done == 3)
    requires later == writers[i := writers[i].(done := writers[i].done + 3)]
    ensures IsRun(dir, ops + NextFile(writers[i], writers[i].done), later)
  {
    var w := writers[i];
    var some, one, two := NextFile(w, w.done), writers[i := w.(done := w.done + 1)], writers[i := w.(done := w.done + 2)];
    Grows(dir, ops, some[0], writers, one, i);
    NextIsDone(dir, ops, some[0]);
    LastTwoOps(dir, ops + [some[0]], some[1], some[2], one, two, later, i);
    assert ops + [some[0]] + [some[1], some[2]] == ops + some;
  }

  lemma LastTwoOps(
    dir: Directory, ops: seq<Op>, sync: Op, rename: Op, writers: seq<Attempt>, one: seq<Attempt>, later: seq<Attempt>,
    i: nat)
    requires IsRun(dir, ops, writers) && Does(writers, one, i, sync) && Does(one, later, i, rename)
    requires sync.Sync? && rename.Rename? && sync.name == rename.from && sync.name in DoAll(dir, ops)
    ensures IsRun(dir, ops + [sync, rename], later)
  {
    Grows(dir, ops, sync, writers, one, i);
    NextIsDone(dir, ops, sync);
    Grows(dir, ops + [sync], rename, one, later, i);
    assert ops + [sync] + [rename] == ops + [sync, rename];
  }

  /** One has synced its data when the other one writes, and then renames what that one has written. */
  function Unsynced(a: Attempt, b: Attempt): seq<Op> {
    [Write(Tmp(DATA), a.data), Sync(Tmp(DATA)), Write(Tmp(DATA), b.data), Rename(Tmp(DATA), DATA)]
  }

  /** Both writers use the same temporary file: here the data of one is published unsynced, and a crash may change it. */
  lemma UnsyncedIsRenamed(dir: Directory, a: Attempt, b: Attempt)
    ensures IsRun(dir, Unsynced(a, b), Two(a, b, 3, 1))
    ensures var after := DoAll(dir, Unsynced(a, b));
            DATA in after && after[DATA] == File(b.data, false) && !SurvivesCrash(after, DATA)
  {
    UnsyncedRuns(dir, a, b);
    var ops := Unsynced(a, b);
    var after := DoAll(dir, ops[..3]);
    assert ops[..3][..2] == ops[..2] && ops[..2][..1] == ops[..1] && ops[..1][..0] == [];
    assert after[Tmp(DATA)] == File(b.data, false);
    SurvivesIffDurable(DoAll(dir, ops), DATA);
  }

  lemma UnsyncedRuns(dir: Directory, a: Attempt, b: Attempt)
    ensures IsRun(dir, Unsynced(a, b), Two(a, b, 3, 1))
  {
    var ops := Unsynced(a, b);
    NothingDone(dir, a, b);
    NextIsDone(dir, [], ops[0]);
    NextIsDone(dir, [] + [ops[0]], ops[1]);
    NextIsDone(dir, [] + [ops[0]] + [ops[1]], ops[2]);
    Grows(dir, [], ops[0], Two(a, b, 0, 0), Two(a, b, 1, 0), 0);
    Grows(dir, [] + [ops[0]], ops[1], Two(a, b, 1, 0), Two(a, b, 2, 0), 0);
    Grows(dir, [] + [ops[0]] + [ops[1]], ops[2], Two(a, b, 2, 0), Two(a, b, 2, 1), 1);
    Grows(dir, [] + [ops[0]] + [ops[1]] + [ops[2]], ops[3], Two(a, b, 2, 1), Two(a, b, 3, 1), 0);
    assert ops == [] + [ops[0]] + [ops[1]] + [ops[2]] + [ops[3]];
  }

  /** The other writer finds its temporary file gone, so that it gives up and its metadata is never written. */
  lemma RenamedAwayFails(dir: Directory, a: Attempt, b: Attempt)
    ensures !Succeeds(DoAll(dir, Unsynced(a, b)), WriteSnapshotOps(b.data, b.meta)[1])
    ensures !IsRun(dir, Unsynced(a, b) + [WriteSnapshotOps(b.data, b.meta)[1]], Two(a, b, 3, 2))
  {
    FilesDiffer();
    var ops, next := Unsynced(a, b), WriteSnapshotOps(b.data, b.meta)[1];
    assert (ops + [next])[..4] == ops && (ops + [next])[4] == next;
  }
}
