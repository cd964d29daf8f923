/**
 The snapshot files on disk. A write goes through a temporary file, a sync and a
 rename for the data, then the same for the metadata, and may be cut off after any
 of those operations by an error or a crash.
 */
module SnapshotDisk {
  import opened Types

  /** A file is durable once synced; a crash leaves a file that is not durable with any content. */
  datatype File = File(content: Bytes, durable: bool)

  type Directory = map<string, File>

  const DATA := "snapshot.bin"
  const META := "snapshot-meta.json"

  function Tmp(name: string): string {
    name + ".tmp"
  }

  datatype Op = Write(name: string, content: Bytes) | Sync(name: string) | Rename(from: string, to: string)

  /** An operation on a file that is not there fails, and the writer gives up. */
  predicate Succeeds(dir: Directory, op: Op) {
    match op
    case Write(_, _) => true
    case Sync(name) => name in dir
    case Rename(from, _) => from in dir
  }

  /** What an operation does; one that fails does nothing. */
  function Do(dir: Directory, op: Op): Directory {
    match op
    case Write(name, content) => dir[name := File(content, false)]
    case Sync(name) => if name in dir then dir[name := dir[name].(durable := true)] else dir
    case Rename(from, to) => if from in dir then (dir - {from})[to := dir[from]] else dir
  }

  function DoAll(dir: Directory, ops: seq<Op>): Directory {
    if ops == [] then dir else Do(DoAll(dir, ops[..|ops| - 1]), ops[|ops| - 1])
  }

  predicate AllSucceed(dir: Directory, ops: seq<Op>) {
    ops == [] || (AllSucceed(dir, ops[..|ops| - 1]) && Succeeds(DoAll(dir, ops[..|ops| - 1]), ops[|ops| - 1]))
  }

  function AtomicWriteOps(name: string, content: Bytes): seq<Op> {
    [Write(Tmp(name), content), Sync(Tmp(name)), Rename(Tmp(name), name)]
  }

  function WriteSnapshotOps(data: Bytes, meta: Bytes): seq<Op> {
    AtomicWriteOps(DATA, data) + AtomicWriteOps(META, meta)
  }

  /** The operations of a write that get done when `budget` of them succeed. */
  function DoneOps(data: Bytes, meta: Option<Bytes>, budget: nat): seq<Op> {
    if meta.None? then AtomicWriteOps(DATA, data)[..if budget < 3 then budget else 3]
    else WriteSnapshotOps(data, meta.value)[..if budget < 6 then budget else 6]
  }

  lemma OneWrite(data: Bytes, meta: Option<Bytes>, budget: nat)
    requires budget < 3 || meta.None?
    ensures DoneOps(data, meta, budget) == AtomicWriteOps(DATA, data)[..if budget < 3 then budget else 3]
  {
  }

  lemma TwoWrites(dir: Directory, data: Bytes, meta: Bytes, n: nat)
    requires n <= 3
    ensures DoAll(DoAll(dir, AtomicWriteOps(DATA, data)[..3]), AtomicWriteOps(META, meta)[..n])
            == DoAll(dir, WriteSnapshotOps(data, meta)[..3 + n])
  {
    DoAllConcat(dir, AtomicWriteOps(DATA, data)[..3], AtomicWriteOps(META, meta)[..n]);
    assert WriteSnapshotOps(data, meta)[..3 + n] == AtomicWriteOps(DATA, data)[..3] + AtomicWriteOps(META, meta)[..n];
  }

  class SnapshotDir {
    var files: Directory

    constructor ()
      ensures files == map[]
    {
      files := map[];
    }

    /** `budget` operations succeed before the write is cut off. */
    method AtomicWrite(name: string, content: Bytes, budget: nat) returns (left: nat)
      modifies this
      ensures files == DoAll(old(files), AtomicWriteOps(name, content)[..if budget < 3 then budget else 3])
      ensures left == if budget < 3 then 0 else budget - 3
    {
      var ops := AtomicWriteOps(name, content);
      left := budget;
      var i := 0;
      while i < 3 && left > 0
        invariant 0 <= i <= 3 && left == budget - i
        invariant files == DoAll(old(files), ops[..i])
      {
        files := Do(files, ops[i]);
        assert ops[..i + 1][..i] == ops[..i];
        i, left := i + 1, left - 1;
      }
    }

    /** Data first, then metadata, unless that cannot be encoded; `ok` if nothing cut the write off. */
    method WriteSnapshot(data: Bytes, meta: Option<Bytes>, budget: nat) returns (ok: bool)
      modifies this
      ensures files == DoAll(old(files), DoneOps(data, meta, budget))
      ensures ok <==> 6 <= budget && meta.Some?
    {
      var left := AtomicWrite(DATA, data, budget);
      ok := false;
      if 3 <= budget && meta.Some? {
        ghost var n := if left < 3 then left else 3;
        left := AtomicWrite(META, meta.value, left);
        ok := 6 <= budget;
        TwoWrites(old(files), data, meta.value, n);
      } else {
        OneWrite(data, meta, budget);
      }
    }

    /** Both files, or nothing if either is missing. */
    method ReadSnapshot() returns (found: Option<(Bytes, Bytes)>)
      ensures found == ReadPair(files)
    {
      if DATA !in files || META !in files {
        return None;
      }
      return Some((files[DATA].content, files[META].content));
    }
  }

  function ReadPair(dir: Directory): Option<(Bytes, Bytes)> {
    if DATA in dir && META in dir then Some((dir[DATA].content, dir[META].content)) else None
  }

  lemma {:induction false} DoAllConcat(dir: Directory, a: seq<Op>, b: seq<Op>)
    ensures DoAll(dir, a + b) == DoAll(DoAll(dir, a), b)
    decreases |b|
  {
    if b == [] {
      assert a + b == a;
    } else {
      assert (a + b)[..|a + b| - 1] == a + b[..|b| - 1];
      DoAllConcat(dir, a, b[..|b| - 1]);
    }
  }

  // ----- Writes one after another, each cut off anywhere -----

  /** One call of `write_snapshot`: `done` operations succeeded before an error or a crash. */
  datatype Attempt = Attempt(data: Bytes, meta: Bytes, done: nat)

  /** What is found after a crash: durable files as they were, any others with any content. */
  ghost predicate Survives(before: Directory, after: Directory) {
    && after.Keys <= before.Keys
    && (forall f | f in before && before[f].durable :: f in after && after[f] == before[f])
  }

  ghost predicate AfterAttempt(before: Directory, a: Attempt, after: Directory) {
    && a.done <= 6
    && Survives(DoAll(before, WriteSnapshotOps(a.data, a.meta)[..a.done]), after)
  }

  /** The directories seen before, between and after the attempts, the first one empty. */
  ghost predicate IsHistory(dirs: seq<Directory>, attempts: seq<Attempt>) {
    && |dirs| == |attempts| + 1
    && dirs[0] == map[]
    && forall i {:trigger attempts[i]} | 0 <= i < |attempts| :: AfterAttempt(dirs[i], attempts[i], dirs[i + 1])
  }

  /**
   The number of the last of the first `k` attempts that got past `ops` operations,
   counting from one; zero if none did.
   */
  function LastPast(attempts: seq<Attempt>, k: nat, ops: nat): (n: nat)
    requires k <= |attempts|
    ensures n <= k
    ensures n > 0 ==> attempts[n - 1].done >= ops
    ensures forall i | n <= i < k :: attempts[i].done < ops
  {
    if k == 0 then 0
    else if attempts[k - 1].done >= ops then k
    else LastPast(attempts, k - 1, ops)
  }

  ghost predicate HasFile(dir: Directory, name: string, content: Bytes) {
    name in dir && dir[name] == File(content, true)
  }

  /** What the two files hold after `k` attempts: the data and metadata of the last renames. */
  ghost predicate HoldsLast(dir: Directory, attempts: seq<Attempt>, k: nat)
    requires k <= |attempts|
  {
    var d, m := LastPast(attempts, k, 3), LastPast(attempts, k, 6);
    && (if d == 0 then DATA !in dir else HasFile(dir, DATA, attempts[d - 1].data))
    && (if m == 0 then META !in dir else HasFile(dir, META, attempts[m - 1].meta))
  }

  /** The effect of one cut-off write on the two files. */
  lemma AttemptEffect(dir: Directory, data: Bytes, meta: Bytes, done: nat)
    requires done <= 6
    ensures var dir' := DoAll(dir, WriteSnapshotOps(data, meta)[..done]);
            && (done >= 3 ==> HasFile(dir', DATA, data))
            && (done < 3 ==> (DATA in dir' <==> DATA in dir) && (DATA in dir ==> dir'[DATA] == dir[DATA]))
            && (done >= 6 ==> HasFile(dir', META, meta))
            && (done < 6 ==> (META in dir' <==> META in dir) && (META in dir ==> dir'[META] == dir[META]))
  {
    var ops := WriteSnapshotOps(data, meta);
    var dir' := dir;
    var i := 0;
    while i < done
      invariant 0 <= i <= done
      invariant dir' == DoAll(dir, ops[..i])
      invariant i in {1, 2} ==> Tmp(DATA) in dir' && dir'[Tmp(DATA)] == File(data, i == 2)
      invariant i in {4, 5} ==> Tmp(META) in dir' && dir'[Tmp(META)] == File(meta, i == 5)
      invariant i >= 3 ==> HasFile(dir', DATA, data)
      invariant i >= 6 ==> HasFile(dir', META, meta)
      invariant i < 3 ==> (DATA in dir' <==> DATA in dir) && (DATA in dir ==> dir'[DATA] == dir[DATA])
      invariant i < 6 ==> (META in dir' <==> META in dir) && (META in dir ==> dir'[META] == dir[META])
    {
      assert |Tmp(DATA)| == |DATA| + 4 && |Tmp(META)| == |META| + 4;
      assert Tmp(META)[8] == '-' && META[8] == '-';
      dir' := Do(dir', ops[i]);
      assert ops[..i + 1][..i] == ops[..i];
      i := i + 1;
    }
  }

  /** The two files after an attempt: replaced if it got past their rename, else unchanged. */
  ghost predicate Effect(dir: Directory, a: Attempt, dir': Directory) {
    && (if a.done >= 3 then HasFile(dir', DATA, a.data) else Kept(dir, dir', DATA))
    && (if a.done >= 6 then HasFile(dir', META, a.meta) else Kept(dir, dir', META))
  }

  ghost predicate Kept(dir: Directory, dir': Directory, name: string) {
    if name in dir && dir[name].durable then name in dir' && dir'[name] == dir[name]
    else name !in dir ==> name !in dir'
  }

  lemma AttemptHasEffect(dir: Directory, a: Attempt, dir': Directory)
    requires AfterAttempt(dir, a, dir')
    ensures Effect(dir, a, dir') && a.done <= 6
  {
    AttemptEffect(dir, a.data, a.meta, a.done);
  }

  lemma {:induction false} EffectsHoldLast(dirs: seq<Directory>, attempts: seq<Attempt>, k: nat)
    requires |dirs| == |attempts| + 1 && dirs[0] == map[] && k <= |attempts|
    requires forall i {:trigger attempts[i]} | 0 <= i < |attempts| :: Effect(dirs[i], attempts[i], dirs[i + 1])
    ensures HoldsLast(dirs[k], attempts, k)
  {
    if k > 0 {
      EffectsHoldLast(dirs, attempts, k - 1);
      assert Effect(dirs[k - 1], attempts[k - 1], dirs[k]);
    }
  }

  /**
   After any number of writes one after another, each cut off anywhere, each file is absent or one
   complete written value, and the data is never from an earlier write than the metadata.
   */
  lemma FilesAreComplete(dirs: seq<Directory>, attempts: seq<Attempt>)
    requires IsHistory(dirs, attempts)
    ensures HoldsLast(dirs[|attempts|], attempts, |attempts|)
    ensures LastPast(attempts, |attempts|, 6) <= LastPast(attempts, |attempts|, 3)
  {
    forall i | 0 <= i < |attempts| ensures Effect(dirs[i], attempts[i], dirs[i + 1]) {
      AttemptHasEffect(dirs[i], attempts[i], dirs[i + 1]);
    }
    EffectsHoldLast(dirs, attempts, |attempts|);
  }

  /** A write that is not cut off is read back, whatever was on the disk before. */
  lemma WrittenIsRead(dir: Directory, data: Bytes, meta: Bytes)
    ensures ReadPair(DoAll(dir, WriteSnapshotOps(data, meta))) == Some((data, meta))
  {
    AttemptEffect(dir, data, meta, 6);
    assert WriteSnapshotOps(data, meta)[..6] == WriteSnapshotOps(data, meta);
  }

  /** Read back the data of write `d` with the metadata of write `m`, counting from one. */
  ghost predicate ReadsBack(dir: Directory, attempts: seq<Attempt>, d: nat, m: nat) {
    && 0 < m <= d <= |attempts|
    && ReadPair(dir) == Some((attempts[d - 1].data, attempts[m - 1].meta))
  }

  lemma LastTwo(dir: Directory, attempts: seq<Attempt>)
    requires |attempts| >= 2 && HoldsLast(dir, attempts, |attempts|)
    requires attempts[|attempts| - 2].done == 6 && attempts[|attempts| - 1].done <= 6
    ensures var n, last := |attempts|, attempts[|attempts| - 1].done;
            if last == 6 then ReadsBack(dir, attempts, n, n)
            else if last >= 3 then ReadsBack(dir, attempts, n, n - 1)
            else ReadsBack(dir, attempts, n - 1, n - 1)
  {
  }

  /**
   When only the last write is cut off, what is read back is the data of the last
   metadata's write or of the one after it, and the two are from the same write exactly
   if the cut does not fall between the two renames.
   */
  lemma OneCrash(dirs: seq<Directory>, attempts: seq<Attempt>)
    requires IsHistory(dirs, attempts) && |attempts| >= 2
    requires attempts[|attempts| - 2].done == 6
    ensures var n, last := |attempts|, attempts[|attempts| - 1].done;
            exists d, m :: ReadsBack(dirs[n], attempts, d, m)
                           && n - 1 <= m <= d <= m + 1 && (d == m <==> !(3 <= last < 6))
  {
    var n := |attempts|;
    FilesAreComplete(dirs, attempts);
    AttemptHasEffect(dirs[n - 1], attempts[n - 1], dirs[n]);
    LastTwo(dirs[n], attempts);
  }

  /** A complete write of one file replaces it and leaves the other one alone. */
  lemma OneFileWritten(dir: Directory, name: string, content: Bytes)
    requires name == DATA || name == META
    ensures var dir', other := DoAll(dir, AtomicWriteOps(name, content)), if name == DATA then META else DATA;
            && HasFile(dir', name, content)
            && (other in dir' <==> other in dir) && (other in dir ==> dir'[other] == dir[other])
  {
    var ops := AtomicWriteOps(name, content);
    assert ops[..1] == [ops[0]] && ops[..2] == [ops[0], ops[1]] && ops[..2][..1] == ops[..1] && ops[..1][..0] == [];
    var other := if name == DATA then META else DATA;
    assert |Tmp(name)| == |name| + 4 && META[8] == '-' && Tmp(DATA)[8] == '.';
    assert DoAll(dir, ops[..1]) == dir[Tmp(name) := File(content, false)];
    assert DoAll(dir, ops[..2]) == dir[Tmp(name) := File(content, true)];
    assert Tmp(name) != name && Tmp(name) != other && name != other;
  }
}
