/**
 The state machine store: applying batches of log entries, taking, installing and persisting
 snapshots, and restoring from one.
 */
module StateStore {
  import opened Types
  import opened LogStore
  import opened SnapshotDisk
  import Fsm

  datatype StoredMembership = StoredMembership(logId: Option<LogId>, members: set<RaftId>)

  /** The replicated part of a store: everything that is a function of the log. */
  datatype Image = Image(
    fsm: FsmState, lastApplied: Option<LogId>, lastMembership: StoredMembership)

  function EmptyImage(): Image {
    Image(InitialState(), None, StoredMembership(None, {}))
  }

  /** `snapshotId` is the number in the snapshot's name. */
  datatype SnapshotMeta = SnapshotMeta(
    lastLogId: Option<LogId>, lastMembership: StoredMembership, snapshotId: nat)

  datatype Snapshot = Snapshot(meta: SnapshotMeta, data: Bytes)

  /** How many log entries an image has consumed. */
  function Applied(lastApplied: Option<LogId>): nat {
    match lastApplied
    case None => 0
    case Some(logId) => logId.index + 1
  }

  function ApplyEntry(image: Image, e: Entry): Image {
    var at := image.(lastApplied := Some(e.logId));
    match e.payload
    case Blank => at
    case Membership(members) => at.(lastMembership := StoredMembership(Some(e.logId), members))
    case Normal(command) => at.(fsm := Fsm.Apply(image.fsm, command).0)
  }

  function ApplyEntries(image: Image, entries: seq<Entry>): Image {
    if entries == [] then image
    else ApplyEntry(ApplyEntries(image, entries[..|entries| - 1]), entries[|entries| - 1])
  }

  function TakeSnapshot(codec: Codec<FsmState>, image: Image): Option<Snapshot> {
    match codec.encode(image.fsm)
    case None => None
    case Some(data) =>
      var id := match image.lastApplied case None => 0 case Some(logId) => logId.index;
      Some(Snapshot(SnapshotMeta(image.lastApplied, image.lastMembership, id), data))
  }

  function LoadSnapshot(codec: Codec<FsmState>, snapshot: Snapshot): Option<Image> {
    match codec.decode(snapshot.data)
    case None => None
    case Some(fsm) => Some(Image(fsm, snapshot.meta.lastLogId, snapshot.meta.lastMembership))
  }

  /** The shared place of the newest snapshot, with its own lock. */
  class SnapshotSlot {
    var current: Option<Snapshot>

    constructor (snapshot: Option<Snapshot>)
      ensures current == snapshot
    {
      current := snapshot;
    }
  }

  function DirOf(dir: Option<SnapshotDir>): set<object> {
    if dir.Some? then {dir.value} else {}
  }

  /** The files after a snapshot was written, if `budget` operations succeed. */
  function Persisted(files: Directory, metaCodec: Codec<SnapshotMeta>, snapshot: Snapshot, budget: nat): Directory {
    DoAll(files, DoneOps(snapshot.data, metaCodec.encode(snapshot.meta), budget))
  }

  /** Write a snapshot if there is a directory; errors are only logged. */
  method Persist(dir: Option<SnapshotDir>, metaCodec: Codec<SnapshotMeta>, snapshot: Snapshot, budget: nat)
    modifies DirOf(dir)
    ensures dir.Some? ==> dir.value.files == Persisted(old(dir.value.files), metaCodec, snapshot, budget)
  {
    if dir.Some? {
      var ok := dir.value.WriteSnapshot(snapshot.data, metaCodec.encode(snapshot.meta), budget);
    }
  }

  class StateMachineStore {
    const codec: Codec<FsmState>
    const metaCodec: Codec<SnapshotMeta>
    const dir: Option<SnapshotDir>
    var fsm: FsmState
    var lastApplied: Option<LogId>
    var lastMembership: StoredMembership
    var version: nat
    const slot: SnapshotSlot

    function View(): Image
      reads this
    {
      Image(fsm, lastApplied, lastMembership)
    }

    constructor (codec: Codec<FsmState>, metaCodec: Codec<SnapshotMeta>, dir: Option<SnapshotDir>)
      ensures View() == EmptyImage() && version == 0
      ensures this.codec == codec && this.metaCodec == metaCodec && this.dir == dir
      ensures fresh(slot) && slot.current == None
    {
      this.codec, this.metaCodec, this.dir := codec, metaCodec, dir;
      fsm, lastApplied, lastMembership := InitialState(), None, StoredMembership(None, {});
      version := 0;
      slot := new SnapshotSlot(None);
    }

    /** Reopen a store from a persisted snapshot whose data has been decoded. */
    constructor FromSnapshot(
      codec: Codec<FsmState>, metaCodec: Codec<SnapshotMeta>, dir: SnapshotDir, fsm: FsmState, snapshot: Snapshot)
      ensures this.codec == codec && this.metaCodec == metaCodec && this.dir == Some(dir)
      ensures fresh(slot) && slot.current == Some(snapshot) && version == 0
      ensures codec.decode(snapshot.data) == Some(fsm) ==> LoadSnapshot(codec, snapshot) == Some(View())
    {
      this.codec, this.metaCodec, this.dir := codec, metaCodec, Some(dir);
      this.fsm := fsm;
      lastApplied, lastMembership := snapshot.meta.lastLogId, snapshot.meta.lastMembership;
      version := 0;
      slot := new SnapshotSlot(Some(snapshot));
    }

    /** Apply a batch of committed entries; one response per entry, one version bump per batch. */
    method ApplyBatch(entries: seq<Entry>) returns (responses: seq<Response>)
      modifies this
      ensures View() == ApplyEntries(old(View()), entries) && IsOutcome(old(View()), entries, View())
      ensures version == old(version) + 1
      ensures ResponsesAre(old(fsm), entries, responses)
    {
      responses := [];
      for i := 0 to |entries|
        invariant View() == ApplyEntries(old(View()), entries[..i])
        invariant version == old(version)
        invariant ResponsesAre(old(fsm), entries[..i], responses)
      {
        assert entries[..i + 1][..i] == entries[..i];
        AppliedIsOutcome(old(View()), entries[..i]);
        var response := ApplyOne(entries[i]);
        ResponsesGrow(old(fsm), entries[..i + 1], responses, response);
        responses := responses + [response];
      }
      assert entries[..|entries|] == entries;
      AppliedIsOutcome(old(View()), entries);
      version := version + 1;
    }

    method ApplyOne(e: Entry) returns (response: Response)
      modifies this`fsm, this`lastApplied, this`lastMembership
      ensures View() == ApplyEntry(old(View()), e)
      ensures ResponseIs(old(fsm), e, response)
    {
      lastApplied := Some(e.logId);
      response := Accepted;
      match e.payload
      case Blank =>
      case Membership(members) =>
        lastMembership := StoredMembership(Some(e.logId), members);
      case Normal(command) =>
        var (next, outcome) := Fsm.Apply(fsm, command);
        fsm, response := next, outcome;
    }

    /** Copy the current state for a builder that will run on its own task. */
    method GetSnapshotBuilder() returns (builder: SnapshotBuilder)
      ensures fresh(builder) && builder.image == View()
      ensures builder.slot == slot && builder.codec == codec && builder.metaCodec == metaCodec && builder.dir == dir
    {
      builder := new SnapshotBuilder(View(), slot, codec, metaCodec, dir);
    }

    /**
     Replace the state by a received snapshot, put it into the slot and write it to disk;
     undecodable data changes nothing.
     */
    method InstallSnapshot(snapshot: Snapshot, budget: nat) returns (ok: bool)
      modifies this, slot, DirOf(dir)
      ensures ok <==> LoadSnapshot(codec, snapshot).Some?
      ensures ok ==> Some(View()) == LoadSnapshot(codec, snapshot)
                     && slot.current == Some(snapshot) && version == old(version) + 1
      ensures ok && dir.Some? ==> dir.value.files == Persisted(old(dir.value.files), metaCodec, snapshot, budget)
      ensures !ok ==> View() == old(View()) && slot.current == old(slot.current) && version == old(version)
      ensures !ok && dir.Some? ==> dir.value.files == old(dir.value.files)
    {
      match codec.decode(snapshot.data)
      case None =>
        ok := false;
      case Some(decoded) =>
        fsm := decoded;
        lastApplied := snapshot.meta.lastLogId;
        lastMembership := snapshot.meta.lastMembership;
        version := version + 1;
        slot.current := Some(snapshot);
        Persist(dir, metaCodec, snapshot, budget);
        ok := true;
    }
  }

  /** Builds a snapshot from a point-in-time copy of the state. */
  class SnapshotBuilder {
    const image: Image
    const slot: SnapshotSlot
    const codec: Codec<FsmState>
    const metaCodec: Codec<SnapshotMeta>
    const dir: Option<SnapshotDir>

    constructor (
      image: Image, slot: SnapshotSlot, codec: Codec<FsmState>, metaCodec: Codec<SnapshotMeta>, dir: Option<SnapshotDir>)
      ensures this.image == image && this.slot == slot && this.codec == codec && this.metaCodec == metaCodec
      ensures this.dir == dir
    {
      this.image, this.slot, this.codec, this.metaCodec, this.dir := image, slot, codec, metaCodec, dir;
    }

    /** Write to disk and then publish the copy taken at creation, whatever the store has done since. */
    method BuildSnapshot(budget: nat) returns (built: Option<Snapshot>)
      modifies slot, DirOf(dir)
      ensures built == TakeSnapshot(codec, image)
      ensures built.Some? ==> built.value.meta.snapshotId == if image.lastApplied.None? then 0 else image.lastApplied.value.index
      ensures slot.current == if built.Some? then built else old(slot.current)
      ensures dir.Some? ==>
                dir.value.files == if built.Some? then Persisted(old(dir.value.files), metaCodec, built.value, budget)
                                   else old(dir.value.files)
    {
      match codec.encode(image.fsm)
      case None =>
        built := None;
      case Some(data) =>
        var id := match image.lastApplied case None => 0 case Some(logId) => logId.index;
        built := Some(Snapshot(SnapshotMeta(image.lastApplied, image.lastMembership, id), data));
        Persist(dir, metaCodec, built.value, budget);
        slot.current := built;
    }
  }

  /** What opening a store finds on the disk: nothing, a snapshot, or files it cannot read. */
  function OnDisk(codec: Codec<FsmState>, metaCodec: Codec<SnapshotMeta>, files: Directory): Option<Option<Snapshot>> {
    match ReadPair(files)
    case None => Some(None)
    case Some((data, bytes)) =>
      match metaCodec.decode(bytes)
      case None => None
      case Some(meta) => if codec.decode(data).Some? then Some(Some(Snapshot(meta, data))) else None
  }

  /** Open a store on a directory; files that cannot be read are an error. */
  method OpenStore(codec: Codec<FsmState>, metaCodec: Codec<SnapshotMeta>, dir: SnapshotDir)
    returns (store: Option<StateMachineStore>)
    ensures store.Some? <==> OnDisk(codec, metaCodec, dir.files).Some?
    ensures store.Some? ==>
              && fresh(store.value) && fresh(store.value.slot)
              && store.value.slot.current == OnDisk(codec, metaCodec, dir.files).value
              && (store.value.slot.current.None? ==> store.value.View() == EmptyImage())
              && (store.value.slot.current.Some? ==>
                    LoadSnapshot(codec, store.value.slot.current.value) == Some(store.value.View()))
  {
    store := None;
    var found := dir.ReadSnapshot();
    if found.None? {
      var empty := new StateMachineStore(codec, metaCodec, Some(dir));
      store := Some(empty);
    } else {
      var meta, fsm := metaCodec.decode(found.value.1), codec.decode(found.value.0);
      if meta.Some? && fsm.Some? {
        var reopened :=
          new StateMachineStore.FromSnapshot(codec, metaCodec, dir, fsm.value, Snapshot(meta.value, found.value.0));
        store := Some(reopened);
      }
    }
  }

  /** A snapshot whose write is not cut off and not overtaken is what a store opened later starts from. */
  lemma ReopenRoundTrip(
    codec: Codec<FsmState>, metaCodec: Codec<SnapshotMeta>, files: Directory, image: Image, snapshot: Snapshot)
    requires Lawful(codec) && Lawful(metaCodec)
    requires TakeSnapshot(codec, image) == Some(snapshot) && metaCodec.encode(snapshot.meta).Some?
    ensures OnDisk(codec, metaCodec, Persisted(files, metaCodec, snapshot, 6)) == Some(Some(snapshot))
    ensures LoadSnapshot(codec, snapshot) == Some(image)
  {
    var meta := metaCodec.encode(snapshot.meta).value;
    WrittenIsRead(files, snapshot.data, meta);
    assert WriteSnapshotOps(snapshot.data, meta)[..6] == WriteSnapshotOps(snapshot.data, meta);
    var _ := codec.encode(image.fsm);
  }

  // ----- What a batch means -----

  /** The commands among the entries, in order. */
  function Commands(entries: seq<Entry>): seq<Command> {
    if entries == [] then []
    else
      var n := |entries| - 1;
      Commands(entries[..n]) + if entries[n].payload.Normal? then [entries[n].payload.command] else []
  }

  /** The entry is the last one that changes the membership. */
  ghost predicate IsLastMembership(entries: seq<Entry>, k: nat) {
    && k < |entries| && entries[k].payload.Membership?
    && forall j | k < j < |entries| :: !entries[j].payload.Membership?
  }

  ghost predicate NoMembership(entries: seq<Entry>) {
    forall j | 0 <= j < |entries| :: !entries[j].payload.Membership?
  }

  /** The membership is the one of the last entry that changes it, under that entry's id, or else the former one. */
  ghost predicate MembershipIs(former: StoredMembership, entries: seq<Entry>, now: StoredMembership) {
    && (NoMembership(entries) ==> now == former)
    && forall k: nat | IsLastMembership(entries, k) ::
         now == StoredMembership(Some(entries[k].logId), entries[k].payload.members)
  }

  /** What was applied last is the last entry, if there is one. */
  predicate LastAppliedIs(former: Option<LogId>, entries: seq<Entry>, now: Option<LogId>) {
    now == if entries == [] then former else Some(entries[|entries| - 1].logId)
  }

  /** The commands of the entries, the last entry and the last membership make up the image. */
  ghost predicate IsOutcome(before: Image, entries: seq<Entry>, after: Image) {
    && after.fsm == Fsm.Replay(before.fsm, Commands(entries))
    && LastAppliedIs(before.lastApplied, entries, after.lastApplied)
    && MembershipIs(before.lastMembership, entries, after.lastMembership)
  }

  lemma MembershipStep(former: StoredMembership, entries: seq<Entry>, now: StoredMembership)
    requires entries != [] && MembershipIs(former, entries[..|entries| - 1], now)
    ensures var e := entries[|entries| - 1];
            MembershipIs(former, entries,
                         if e.payload.Membership? then StoredMembership(Some(e.logId), e.payload.members) else now)
  {
    var n := |entries| - 1;
    assert forall j | 0 <= j < n :: entries[..n][j] == entries[j];
    forall k: nat | IsLastMembership(entries, k) && k < n ensures IsLastMembership(entries[..n], k) {
    }
  }

  lemma ReplayStep(s: FsmState, commands: seq<Command>, c: Command)
    ensures Fsm.Replay(s, commands + [c]) == Fsm.Apply(Fsm.Replay(s, commands), c).0
  {
    assert (commands + [c])[..|commands|] == commands;
  }

  lemma CommandsStep(s: FsmState, entries: seq<Entry>, now: FsmState)
    requires entries != [] && now == Fsm.Replay(s, Commands(entries[..|entries| - 1]))
    ensures var e := entries[|entries| - 1];
            Fsm.Replay(s, Commands(entries)) == if e.payload.Normal? then Fsm.Apply(now, e.payload.command).0 else now
  {
    var n := |entries| - 1;
    if entries[n].payload.Normal? {
      ReplayStep(s, Commands(entries[..n]), entries[n].payload.command);
    } else {
      assert Commands(entries) == Commands(entries[..n]) + [] == Commands(entries[..n]);
    }
  }

  lemma OutcomeStep(before: Image, entries: seq<Entry>, now: Image)
    requires entries != [] && IsOutcome(before, entries[..|entries| - 1], now)
    ensures IsOutcome(before, entries, ApplyEntry(now, entries[|entries| - 1]))
  {
    CommandsStep(before.fsm, entries, now.fsm);
    MembershipStep(before.lastMembership, entries, now.lastMembership);
  }

  /** Whatever is applied: the state is the replay of the commands, the rest is that of the last entries. */
  lemma {:induction false} AppliedIsOutcome(image: Image, entries: seq<Entry>)
    ensures IsOutcome(image, entries, ApplyEntries(image, entries))
    decreases |entries|
  {
    if entries == [] {
      assert Commands(entries) == [];
    } else {
      AppliedIsOutcome(image, entries[..|entries| - 1]);
      OutcomeStep(image, entries, ApplyEntries(image, entries[..|entries| - 1]));
    }
  }

  /** Each response is the one to its command in the state that the commands before it lead to. */
  ghost predicate ResponsesAre(s: FsmState, entries: seq<Entry>, responses: seq<Response>) {
    && |responses| == |entries|
    && forall i | 0 <= i < |entries| :: ResponseIs(Fsm.Replay(s, Commands(entries[..i])), entries[i], responses[i])
  }

  predicate ResponseIs(s: FsmState, e: Entry, response: Response) {
    response == if e.payload.Normal? then Fsm.Apply(s, e.payload.command).1 else Accepted
  }

  lemma ResponsesGrow(s: FsmState, entries: seq<Entry>, responses: seq<Response>, response: Response)
    requires entries != [] && ResponsesAre(s, entries[..|entries| - 1], responses)
    requires ResponseIs(Fsm.Replay(s, Commands(entries[..|entries| - 1])), entries[|entries| - 1], response)
    ensures ResponsesAre(s, entries, responses + [response])
  {
    var n, all := |entries| - 1, responses + [response];
    forall i | 0 <= i < |entries| ensures ResponseIs(Fsm.Replay(s, Commands(entries[..i])), entries[i], all[i]) {
      if i < n {
        assert entries[..n][..i] == entries[..i];
        assert ResponseIs(Fsm.Replay(s, Commands(entries[..n][..i])), entries[..n][i], responses[i]);
      }
    }
  }

  lemma {:induction false} ApplyEntriesConcat(image: Image, a: seq<Entry>, b: seq<Entry>)
    ensures ApplyEntries(image, a + b) == ApplyEntries(ApplyEntries(image, a), b)
    decreases |b|
  {
    if b == [] {
      assert a + b == a;
    } else {
      assert (a + b)[..|a + b| - 1] == a + b[..|b| - 1];
      ApplyEntriesConcat(image, a, b[..|b| - 1]);
    }
  }
}
