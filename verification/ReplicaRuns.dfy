/**
 Two runs in which a follower takes a snapshot of its own while it installs the leader's: one leaves
 its slot behind its log, the other its two files on disk at different positions.
 */
module ReplicaRuns {
  import opened Types
  import opened LogStore
  import opened StateStore
  import opened Replication
  import opened Rebuilding

  ghost predicate RunsTo(codec: Codec<FsmState>, steps: seq<Step>, sys: System) {
    exists states :: IsRun(codec, states, steps) && states[|steps|] == sys
  }

  lemma RunExtends(codec: Codec<FsmState>, steps: seq<Step>, sys: System, step: Step)
    requires RunsTo(codec, steps, sys) && Enabled(codec, sys, step)
    ensures RunsTo(codec, steps + [step], After(codec, sys, step))
  {
    var states :| IsRun(codec, states, steps) && states[|steps|] == sys;
    assert IsRun(codec, states + [After(codec, sys, step)], steps + [step]);
  }

  function SetSecret(): Entry {
    Entry(LogId(1, 0), Normal(SecretSet("token", EncryptedSecret([1], [2]))))
  }

  /** The state after the one entry. */
  function WithSecret(): Image {
    ApplyEntry(EmptyImage(), SetSecret())
  }

  ghost predicate CanEncode(codec: Codec<FsmState>) {
    Lawful(codec) && codec.encode(InitialState()).Some? && codec.encode(WithSecret().fsm).Some?
  }

  function Older(codec: Codec<FsmState>): Snapshot
    requires CanEncode(codec)
  {
    TakeSnapshot(codec, EmptyImage()).value
  }

  function Newer(codec: Codec<FsmState>): Snapshot
    requires CanEncode(codec)
  {
    TakeSnapshot(codec, WithSecret()).value
  }

  lemma Snapshots(codec: Codec<FsmState>)
    requires CanEncode(codec)
    ensures LoadSnapshot(codec, Newer(codec)) == Some(WithSecret()) && LoadSnapshot(codec, Older(codec)) == Some(EmptyImage())
    ensures Position(Some(Older(codec))) == 0 && Position(Some(Newer(codec))) == 1
    ensures "token" in WithSecret().fsm.secrets && "token" !in InitialState().secrets
  {
    var _, _ := codec.encode(InitialState()), codec.encode(WithSecret().fsm);
  }

  function Two(leader: Replica, follower: Replica): System {
    System([SetSecret()], map[1 := leader, 2 := follower])
  }

  lemma LeaderStep(codec: Codec<FsmState>, steps: seq<Step>, leader: Replica, follower: Replica, step: Step)
    requires RunsTo(codec, steps, Two(leader, follower)) && !step.Commit? && !step.Join? && step.node == 1
    requires LocallyEnabled(codec, Two(leader, follower), step, leader)
    ensures RunsTo(codec, steps + [step], Two(ReplicaAfter(codec, Two(leader, follower), step), follower))
  {
    var sys := Two(leader, follower);
    RunExtends(codec, steps, sys, step);
    var r := ReplicaAfter(codec, sys, step);
    assert map[1 := leader, 2 := follower][1 := r] == map[1 := r, 2 := follower];
  }

  lemma FollowerStep(codec: Codec<FsmState>, steps: seq<Step>, leader: Replica, follower: Replica, step: Step)
    requires RunsTo(codec, steps, Two(leader, follower)) && !step.Commit? && !step.Join? && step.node == 2
    requires LocallyEnabled(codec, Two(leader, follower), step, follower)
    ensures RunsTo(codec, steps + [step], Two(leader, ReplicaAfter(codec, Two(leader, follower), step)))
  {
    var sys := Two(leader, follower);
    RunExtends(codec, steps, sys, step);
    var r := ReplicaAfter(codec, sys, step);
    assert map[1 := leader, 2 := follower][2 := r] == map[1 := leader, 2 := r];
  }

  /** Two empty replicas, and one entry is committed. */
  lemma Joined(codec: Codec<FsmState>) returns (steps: seq<Step>)
    ensures RunsTo(codec, steps, Two(NewReplica(), NewReplica()))
  {
    var none: System := System([], map[]);
    assert IsRun(codec, [none], []);
    RunExtends(codec, [], none, Join(1));
    assert map[][1 := NewReplica()] == map[1 := NewReplica()];
    RunExtends(codec, [] + [Join(1)], System([], map[1 := NewReplica()]), Join(2));
    assert map[1 := NewReplica()][2 := NewReplica()] == map[1 := NewReplica(), 2 := NewReplica()];
    var two := System([], map[1 := NewReplica(), 2 := NewReplica()]);
    RunExtends(codec, [] + [Join(1)] + [Join(2)], two, Commit(SetSecret()));
    steps := [] + [Join(1)] + [Join(2)] + [Commit(SetSecret())];
  }

  /** The entry reaches the leader's log. */
  lemma LeaderReceives(codec: Codec<FsmState>) returns (steps: seq<Step>, leader: Replica)
    ensures RunsTo(codec, steps, Two(leader, NewReplica())) && leader == NewReplica().(log := map[0 := SetSecret()])
  {
    var e := SetSecret();
    steps := Joined(codec);
    LeaderStep(codec, steps, NewReplica(), NewReplica(), Replicate(1, [e]));
    assert Appended(map[], [e]) == map[0 := e] by { assert Appended(map[], [e][..0]) == map[]; }
    steps, leader := steps + [Replicate(1, [e])], NewReplica().(log := map[0 := e]);
  }

  /** The leader applies it. */
  lemma LeaderApplies(codec: Codec<FsmState>) returns (steps: seq<Step>, leader: Replica)
    ensures RunsTo(codec, steps, Two(leader, NewReplica()))
    ensures leader == NewReplica().(image := WithSecret(), log := map[0 := SetSecret()])
  {
    steps, leader := LeaderReceives(codec);
    OneIsApplied(codec, leader);
    LeaderStep(codec, steps, leader, NewReplica(), ApplyNext(1, 1));
    steps, leader := steps + [ApplyNext(1, 1)], leader.(image := WithSecret());
  }

  lemma OneIsApplied(codec: Codec<FsmState>, leader: Replica)
    requires leader == NewReplica().(log := map[0 := SetSecret()])
    ensures LocallyEnabled(codec, Two(leader, NewReplica()), ApplyNext(1, 1), leader)
    ensures Advanced(leader, 1) == leader.(image := WithSecret())
  {
    assert Holds(leader.log, [SetSecret()], 0, 1);
    RangeIsContiguous(leader.log, [SetSecret()], 0, 1);
    assert [SetSecret()][0..1] == [SetSecret()];
    OneEntry();
  }

  lemma OneEntry()
    ensures ApplyEntries(EmptyImage(), [SetSecret()]) == WithSecret()
  {
    assert [SetSecret()][..0] == [];
  }

  /** The leader writes a snapshot of its state. */
  lemma LeaderWrites(codec: Codec<FsmState>) returns (steps: seq<Step>, leader: Replica)
    requires CanEncode(codec)
    ensures RunsTo(codec, steps, Two(leader, NewReplica()))
    ensures leader.publishing == [Newer(codec)] && leader.writing == [] && leader.naming == []
  {
    var newer := Newer(codec);
    steps, leader := LeaderApplies(codec);
    LeaderStep(codec, steps, leader, NewReplica(), Capture(1));
    steps, leader := steps + [Capture(1)], leader.(builders := leader.builders + [leader.image]);
    LeaderStep(codec, steps, leader, NewReplica(), Build(1, 0));
    steps, leader := steps + [Build(1, 0)], Built(codec, leader, 0);
    assert leader.publishing == [newer] && leader.writing == [newer];
    LeaderStep(codec, steps, leader, NewReplica(), PersistData(1, 0));
    assert Without([newer], 0) == [] && [] + [newer] == [newer];
    steps := steps + [PersistData(1, 0)];
    leader := leader.(disk := leader.disk.(data := Some(newer)), writing := [], naming := [newer]);
    LeaderStep(codec, steps, leader, NewReplica(), PersistMeta(1, 0));
    steps, leader := steps + [PersistMeta(1, 0)], leader.(disk := leader.disk.(meta := Some(newer)), naming := []);
  }

  /** And then publishes it. */
  lemma LeaderPublishes(codec: Codec<FsmState>) returns (steps: seq<Step>, leader: Replica)
    requires CanEncode(codec)
    ensures RunsTo(codec, steps, Two(leader, NewReplica())) && leader.slot == Some(Newer(codec))
  {
    steps, leader := LeaderWrites(codec);
    LeaderStep(codec, steps, leader, NewReplica(), Publish(1, 0));
    steps := steps + [Publish(1, 0)];
    leader := leader.(slot := Some(leader.publishing[0]), publishing := Without(leader.publishing, 0));
  }

  /** The follower has begun a snapshot of its empty state when it installs the leader's. */
  lemma FollowerInstalls(codec: Codec<FsmState>) returns (steps: seq<Step>, leader: Replica, follower: Replica)
    requires CanEncode(codec)
    ensures RunsTo(codec, steps, Two(leader, follower))
    ensures follower == NewReplica().(image := WithSecret(), base := 1, slot := Some(Newer(codec)),
                                      builders := [EmptyImage()], writing := [Newer(codec)])
  {
    steps, leader := LeaderPublishes(codec);
    follower := NewReplica();
    Snapshots(codec);
    FollowerStep(codec, steps, leader, follower, Capture(2));
    assert [] + [EmptyImage()] == [EmptyImage()];
    steps, follower := steps + [Capture(2)], follower.(builders := [EmptyImage()]);
    FollowerStep(codec, steps, leader, follower, Install(2, 1));
    steps, follower := steps + [Install(2, 1)], Installed(codec, follower, Newer(codec));
    assert [] + [Newer(codec)] == [Newer(codec)] && follower.log == map[];
  }

  /** The follower writes its own snapshot, which it has yet to publish. */
  lemma FollowerWritesOwn(codec: Codec<FsmState>) returns (steps: seq<Step>, leader: Replica, r: Replica)
    requires CanEncode(codec)
    ensures RunsTo(codec, steps, Two(leader, r))
    ensures r.publishing == [Older(codec)] && r.writing == [Newer(codec)] && r.naming == []
    ensures r.image == WithSecret() && r.base == 1 && r.log == map[]
    ensures r.disk == Disk(Some(Older(codec)), Some(Older(codec)))
  {
    var newer, older := Newer(codec), Older(codec);
    steps, leader, r := FollowerInstalls(codec);
    FollowerStep(codec, steps, leader, r, Build(2, 0));
    steps, r := steps + [Build(2, 0)], Built(codec, r, 0);
    assert r.publishing == [older] && r.writing == [newer, older];
    FollowerStep(codec, steps, leader, r, PersistData(2, 1));
    assert Without([newer, older], 1) == [newer] && [] + [older] == [older];
    steps, r := steps + [PersistData(2, 1)], r.(disk := Disk(Some(older), None), writing := [newer], naming := [older]);
    FollowerStep(codec, steps, leader, r, PersistMeta(2, 0));
    assert Without([older], 0) == [];
    steps, r := steps + [PersistMeta(2, 0)], r.(disk := Disk(Some(older), Some(older)), naming := []);
  }

  /**
   The slot can fall behind the log: when the follower's own snapshot, once written, is published
   last, slot and log no longer rebuild its state.
   */
  lemma SlotCanRegress(codec: Codec<FsmState>) returns (steps: seq<Step>, leader: Replica, r: Replica)
    requires CanEncode(codec)
    ensures RunsTo(codec, steps, Two(leader, r))
    ensures Position(r.slot) < r.base && Position(r.slot) <= Applied(r.image.lastApplied)
    ensures Rebuild(codec, r.slot, r.log, Applied(r.image.lastApplied)) != Some(r.image)
  {
    steps, leader, r := FollowerWritesOwn(codec);
    Snapshots(codec);
    FollowerStep(codec, steps, leader, r, Publish(2, 0));
    steps, r := steps + [Publish(2, 0)], r.(slot := Some(r.publishing[0]), publishing := Without(r.publishing, 0));
    assert Range(r.log, 0, 1) == [];
  }

  /** The follower writes the data of both snapshots, its own last. */
  lemma FollowerWrites(codec: Codec<FsmState>) returns (steps: seq<Step>, leader: Replica, r: Replica)
    requires CanEncode(codec)
    ensures RunsTo(codec, steps, Two(leader, r))
    ensures r.writing == [] && r.naming == [Newer(codec), Older(codec)] && r.disk == Disk(Some(Older(codec)), None)
  {
    var newer, older := Newer(codec), Older(codec);
    steps, leader, r := FollowerInstalls(codec);
    FollowerStep(codec, steps, leader, r, PersistData(2, 0));
    assert Without([newer], 0) == [] && [] + [newer] == [newer];
    steps, r := steps + [PersistData(2, 0)], r.(disk := Disk(Some(newer), None), writing := [], naming := [newer]);
    FollowerStep(codec, steps, leader, r, Build(2, 0));
    steps, r := steps + [Build(2, 0)], Built(codec, r, 0);
    assert r.writing == [older];
    FollowerStep(codec, steps, leader, r, PersistData(2, 0));
    assert Without([older], 0) == [] && [newer] + [older] == [newer, older];
    steps, r := steps + [PersistData(2, 0)], r.(disk := Disk(Some(older), None), writing := [], naming := [newer, older]);
  }

  /**
   With two writers at once the files can disagree without any crash in between: the data is the
   follower's own, the metadata the leader's, and a restart loads a state that is no replay.
   */
  lemma FilesCanDisagree(codec: Codec<FsmState>) returns (steps: seq<Step>, leader: Replica, r: Replica)
    requires CanEncode(codec)
    ensures RunsTo(codec, steps, Two(leader, r))
    ensures r.writing == [] && r.naming == [] && Position(r.disk.data) < Position(r.disk.meta)
    ensures Enabled(codec, Two(leader, r), Restart(2)) && !IsReplay([SetSecret()], Restarted(codec, r).image)
  {
    var newer, older := Newer(codec), Older(codec);
    steps, leader, r := FollowerWrites(codec);
    FollowerStep(codec, steps, leader, r, PersistMeta(2, 1));
    assert Without([newer, older], 1) == [newer];
    steps, r := steps + [PersistMeta(2, 1)], r.(disk := Disk(Some(older), Some(older)), naming := [newer]);
    FollowerStep(codec, steps, leader, r, PersistMeta(2, 0));
    assert Without([newer], 0) == [];
    steps, r := steps + [PersistMeta(2, 0)], r.(disk := Disk(Some(older), Some(newer)), naming := []);
    Snapshots(codec);
    OneEntry();
    assert [SetSecret()][..1] == [SetSecret()];
  }
}
