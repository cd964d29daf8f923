/** Runs of watchdog ticks: how far apart the restart rounds of a service are, and how much they start. */
module Restarts {
  import opened Types
  import opened Watchdog

  /** A tick of phase 2: the state it reads and the services whose backoff phase 1 has just reset. */
  datatype Tick = Tick(fsm: FsmState, reset: set<string>, now: Time)

  function After(backoff: map<string, RestartState>, t: Tick): map<string, RestartState> {
    Restarted(t.fsm, backoff - t.reset, t.now)
  }

  /** `backoffs[k]` is the backoff state before tick `k`; time does not go back. */
  ghost predicate IsRun(backoffs: seq<map<string, RestartState>>, ticks: seq<Tick>) {
    && |backoffs| == |ticks| + 1
    && (forall k | 0 <= k < |ticks| :: Ticks(backoffs, ticks, k))
    && (forall j, k | 0 <= j <= k < |ticks| :: ticks[j].now <= ticks[k].now)
  }

  ghost predicate Ticks(backoffs: seq<map<string, RestartState>>, ticks: seq<Tick>, k: nat)
    requires k < |ticks| == |backoffs| - 1
  {
    backoffs[k + 1] == After(backoffs[k], ticks[k])
  }

  /** How many replicas of the service the tick starts. */
  function Started(backoff: map<string, RestartState>, t: Tick, name: string): nat {
    if name in ServicesOf(t.fsm.config) then ServiceTick(t.fsm, Lookup(backoff - t.reset, name), name, t.now).1 else 0
  }

  /** What each tick starts of the service. */
  ghost predicate AreStarts(backoffs: seq<map<string, RestartState>>, ticks: seq<Tick>, name: string, starts: seq<nat>) {
    && |starts| == |ticks| == |backoffs| - 1
    && forall k | 0 <= k < |ticks| :: Starts(backoffs, ticks, name, starts, k)
  }

  ghost predicate Starts(
    backoffs: seq<map<string, RestartState>>, ticks: seq<Tick>, name: string, starts: seq<nat>, k: nat)
    requires k < |starts| == |ticks| == |backoffs| - 1
  {
    starts[k] == Started(backoffs[k], ticks[k], name)
  }

  /** The restart rounds in ticks `i` up to but not including `j`. */
  ghost function Rounds(starts: seq<nat>, i: nat, j: nat): nat
    requires i <= j <= |starts|
  {
    if i == j then 0 else Rounds(starts, i, j - 1) + if starts[j - 1] > 0 then 1 else 0
  }

  /** When the last of these rounds was, or else tick `i`. */
  ghost function LastRound(ticks: seq<Tick>, starts: seq<nat>, i: nat, j: nat): Time
    requires i < j <= |starts| <= |ticks|
  {
    if starts[j - 1] > 0 || i == j - 1 then ticks[j - 1].now else LastRound(ticks, starts, i, j - 1)
  }

  function BackoffSum(rounds: nat): nat {
    if rounds == 0 then 0 else BackoffSum(rounds - 1) + Backoff(rounds - 1)
  }

  /** The service is first seen under-replicated by tick `i` and its backoff is not reset before tick `j`. */
  ghost predicate Unreset(backoffs: seq<map<string, RestartState>>, ticks: seq<Tick>, name: string, i: nat, j: nat)
    requires i < j <= |ticks| < |backoffs|
  {
    && name !in backoffs[i]
    && (forall k | i < k < j :: name !in ticks[k].reset)
    && (forall k | i < k <= j :: name in backoffs[k])
  }

  /** What a tick does to the state it keeps: create it, leave it, or count a round after the delay. */
  lemma StateAfter(backoff: map<string, RestartState>, t: Tick, name: string)
    requires name in After(backoff, t)
    ensures name !in backoff - t.reset ==> After(backoff, t)[name] == RestartState(0, t.now) && Started(backoff, t, name) == 0
    ensures name in backoff && name !in t.reset ==>
              if Started(backoff, t, name) > 0
              then After(backoff, t)[name] == RestartState(backoff[name].attempts + 1, t.now)
                   && Elapsed(backoff[name].lastAttemptAt, t.now) >= Backoff(backoff[name].attempts)
              else After(backoff, t)[name] == backoff[name]
  {
  }

  lemma BackoffSumStep(rounds: nat)
    ensures BackoffSum(rounds + 1) == BackoffSum(rounds) + Backoff(rounds) && BackoffSum(0) == 0
  {
  }

  /** What the stored state says after so many rounds, the last of them at `last`, since `first`. */
  ghost predicate IsHistory(state: RestartState, rounds: nat, last: Time, first: Time, now: Time) {
    state == RestartState(rounds, last) && first + BackoffSum(rounds) <= last <= now
  }

  /** One tick: either a round is counted, after its delay, or nothing changes. */
  lemma HistoryStep(backoff: map<string, RestartState>, t: Tick, name: string, rounds: nat, last: Time, first: Time)
    requires name in After(backoff, t) && name in backoff && name !in t.reset
    requires IsHistory(backoff[name], rounds, last, first, t.now)
    ensures if Started(backoff, t, name) > 0 then IsHistory(After(backoff, t)[name], rounds + 1, t.now, first, t.now)
            else IsHistory(After(backoff, t)[name], rounds, last, first, t.now)
  {
    StateAfter(backoff, t, name);
    BackoffSumStep(rounds);
  }

  /**
   The stored state is the history: the attempts are the rounds since the service was first seen
   under-replicated, and the last of them came no earlier than the sum of the delays before them.
   */
  lemma {:induction false} BackoffIsHistory(
    backoffs: seq<map<string, RestartState>>, ticks: seq<Tick>, starts: seq<nat>, name: string, i: nat, j: nat)
    requires IsRun(backoffs, ticks) && AreStarts(backoffs, ticks, name, starts)
    requires i < j <= |ticks| && Unreset(backoffs, ticks, name, i, j)
    ensures IsHistory(
              backoffs[j][name], Rounds(starts, i, j), LastRound(ticks, starts, i, j), ticks[i].now, ticks[j - 1].now)
    decreases j
  {
    if i == j - 1 {
      FirstSight(backoffs, ticks, starts, name, i);
    } else {
      UnresetBefore(backoffs, ticks, name, i, j);
      BackoffIsHistory(backoffs, ticks, starts, name, i, j - 1);
      HistoryOn(backoffs, ticks, starts, name, i, j);
    }
  }

  lemma FirstSight(backoffs: seq<map<string, RestartState>>, ticks: seq<Tick>, starts: seq<nat>, name: string, i: nat)
    requires IsRun(backoffs, ticks) && AreStarts(backoffs, ticks, name, starts)
    requires i < |ticks| && Unreset(backoffs, ticks, name, i, i + 1)
    ensures IsHistory(
              backoffs[i + 1][name], Rounds(starts, i, i + 1), LastRound(ticks, starts, i, i + 1), ticks[i].now, ticks[i].now)
  {
    assert Ticks(backoffs, ticks, i) && Starts(backoffs, ticks, name, starts, i) && name in backoffs[i + 1];
    StateAfter(backoffs[i], ticks[i], name);
    BackoffSumStep(0);
  }

  lemma UnresetBefore(backoffs: seq<map<string, RestartState>>, ticks: seq<Tick>, name: string, i: nat, j: nat)
    requires IsRun(backoffs, ticks) && i + 1 < j <= |ticks| && Unreset(backoffs, ticks, name, i, j)
    ensures Unreset(backoffs, ticks, name, i, j - 1) && name in backoffs[j - 1] && name !in ticks[j - 1].reset
    ensures ticks[j - 2].now <= ticks[j - 1].now
  {
  }

  /** The history up to a tick, and that tick. */
  lemma HistoryOn(
    backoffs: seq<map<string, RestartState>>, ticks: seq<Tick>, starts: seq<nat>, name: string, i: nat, j: nat)
    requires IsRun(backoffs, ticks) && AreStarts(backoffs, ticks, name, starts) && i + 1 < j <= |ticks|
    requires name in backoffs[j - 1] && name in backoffs[j] && name !in ticks[j - 1].reset
    requires ticks[j - 2].now <= ticks[j - 1].now
    requires IsHistory(backoffs[j - 1][name], Rounds(starts, i, j - 1), LastRound(ticks, starts, i, j - 1), ticks[i].now,
                       ticks[j - 2].now)
    ensures IsHistory(
              backoffs[j][name], Rounds(starts, i, j), LastRound(ticks, starts, i, j), ticks[i].now, ticks[j - 1].now)
  {
    assert Ticks(backoffs, ticks, j - 1) && Starts(backoffs, ticks, name, starts, j - 1);
    HistoryStep(backoffs[j - 1], ticks[j - 1], name, Rounds(starts, i, j - 1), LastRound(ticks, starts, i, j - 1),
                ticks[i].now);
  }

  /** With the state at hand, a round starts exactly when there is room for one and the delay is over. */
  lemma RoundIff(
    backoffs: seq<map<string, RestartState>>, ticks: seq<Tick>, starts: seq<nat>, name: string, i: nat, j: nat)
    requires IsRun(backoffs, ticks) && AreStarts(backoffs, ticks, name, starts)
    requires i < j < |ticks| && Unreset(backoffs, ticks, name, i, j)
    requires name !in ticks[j].reset && name in ServicesOf(ticks[j].fsm.config)
    ensures var t, replicas := ticks[j], ServicesOf(ticks[j].fsm.config)[name].replicas;
            starts[j] > 0 <==>
            && |ActiveIds(t.fsm.allocs, name)| < replicas
            && |NonTerminalIds(t.fsm.allocs, name)| < replicas
            && t.now >= LastRound(ticks, starts, i, j) + Backoff(Rounds(starts, i, j))
  {
    BackoffIsHistory(backoffs, ticks, starts, name, i, j);
    assert Starts(backoffs, ticks, name, starts, j) && ticks[j - 1].now <= ticks[j].now;
    StartsIff(backoffs[j], ticks[j], name, Rounds(starts, i, j), LastRound(ticks, starts, i, j));
  }

  lemma StartsIff(backoff: map<string, RestartState>, t: Tick, name: string, rounds: nat, last: Time)
    requires name in backoff && name !in t.reset && name in ServicesOf(t.fsm.config)
    requires backoff[name] == RestartState(rounds, last) && last <= t.now
    ensures var replicas := ServicesOf(t.fsm.config)[name].replicas;
            Started(backoff, t, name) > 0 <==>
            && |ActiveIds(t.fsm.allocs, name)| < replicas
            && |NonTerminalIds(t.fsm.allocs, name)| < replicas
            && t.now >= last + Backoff(rounds)
  {
    assert Lookup(backoff - t.reset, name) == Some(backoff[name]);
  }

  /** The k-th round comes at least the sum of the first k delays after the first sighting. */
  lemma RoundsAreSpaced(
    backoffs: seq<map<string, RestartState>>, ticks: seq<Tick>, starts: seq<nat>, name: string, i: nat, j: nat)
    requires IsRun(backoffs, ticks) && AreStarts(backoffs, ticks, name, starts)
    requires i < j < |ticks| && Unreset(backoffs, ticks, name, i, j)
    requires name !in ticks[j].reset && starts[j] > 0
    ensures ticks[j].now >= ticks[i].now + BackoffSum(Rounds(starts, i, j + 1))
  {
    BackoffIsHistory(backoffs, ticks, starts, name, i, j);
    assert Starts(backoffs, ticks, name, starts, j);
    RoundIff(backoffs, ticks, starts, name, i, j);
    BackoffSumStep(Rounds(starts, i, j));
  }

  /** Every active allocation is non-terminal, so no more of them are counted. */
  lemma ActiveAtMostNonTerminal(allocs: map<AllocId, Alloc>, name: string)
    ensures |ActiveIds(allocs, name)| <= |NonTerminalIds(allocs, name)|
  {
    SubsetIsSmaller(ActiveIds(allocs, name), NonTerminalIds(allocs, name));
  }

  lemma {:induction false} SubsetIsSmaller<T>(a: set<T>, b: set<T>)
    requires a <= b
    ensures |a| <= |b|
  {
    if a != {} {
      var x :| x in a;
      SubsetIsSmaller(a - {x}, b - {x});
    }
  }

  /**
   A round starts what is missing, never while enough allocations are under way, and never so
   many that more than `2 * replicas - 1` could be running; that many is possible.
   */
  lemma RoundIsBounded(backoff: map<string, RestartState>, t: Tick, name: string)
    requires name in ServicesOf(t.fsm.config)
    ensures var replicas, started := ServicesOf(t.fsm.config)[name].replicas, Started(backoff, t, name);
            var running := |NonTerminalIds(t.fsm.allocs, name)|;
            && (running >= replicas ==> started == 0)
            && (started > 0 ==> started + |ActiveIds(t.fsm.allocs, name)| == replicas)
            && (started > 0 ==> running + started <= 2 * replicas - 1)
  {
    ActiveAtMostNonTerminal(t.fsm.allocs, name);
  }

  /** The bound is met by `replicas - 1` allocations still starting. */
  lemma BoundIsTight(replicas: nat)
    requires replicas > 0
    ensures RestartTick(Some(RestartState(0, 0)), 0, replicas - 1, replicas, SECOND).1 + (replicas - 1)
            == 2 * replicas - 1
  {
  }

  /**
   A tick keeps a backoff state exactly for the configured services that lack active replicas and either
   had one that was not reset, or have too few allocations under way as well.
   */
  lemma KeepsStateIff(backoff: map<string, RestartState>, t: Tick, name: string)
    ensures name in After(backoff, t) <==>
            && name in ServicesOf(t.fsm.config)
            && var replicas := ServicesOf(t.fsm.config)[name].replicas;
            && |ActiveIds(t.fsm.allocs, name)| < replicas
            && ((name in backoff && name !in t.reset) || |NonTerminalIds(t.fsm.allocs, name)| < replicas)
  {
  }

  /** The delays add up to 1, 6 and 36 seconds, and then to a minute more for every round. */
  lemma {:induction false} DelaysInSeconds(rounds: nat)
    ensures BackoffSum(rounds) == (match rounds
                                   case 0 => 0
                                   case 1 => 1_000_000_000
                                   case 2 => 6_000_000_000
                                   case _ => (36 + 60 * (rounds - 3)) * 1_000_000_000)
  {
    if rounds > 0 {
      DelaysInSeconds(rounds - 1);
    }
  }

  // ----- Several rounds -----

  /** How much the ticks `i` up to but not including `j` start. */
  ghost function Dispatched(starts: seq<nat>, i: nat, j: nat): nat
    requires i <= j <= |starts|
  {
    if i == j then 0 else Dispatched(starts, i, j - 1) + starts[j - 1]
  }

  /** No tick sees more than `most` replicas configured. */
  ghost predicate ReplicasAtMost(ticks: seq<Tick>, name: string, most: nat) {
    forall t | t in ticks && name in ServicesOf(t.fsm.config) :: ServicesOf(t.fsm.config)[name].replicas <= most
  }

  lemma StartedAtMost(backoff: map<string, RestartState>, t: Tick, name: string, most: nat)
    requires name in ServicesOf(t.fsm.config) ==> ServicesOf(t.fsm.config)[name].replicas <= most
    ensures Started(backoff, t, name) <= most
  {
  }

  lemma {:induction false} DispatchedPerRound(starts: seq<nat>, i: nat, j: nat, most: nat)
    requires i <= j <= |starts| && forall k | 0 <= k < |starts| :: starts[k] <= most
    ensures Dispatched(starts, i, j) <= most * Rounds(starts, i, j)
    decreases j
  {
    if i < j {
      DispatchedPerRound(starts, i, j - 1, most);
      assert most * (Rounds(starts, i, j - 1) + 1) == most * Rounds(starts, i, j - 1) + most;
    }
  }

  /**
   Over any number of ticks, as long as the backoff is not reset, at most `most` replicas are started
   for every delay that has passed since the service was first seen under-replicated, whatever of
   this has been recorded.
   */
  lemma StartsAreBounded(
    backoffs: seq<map<string, RestartState>>, ticks: seq<Tick>, starts: seq<nat>, name: string, i: nat, j: nat, most: nat)
    requires IsRun(backoffs, ticks) && AreStarts(backoffs, ticks, name, starts)
    requires i < j <= |ticks| && Unreset(backoffs, ticks, name, i, j) && ReplicasAtMost(ticks, name, most)
    ensures Dispatched(starts, i, j) <= most * Rounds(starts, i, j)
    ensures ticks[i].now + BackoffSum(Rounds(starts, i, j)) <= ticks[j - 1].now
  {
    BackoffIsHistory(backoffs, ticks, starts, name, i, j);
    forall k | 0 <= k < |starts| ensures starts[k] <= most {
      assert Starts(backoffs, ticks, name, starts, k) && ticks[k] in ticks;
      StartedAtMost(backoffs[k], ticks[k], name, most);
    }
    DispatchedPerRound(starts, i, j, most);
  }

  /** A service of which nothing runs, and nothing is recorded however often it is started. */
  function Unrecorded(replicas: nat): FsmState {
    InitialState().(config := Some(ClusterConfig(
      map["web" := ServiceDef("web", replicas, Resources(0.0, 0), map[], [], [])], map[])))
  }

  function SlowTicks(replicas: nat): seq<Tick> {
    var s := Unrecorded(replicas);
    [Tick(s, {}, 0), Tick(s, {}, SECOND), Tick(s, {}, 6 * SECOND)]
  }

  function SlowBackoffs(): seq<map<string, RestartState>> {
    [map[], map["web" := RestartState(0, 0)], map["web" := RestartState(1, SECOND)],
     map["web" := RestartState(2, 6 * SECOND)]]
  }

  /** The bound over rounds is met, and the one for a single round exceeded, if starts are slow to be recorded. */
  lemma SlowStartsAddUp(replicas: nat) returns (starts: seq<nat>)
    requires replicas > 0
    ensures IsRun(SlowBackoffs(), SlowTicks(replicas)) && AreStarts(SlowBackoffs(), SlowTicks(replicas), "web", starts)
    ensures Unreset(SlowBackoffs(), SlowTicks(replicas), "web", 0, 3)
    ensures ReplicasAtMost(SlowTicks(replicas), "web", replicas)
    ensures Rounds(starts, 0, 3) == 2 && Dispatched(starts, 0, 3) == 2 * replicas
  {
    starts := [0, replicas, replicas];
    SlowRun(replicas, starts);
    SumsOfThree(starts, replicas);
  }

  lemma SlowRun(replicas: nat, starts: seq<nat>)
    requires replicas > 0 && starts == [0, replicas, replicas]
    ensures IsRun(SlowBackoffs(), SlowTicks(replicas)) && AreStarts(SlowBackoffs(), SlowTicks(replicas), "web", starts)
  {
    var backoffs, ticks := SlowBackoffs(), SlowTicks(replicas);
    FirstSlowTick(replicas);
    LaterSlowTick(RestartState(0, 0), ticks[1], replicas);
    LaterSlowTick(RestartState(1, SECOND), ticks[2], replicas);
    ThreeTicks(backoffs, ticks, starts, "web");
  }

  lemma ThreeTicks(backoffs: seq<map<string, RestartState>>, ticks: seq<Tick>, starts: seq<nat>, name: string)
    requires |starts| == |ticks| == |backoffs| - 1 == 3 && ticks[0].now <= ticks[1].now <= ticks[2].now
    requires After(backoffs[0], ticks[0]) == backoffs[1] && starts[0] == Started(backoffs[0], ticks[0], name)
    requires After(backoffs[1], ticks[1]) == backoffs[2] && starts[1] == Started(backoffs[1], ticks[1], name)
    requires After(backoffs[2], ticks[2]) == backoffs[3] && starts[2] == Started(backoffs[2], ticks[2], name)
    ensures IsRun(backoffs, ticks) && AreStarts(backoffs, ticks, name, starts)
  {
    forall k | 0 <= k < 3 ensures Ticks(backoffs, ticks, k) && Starts(backoffs, ticks, name, starts, k) {
      assert k == 0 || k == 1 || k == 2;
    }
  }

  lemma SumsOfThree(starts: seq<nat>, replicas: nat)
    requires starts == [0, replicas, replicas] && replicas > 0
    ensures Rounds(starts, 0, 3) == 2 && Dispatched(starts, 0, 3) == 2 * replicas
  {
    assert Rounds(starts, 0, 1) == 0 && Dispatched(starts, 0, 1) == 0;
    assert Rounds(starts, 0, 2) == 1 && Dispatched(starts, 0, 2) == replicas;
  }

  lemma NothingRecorded(s: FsmState)
    requires s.allocs == map[]
    ensures ActiveIds(s.allocs, "web") == {} && NonTerminalIds(s.allocs, "web") == {}
  {
  }

  /** A tick that sees nothing running notes the time first. */
  lemma FirstSlowTick(replicas: nat)
    requires replicas > 0
    ensures var t := SlowTicks(replicas)[0];
            Started(map[], t, "web") == 0 && After(map[], t) == map["web" := RestartState(0, 0)]
  {
    var t := SlowTicks(replicas)[0];
    NothingRecorded(t.fsm);
    var none: map<string, RestartState> := map[];
    assert none - {} == none && ServicesOf(t.fsm.config).Keys == {"web"};
  }

  /** Later it starts everything when the delay is over. */
  lemma LaterSlowTick(r: RestartState, t: Tick, replicas: nat)
    requires replicas > 0 && t.fsm == Unrecorded(replicas) && t.reset == {}
    requires Elapsed(r.lastAttemptAt, t.now) >= Backoff(r.attempts)
    ensures Started(map["web" := r], t, "web") == replicas
    ensures After(map["web" := r], t) == map["web" := RestartState(r.attempts + 1, t.now)]
  {
    NothingRecorded(t.fsm);
    assert map["web" := r] - {} == map["web" := r] && ServicesOf(t.fsm.config).Keys == {"web"};
  }
}
