/** What the supervisor guarantees over whole runs of events: its failure count and health flag are
    determined by history, probes count exactly when they are later than every recovery, and a streak of
    failures escalates. */
module SupervisorRuns {
  import opened Common
  import opened Endpoints
  import opened Recovery
  import opened Supervisor

  type Run = seq<(Event, Env)>

  function Started(account: AccountFile, connected: WgConfig): State {
    State(0, None, false, account.credentials, connected, connected, 1, Some(account), None, [], 0)
  }

  /** The state before event `n` of the run, or after all of them. */
  function StateAt(c: Settings, s: State, run: Run, n: nat): State
    requires n <= |run|
  {
    if n == 0 then s else Handle(c, StateAt(c, s, run, n - 1), run[n - 1].0, run[n - 1].1)
  }

  predicate OkAt(c: Settings, s: State, run: Run, j: nat) requires j < |run| {
    FreshOk(StateAt(c, s, run, j), run[j].0)
  }

  predicate FailedAt(c: Settings, s: State, run: Run, j: nat) requires j < |run| {
    FreshFailure(StateAt(c, s, run, j), run[j].0)
  }

  predicate RecoveredAt(c: Settings, s: State, run: Run, j: nat) requires j < |run| {
    Recovers(c, StateAt(c, s, run, j), run[j].0, run[j].1)
  }

  /** The process clock is monotone: events are handled one after another. */
  predicate TimedRun(run: Run) {
    && (forall j :: 0 <= j < |run| ==> Ordered(run[j].1))
    && (forall i, j :: 0 <= i < j < |run| ==> run[i].1.completedAt <= run[j].1.checkedAt)
  }

  // ----- History determines the count and the flag

  predicate NoneBetween(c: Settings, s: State, run: Run, ok: bool, from: int, to: nat)
    requires -1 <= from && to <= |run|
  {
    forall m :: from < m < to ==> if ok then !OkAt(c, s, run, m) else !FailedAt(c, s, run, m)
  }

  /** The fresh failures among the first `n` events that no later fresh success has cleared. */
  function Uncleared(c: Settings, s: State, run: Run, n: nat): set<nat>
    requires n <= |run|
  {
    set j: nat | j < n && FailedAt(c, s, run, j) && NoneBetween(c, s, run, true, j, n)
  }

  lemma UnclearedStep(c: Settings, s: State, run: Run, n: nat)
    requires n < |run|
    ensures Uncleared(c, s, run, n + 1) ==
            if OkAt(c, s, run, n) then {}
            else if FailedAt(c, s, run, n) then Uncleared(c, s, run, n) + {n}
            else Uncleared(c, s, run, n)
  {
    forall j: nat | j < n
      ensures NoneBetween(c, s, run, true, j, n + 1) <==> NoneBetween(c, s, run, true, j, n) && !OkAt(c, s, run, n)
    {
    }
  }

  ghost predicate LastProbeOk(c: Settings, s: State, run: Run, n: nat)
    requires n <= |run|
  {
    exists j: nat :: j < n && OkAt(c, s, run, j) && NoneBetween(c, s, run, false, j, n)
  }

  lemma {:induction false} HistoryDeterminesCount(c: Settings, s: State, run: Run, n: nat)
    requires n <= |run| && s.failures == 0
    ensures StateAt(c, s, run, n).failures == Min(|Uncleared(c, s, run, n)|, 255)
    decreases n
  {
    if n == 0 {
      assert Uncleared(c, s, run, 0) == {};
    } else {
      HistoryDeterminesCount(c, s, run, n - 1);
      UnclearedStep(c, s, run, n - 1);
      HandleProbeState(c, StateAt(c, s, run, n - 1), run[n - 1].0, run[n - 1].1);
      assert n - 1 !in Uncleared(c, s, run, n - 1);
    }
  }

  lemma {:induction false} HistoryDeterminesFlag(c: Settings, s: State, run: Run, n: nat)
    requires n <= |run| && !s.healthy
    ensures StateAt(c, s, run, n).healthy <==> LastProbeOk(c, s, run, n)
    decreases n
  {
    if n > 0 {
      HistoryDeterminesFlag(c, s, run, n - 1);
      HealthyStep(c, s, run, n - 1);
      HandleProbeState(c, StateAt(c, s, run, n - 1), run[n - 1].0, run[n - 1].1);
    }
  }

  /** After any events, the failure count is the number of fresh failures since the last fresh
      success, capped at 255, and `healthy` says whether the last fresh probe succeeded. */
  lemma HistoryDeterminesHealth(c: Settings, account: AccountFile, connected: WgConfig, run: Run, n: nat)
    requires n <= |run|
    ensures var s := Started(account, connected);
            && StateAt(c, s, run, n).failures == Min(|Uncleared(c, s, run, n)|, 255)
            && (StateAt(c, s, run, n).healthy <==> LastProbeOk(c, s, run, n))
  {
    HistoryDeterminesCount(c, Started(account, connected), run, n);
    HistoryDeterminesFlag(c, Started(account, connected), run, n);
  }

  lemma HealthyStep(c: Settings, s: State, run: Run, n: nat)
    requires n < |run|
    ensures LastProbeOk(c, s, run, n + 1) <==>
            OkAt(c, s, run, n) || (!FailedAt(c, s, run, n) && LastProbeOk(c, s, run, n))
  {
    if OkAt(c, s, run, n) {
      assert NoneBetween(c, s, run, false, n, n + 1);
    } else if LastProbeOk(c, s, run, n) && !FailedAt(c, s, run, n) {
      var j: nat :| j < n && OkAt(c, s, run, j) && NoneBetween(c, s, run, false, j, n);
      assert NoneBetween(c, s, run, false, j, n + 1);
    }
    if LastProbeOk(c, s, run, n + 1) && !OkAt(c, s, run, n) {
      var j: nat :| j < n + 1 && OkAt(c, s, run, j) && NoneBetween(c, s, run, false, j, n + 1);
      assert NoneBetween(c, s, run, false, j, n);
    }
  }

  // ----- Which probes are fresh

  function Recoveries(c: Settings, s: State, run: Run): seq<bool> {
    seq(|run|, j requires 0 <= j < |run| => RecoveredAt(c, s, run, j))
  }

  function Completions(run: Run): seq<nat> { seq(|run|, j requires 0 <= j < |run| => run[j].1.completedAt) }

  /** `last` is the completion time of a recovery before `n`, and none of those completed later. */
  ghost predicate Latest(done: seq<bool>, times: seq<nat>, n: nat, last: Option<nat>)
    requires n <= |done| == |times|
  {
    && (forall i: nat :: i < n && done[i] ==> last.Some? && times[i] <= last.value)
    && (last.Some? ==> exists i: nat :: i < n && done[i] && times[i] == last.value)
  }

  lemma LatestStep(done: seq<bool>, times: seq<nat>, n: nat, last: Option<nat>)
    requires n < |done| == |times| && Latest(done, times, n, last)
    requires forall i :: 0 <= i < n ==> times[i] <= times[n]
    ensures Latest(done, times, n + 1, if done[n] then Some(times[n]) else last)
  {
    if !done[n] && last.Some? {
      var i: nat :| i < n && done[i] && times[i] == last.value;
      assert i < n + 1 && done[i] && times[i] == last.value;
    }
  }

  lemma CompletionsGrow(run: Run, n: nat)
    requires TimedRun(run) && n < |run|
    ensures forall i :: 0 <= i < n ==> Completions(run)[i] <= Completions(run)[n]
  {
    assert Ordered(run[n].1);
  }

  /** The remembered time is the completion of the latest successful recovery of the run so far. */
  lemma {:induction false} LastRecoveryIsLatest(c: Settings, s: State, run: Run, n: nat)
    requires n <= |run| && TimedRun(run) && s.lastRecovery.None?
    ensures Latest(Recoveries(c, s, run), Completions(run), n, StateAt(c, s, run, n).lastRecovery)
    decreases n
  {
    if n > 0 {
      LastRecoveryIsLatest(c, s, run, n - 1);
      HandleProbeState(c, StateAt(c, s, run, n - 1), run[n - 1].0, run[n - 1].1);
      CompletionsGrow(run, n - 1);
      LatestStep(Recoveries(c, s, run), Completions(run), n - 1, StateAt(c, s, run, n - 1).lastRecovery);
    }
  }

  /** A recovery before event `j` completed no earlier than `at`. */
  ghost predicate Outdated(c: Settings, s: State, run: Run, j: nat, at: nat)
    requires j <= |run|
  {
    exists i: nat :: i < j && RecoveredAt(c, s, run, i) && at <= run[i].1.completedAt
  }

  lemma StaleIffOutdated(c: Settings, s: State, run: Run, j: nat, at: nat)
    requires j <= |run| && TimedRun(run) && s.lastRecovery.None?
    ensures Stale(StateAt(c, s, run, j), at) <==> Outdated(c, s, run, j, at)
  {
    var done, times, last := Recoveries(c, s, run), Completions(run), StateAt(c, s, run, j).lastRecovery;
    LastRecoveryIsLatest(c, s, run, j);
    if last.Some? && at <= last.value {
      var i: nat :| i < j && done[i] && times[i] == last.value;
      assert RecoveredAt(c, s, run, i);
    }
    if Outdated(c, s, run, j, at) {
      var i: nat :| i < j && RecoveredAt(c, s, run, i) && at <= run[i].1.completedAt;
      assert done[i] && times[i] == run[i].1.completedAt;
    }
  }

  /** Over every run: a probe observed at or before the completion of any earlier successful recovery
      leaves the whole state unchanged, so it triggers no action; every other probe counts. */
  lemma ProbesCountIffLater(c: Settings, account: AccountFile, connected: WgConfig, run: Run, j: nat)
    requires j < |run| && TimedRun(run) && !run[j].0.RefreshTimer?
    ensures var s := Started(account, connected);
            var before, after := StateAt(c, s, run, j), StateAt(c, s, run, j + 1);
            if Outdated(c, s, run, j, run[j].0.observedAt) then after == before
            else after.healthy == run[j].0.ProbeOk?
                 && after.failures == if run[j].0.ProbeOk? then 0 else Min(before.failures + 1, 255)
  {
    var s := Started(account, connected);
    StaleIffOutdated(c, s, run, j, run[j].0.observedAt);
    HandleProbeState(c, StateAt(c, s, run, j), run[j].0, run[j].1);
  }

  // ----- Escalation within a failure streak

  lemma {:induction false} FailuresGrow(c: Settings, s: State, run: Run, i: nat, j: nat)
    requires i <= j <= |run| && NoneBetween(c, s, run, true, i - 1, j) && s.failures <= 255
    ensures StateAt(c, s, run, i).failures <= StateAt(c, s, run, j).failures <= 255
    decreases j
  {
    if i < j {
      FailuresGrow(c, s, run, i, j - 1);
      assert !OkAt(c, s, run, j - 1);
      HandleProbeState(c, StateAt(c, s, run, j - 1), run[j - 1].0, run[j - 1].1);
    } else {
      FailuresBounded(c, s, run, j);
    }
  }

  lemma {:induction false} FailuresBounded(c: Settings, s: State, run: Run, j: nat)
    requires j <= |run| && s.failures <= 255
    ensures StateAt(c, s, run, j).failures <= 255
  {
    if j > 0 {
      FailuresBounded(c, s, run, j - 1);
      HandleProbeState(c, StateAt(c, s, run, j - 1), run[j - 1].0, run[j - 1].1);
    }
  }

  /** Two fresh failures with no fresh success between them: the later one chooses a tier and a
      backoff at least as high as the earlier one. */
  lemma StreakEscalates(c: Settings, account: AccountFile, connected: WgConfig, run: Run, i: nat, j: nat)
    requires i <= j < |run|
    requires var s := Started(account, connected);
             FailedAt(c, s, run, i) && FailedAt(c, s, run, j) && NoneBetween(c, s, run, true, i, j)
    ensures var s := Started(account, connected);
            var m, n := CountFailure(StateAt(c, s, run, i)).failures, CountFailure(StateAt(c, s, run, j)).failures;
            && 1 <= m <= n <= 255
            && Tier(ActionFor(c.ladder, m)) <= Tier(ActionFor(c.ladder, n))
            && Backoff(c.ladder, m) <= Backoff(c.ladder, n)
  {
    var s := Started(account, connected);
    assert !OkAt(c, s, run, i);
    FailuresGrow(c, s, run, i, j);
    var m, n := CountFailure(StateAt(c, s, run, i)).failures, CountFailure(StateAt(c, s, run, j)).failures;
    TierMonotone(c.ladder, m, n);
    BackoffMonotone(c.ladder, m, n);
  }
}
