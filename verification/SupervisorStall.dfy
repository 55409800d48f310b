/** When recovery rebuilds the tunnel, and when the top of the ladder stalls. */
module SupervisorStall {
  import opened Common
  import opened Endpoints
  import opened Recovery
  import opened Supervisor
  import opened SupervisorRuns

  predicate ReregisterInstalls(c: Settings, s: State, env: Env) {
    env.endpoint.Some? && if RegistrationDue(c, s, env) && env.registration.Some? then env.save.Saved? else env.refreshed.Some?
  }

  /** What the outside must grant at each tier. With an identity that cannot be used, nothing helps. */
  predicate Installs(c: Settings, s: State, env: Env) {
    match ActionFor(c.ladder, CountFailure(s).failures)
    case NoAction => false
    case Reconnect => env.endpoint.Some?
    case RebuildConfig => env.endpoint.Some? && env.refreshed.Some?
    case Reregister => ReregisterInstalls(c, s, env)
    case RotateIdentity =>
      match env.pool
      case PoolEmpty => ReregisterInstalls(c, s, env)
      case Unusable => false
      case Usable(_) => env.endpoint.Some? && env.save.Saved?
  }

  /** A fresh failure ends in a new tunnel exactly under those conditions; in particular an empty pool,
      the registration cooldown and a failed registration call all fall back to a rebuild. */
  lemma RecoveryRebuildsIff(c: Settings, s: State, e: Event, env: Env)
    requires FreshFailure(s, e)
    ensures Handle(c, s, e, env).generation == s.generation + (if Installs(c, s, env) then 1 else 0)
    ensures Recovers(c, s, e, env) <==> Installs(c, s, env)
  {
  }

  /** The top tier can stall, although the handler's comment promises it always tries to rebuild: from
      the rotation threshold on, as long as every fresh failure meets an identity that cannot be used
      and no probe succeeds, no recovery ever happens again, whatever the API, the disk and the
      handshakes would have granted; only the refresh timer can still replace the tunnel. */
  lemma {:induction false} UnusableIdentitiesStallRecovery(c: Settings, s: State, run: Run, i: nat, n: nat)
    requires i <= n <= |run| && s.failures <= 255 && NoneBetween(c, s, run, true, i - 1, n)
    requires StateAt(c, s, run, i).failures + 1 >= c.ladder.rotateAfter
    requires forall j :: i <= j < n && run[j].0.ProbeFailed? ==> run[j].1.pool.Unusable?
    ensures StateAt(c, s, run, n).lastRecovery == StateAt(c, s, run, i).lastRecovery
    ensures StateAt(c, s, run, n).failures + 1 >= c.ladder.rotateAfter
    ensures forall j: nat :: i <= j < n && !run[j].0.RefreshTimer? ==> UnchangedBy(c, s, run, j)
    decreases n
  {
    if i < n {
      UnusableIdentitiesStallRecovery(c, s, run, i, n - 1);
      FailuresBounded(c, s, run, n - 1);
      assert !OkAt(c, s, run, n - 1);
      StallStep(c, StateAt(c, s, run, n - 1), run[n - 1].0, run[n - 1].1);
      assert !run[n - 1].0.RefreshTimer? ==> UnchangedBy(c, s, run, n - 1);
    }
  }

  /** Event `j` left the identity and the tunnel as they were. */
  predicate UnchangedBy(c: Settings, s: State, run: Run, j: nat)
    requires j < |run|
  {
    SameIdentity(StateAt(c, s, run, j + 1), StateAt(c, s, run, j))
  }

  lemma StallStep(c: Settings, s: State, e: Event, env: Env)
    requires s.failures + 1 >= c.ladder.rotateAfter && s.failures <= 255 && !FreshOk(s, e)
    requires e.ProbeFailed? ==> env.pool.Unusable?
    ensures var s' := Handle(c, s, e, env);
            && s'.lastRecovery == s.lastRecovery && s'.failures + 1 >= c.ladder.rotateAfter
            && (!e.RefreshTimer? ==> SameIdentity(s', s))
  {
    HandleProbeState(c, s, e, env);
    UnusableIdentityFails(c, s, e, env);
  }

  lemma UnusableIdentityFails(c: Settings, s: State, e: Event, env: Env)
    requires e.ProbeFailed? ==> s.failures + 1 >= c.ladder.rotateAfter && s.failures <= 255 && env.pool.Unusable?
    ensures !Recovers(c, s, e, env) && (!e.RefreshTimer? ==> SameIdentity(Handle(c, s, e, env), s))
  {
  }

  // ----- The stall is reached

  /** Nothing answers. */
  function Idle(): Env { Env(false, 0, 0, 0, 0, None, None, Unusable, None, Saved) }

  predicate IdleUpTo(run: Run, n: nat) requires n <= |run| {
    forall j :: 0 <= j < n ==> run[j] == (ProbeFailed(0), Idle())
  }

  lemma IdleStep(c: Settings, s: State)
    requires s.lastRecovery.None?
    ensures Handle(c, s, ProbeFailed(0), Idle()) == CountFailure(s)
  {
  }

  /** A prefix of failed probes during which nothing answers only counts. */
  lemma {:induction false} IdleStates(c: Settings, s: State, run: Run, n: nat)
    requires n <= |run| && IdleUpTo(run, n) && s.lastRecovery.None? && s.failures == 0 && !s.healthy
    ensures StateAt(c, s, run, n) == s.(failures := Min(n, 255))
    decreases n
  {
    if n > 0 {
      IdleStates(c, s, run, n - 1);
      assert run[n - 1] == (ProbeFailed(0), Idle());
      IdleStep(c, StateAt(c, s, run, n - 1));
    }
  }

  /** The outside grants everything, except that the identity taken from the pool cannot be used. */
  function Granting(s: State): Env {
    Env(true, 0, 0, 0, 0, Some(Candidate(s.wg, AccountFile(s.creds, 0))), Some(s.wg), Unusable, Some(s.wg.peer), Saved)
  }

  function StallingRun(s: State, extra: nat): Run {
    seq(255 + extra, j requires 0 <= j < 255 + extra => (ProbeFailed(0), if j < 255 then Idle() else Granting(s)))
  }

  lemma ZeroTimesAreTimed(run: Run)
    requires forall j :: 0 <= j < |run| ==> run[j].1.checkedAt == 0 && run[j].1.recordedAt == 0 && run[j].1.completedAt == 0
    ensures TimedRun(run)
  {
  }

  lemma StallingRunIsTimed(s: State, extra: nat)
    ensures TimedRun(StallingRun(s, extra))
  {
    var run := StallingRun(s, extra);
    forall j | 0 <= j < |run|
      ensures run[j].1.checkedAt == 0 && run[j].1.recordedAt == 0 && run[j].1.completedAt == 0
    {
      assert run[j] == (ProbeFailed(0), if j < 255 then Idle() else Granting(s));
    }
    ZeroTimesAreTimed(run);
  }

  lemma {:induction false} StalledStates(c: Settings, s: State, extra: nat, n: nat)
    requires n <= 255 + extra && s.lastRecovery.None? && s.failures == 0 && !s.healthy
    ensures StateAt(c, s, StallingRun(s, extra), n) == s.(failures := Min(n, 255))
    decreases n
  {
    var run := StallingRun(s, extra);
    if n <= 255 {
      IdleStates(c, s, run, n);
    } else {
      StalledStates(c, s, extra, n - 1);
      assert run[n - 1] == (ProbeFailed(0), Granting(s));
    }
  }

  /** At event `j` a fresh failure is handled with an honest API, working disk and handshakes, and
      nothing changes. */
  predicate StalledAt(c: Settings, s: State, run: Run, j: nat)
    requires j < |run|
  {
    var before, env := StateAt(c, s, run, j), run[j].1;
    && FreshFailure(before, run[j].0) && HonestApi(before, env)
    && env.diskReadable && env.endpoint.Some? && env.refreshed.Some? && env.registration.Some? && env.save.Saved?
    && StateAt(c, s, run, j + 1) == before
  }

  lemma GrantingStalls(c: Settings, s: State, extra: nat, j: nat)
    requires 255 <= j < 255 + extra && s.lastRecovery.None? && s.failures == 0 && !s.healthy && s.wg.owner == s.creds
    ensures StalledAt(c, s, StallingRun(s, extra), j)
  {
    StalledStates(c, s, extra, j);
    StalledStates(c, s, extra, j + 1);
    assert StallingRun(s, extra)[j] == (ProbeFailed(0), Granting(s));
  }

  /** From the start, on every ladder, there is a run that ends in the stall and stays there for as long
      as one likes. */
  lemma StallIsReachable(c: Settings, account: AccountFile, connected: WgConfig, extra: nat) returns (run: Run)
    requires connected.owner == account.credentials
    ensures TimedRun(run) && |run| == 255 + extra
    ensures forall j: nat :: 255 <= j < |run| ==> StalledAt(c, Started(account, connected), run, j)
  {
    run := StallingRun(Started(account, connected), extra);
    StallingRunIsTimed(Started(account, connected), extra);
    forall j: nat | 255 <= j < |run| ensures StalledAt(c, Started(account, connected), run, j) {
      GrantingStalls(c, Started(account, connected), extra, j);
    }
  }
}
