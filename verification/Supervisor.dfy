/** What one event does to the supervisor (`src/supervisor.rs`) and the account manager it drives
    (`src/warp/account.rs`). API calls, handshakes, disk and clocks are what each event's
    environment says they are; everything else is the program's own sequencing. */
module Supervisor {
  import opened Common
  import opened Endpoints
  import opened Recovery

  datatype Event = ProbeOk(observedAt: nat) | ProbeFailed(observedAt: nat) | RefreshTimer

  datatype AccountFile = AccountFile(credentials: nat, registeredAt: nat)

  datatype Candidate = Candidate(wg: WgConfig, file: AccountFile)

  /** `save` renames the new file over the old one and may still fail afterwards. */
  datatype SaveOutcome = Saved | FailedBeforeRename | FailedAfterRename

  datatype PoolOutcome = PoolEmpty | Unusable | Usable(candidate: Candidate)

  /** What the outside world does while one event is handled. At most one candidate tunnel is
      connected per event; `endpoint` is the one it handshook through. */
  datatype Env = Env(
    diskReadable: bool, wallClock: nat, checkedAt: nat, recordedAt: nat, completedAt: nat,
    registration: Option<Candidate>, refreshed: Option<WgConfig>, pool: PoolOutcome,
    endpoint: Option<SocketAddr>, save: SaveOutcome)

  datatype Settings = Settings(ladder: Ladder, registerCooldown: nat)

  /** `tunnel` is the configuration the current generation handshook with, `attempts` the log of
      recorded registration attempts, `calls` the number of registration calls made to the API. */
  datatype State = State(
    failures: nat, lastRecovery: Option<nat>, healthy: bool,
    creds: nat, wg: WgConfig, tunnel: WgConfig, generation: nat,
    disk: Option<AccountFile>, lastAttempt: Option<nat>, attempts: seq<nat>, calls: nat)

  // ----- Account manager

  /** The persisted timestamp is only consulted if the wall clock has not gone back behind it. */
  predicate DiskCoolingDown(c: Settings, s: State, env: Env) {
    && s.disk.Some? && env.wallClock >= s.disk.value.registeredAt
    && env.wallClock - s.disk.value.registeredAt < c.registerCooldown
  }

  predicate AttemptCoolingDown(c: Settings, s: State, env: Env) {
    s.lastAttempt.Some? && SaturatingSub(env.checkedAt, s.lastAttempt.value) < c.registerCooldown
  }

  predicate MayRegister(c: Settings, s: State, env: Env) {
    env.diskReadable && !DiskCoolingDown(c, s, env) && !AttemptCoolingDown(c, s, env)
  }

  /** When a call to the API is due, from the fields alone: the account file can be read, and it is
      absent, dated in the future, or at least a cooldown old; and the last attempt of this process,
      if any, is at least a cooldown ago. */
  predicate RegistrationDue(c: Settings, s: State, env: Env) {
    && env.diskReadable
    && (|| s.disk.None? || env.wallClock < s.disk.value.registeredAt
        || env.wallClock >= s.disk.value.registeredAt + c.registerCooldown)
    && (|| s.lastAttempt.None? || c.registerCooldown == 0
        || env.checkedAt >= s.lastAttempt.value + c.registerCooldown)
  }

  /** The attempt is recorded before the API call, so a failed call is subject to the cooldown too. */
  function RecordAttempt(s: State, env: Env): State {
    s.(lastAttempt := Some(env.recordedAt), attempts := s.attempts + [env.recordedAt])
  }

  function CallRegister(s: State): State { s.(calls := s.calls + 1) }

  // ----- Recovery actions: the new state and whether the action succeeded

  function Install(s: State, wg: WgConfig): State { s.(wg := wg, tunnel := wg, generation := s.generation + 1) }

  /** `Tunnel::rebuild`: connect first, then swap. */
  function Rebuild(s: State, wg: WgConfig, env: Env): (State, bool) {
    match env.endpoint
    case None => (s, false)
    case Some(e) => (Install(s, wg.(peer := e)), true)
  }

  function RebuildConfigAction(s: State, env: Env): (State, bool) {
    match env.refreshed
    case None => (s, false)
    case Some(wg) => Rebuild(s, wg, env)
  }

  /** Handshake, then persist, then switch credentials, configuration and tunnel. */
  function AdoptCandidate(s: State, k: Candidate, env: Env): (State, bool) {
    if env.endpoint.None? || env.save.FailedBeforeRename? then (s, false)
    else
      var renamed := s.(disk := Some(k.file));
      if env.save.FailedAfterRename? then (renamed, false)
      else (Install(renamed.(creds := k.file.credentials), k.wg.(peer := env.endpoint.value)), true)
  }

  function ReregisterAction(c: Settings, s: State, env: Env): (State, bool) {
    if !MayRegister(c, s, env) then RebuildConfigAction(s, env)
    else
      var called := CallRegister(RecordAttempt(s, env));
      match env.registration
      case None => RebuildConfigAction(called, env)
      case Some(k) => AdoptCandidate(called, k, env)
  }

  function RotateAction(c: Settings, s: State, env: Env): (State, bool) {
    match env.pool
    case PoolEmpty => ReregisterAction(c, s, env)
    case Unusable => (s, false)
    case Usable(k) => AdoptCandidate(s, k, env)
  }

  function Perform(c: Settings, s: State, a: RecoveryAction, env: Env): (State, bool) {
    match a
    case NoAction => (s, false)
    case Reconnect => Rebuild(s, s.wg, env)
    case RebuildConfig => RebuildConfigAction(s, env)
    case Reregister => ReregisterAction(c, s, env)
    case RotateIdentity => RotateAction(c, s, env)
  }

  function Escalate(c: Settings, s: State, a: RecoveryAction, env: Env): State {
    var (s', ok) := Perform(c, s, a, env);
    if ok then s'.(lastRecovery := Some(env.completedAt)) else s'
  }

  // ----- Events

  predicate Stale(s: State, observedAt: nat) { s.lastRecovery.Some? && observedAt <= s.lastRecovery.value }

  predicate FreshOk(s: State, e: Event) { e.ProbeOk? && !Stale(s, e.observedAt) }

  predicate FreshFailure(s: State, e: Event) { e.ProbeFailed? && !Stale(s, e.observedAt) }

  function CountFailure(s: State): State { s.(healthy := false, failures := Min(s.failures + 1, 255)) }

  function Handle(c: Settings, s: State, e: Event, env: Env): State {
    match e
    case ProbeOk(at) => if Stale(s, at) then s else s.(healthy := true, failures := 0)
    case ProbeFailed(at) =>
      if Stale(s, at) then s
      else
        var n := CountFailure(s);
        Escalate(c, n, ActionFor(c.ladder, n.failures), env)
    case RefreshTimer => RebuildConfigAction(s, env).0
  }

  /** The action an event leads to. */
  function EventAction(c: Settings, s: State, e: Event): RecoveryAction {
    if FreshFailure(s, e) then ActionFor(c.ladder, CountFailure(s).failures)
    else if e.RefreshTimer? then RebuildConfig
    else NoAction
  }

  /** Whether an event ends in a successful recovery. */
  predicate Recovers(c: Settings, s: State, e: Event, env: Env) {
    FreshFailure(s, e) && Perform(c, CountFailure(s), EventAction(c, s, e), env).1
  }

  // ----- What an action reaches for

  /** The account candidate that is put through handshake and save, if any. */
  function Adopted(c: Settings, s: State, a: RecoveryAction, env: Env): Option<Candidate> {
    if a.RotateIdentity? && env.pool.Usable? then Some(env.pool.candidate)
    else if (a.Reregister? || (a.RotateIdentity? && env.pool.PoolEmpty?)) && RegistrationDue(c, s, env) then env.registration
    else None
  }

  /** The configuration handed to `connect_candidate`, if any. */
  function Dialled(c: Settings, s: State, a: RecoveryAction, env: Env): Option<WgConfig> {
    if a.NoAction? || (a.RotateIdentity? && env.pool.Unusable?) then None
    else if a.Reconnect? then Some(s.wg)
    else match Adopted(c, s, a, env)
      case Some(k) => Some(k.wg)
      case None => env.refreshed
  }

  /** The file that is renamed over `account.json`, if the handshake and the write got that far. */
  function Renamed(c: Settings, s: State, a: RecoveryAction, env: Env): Option<AccountFile> {
    match Adopted(c, s, a, env)
    case None => None
    case Some(k) => if env.endpoint.Some? && !env.save.FailedBeforeRename? then Some(k.file) else None
  }

  // ----- What should hold

  /** The API issues configurations for the credentials it was asked about. */
  predicate HonestApi(s: State, env: Env) {
    && (env.refreshed.Some? ==> env.refreshed.value.owner == s.creds)
    && (env.registration.Some? ==> env.registration.value.wg.owner == env.registration.value.file.credentials)
    && (env.pool.Usable? ==> env.pool.candidate.wg.owner == env.pool.candidate.file.credentials)
  }

  /** One identity in memory, in the stored configuration and in the live tunnel; and the stored
      configuration is exactly the one that tunnel handshook with. */
  predicate Coherent(s: State) { s.creds == s.wg.owner && s.wg == s.tunnel }

  predicate DiskAgrees(s: State) { s.disk.Some? && s.disk.value.credentials == s.creds }

  predicate SameIdentity(s: State, t: State) {
    s.creds == t.creds && s.wg == t.wg && s.tunnel == t.tunnel && s.generation == t.generation
  }

  predicate Ordered(env: Env) { env.checkedAt <= env.recordedAt <= env.completedAt }

  predicate Spaced(times: seq<nat>, gap: nat) {
    forall i, j :: 0 <= i < j < |times| ==> times[i] + gap <= times[j]
  }

  /** Recorded attempts are a cooldown apart, the last one is remembered, every call is recorded. */
  predicate RateInv(c: Settings, s: State) {
    && Spaced(s.attempts, c.registerCooldown)
    && s.calls == |s.attempts|
    && s.lastAttempt == (if s.attempts == [] then None else Some(s.attempts[|s.attempts| - 1]))
  }

  predicate Before(s: State, t: nat) { forall i :: 0 <= i < |s.attempts| ==> s.attempts[i] <= t }

  // ----- One action

  /** Actions never touch the probe bookkeeping. */
  lemma PerformKeepsProbeState(c: Settings, s: State, a: RecoveryAction, env: Env)
    ensures var s' := Perform(c, s, a, env).0;
            s'.failures == s.failures && s'.healthy == s.healthy && s'.lastRecovery == s.lastRecovery
  {
  }

  lemma PerformCoherent(c: Settings, s: State, a: RecoveryAction, env: Env)
    requires Coherent(s) && HonestApi(s, env)
    ensures Coherent(Perform(c, s, a, env).0)
  {
  }

  /** A failed action leaves credentials, configuration and tunnel as they were; a successful one
      installs a new generation: the configuration it dialled, through the endpoint that answered. */
  lemma FailureChangesNothing(c: Settings, s: State, a: RecoveryAction, env: Env)
    ensures var (s', ok) := Perform(c, s, a, env);
            && (!ok ==> SameIdentity(s', s))
            && (ok ==> && s'.generation == s.generation + 1 && s'.tunnel == s'.wg
                       && env.endpoint.Some? && Dialled(c, s, a, env).Some?
                       && s'.tunnel == Dialled(c, s, a, env).value.(peer := env.endpoint.value))
  {
  }

  /** The file changes exactly by a rename, the credentials exactly by a save that returned success. */
  lemma PerformDisk(c: Settings, s: State, a: RecoveryAction, env: Env)
    ensures var s' := Perform(c, s, a, env).0;
            var file := Renamed(c, s, a, env);
            && s'.disk == (if file.Some? then file else s.disk)
            && s'.creds == (if file.Some? && env.save.Saved? then file.value.credentials else s.creds)
  {
  }

  /** What each action puts in place, field by field. A reconnect dials the stored configuration, a
      rebuild the refreshed one; a candidate brings its own credentials, configuration and file, and
      the file may be on disk although the action failed. Nothing else changes. */
  lemma WhatEachActionInstalls(c: Settings, s: State, a: RecoveryAction, env: Env)
    ensures a.NoAction? || (a.RotateIdentity? && env.pool.Unusable?) ==> Perform(c, s, a, env) == (s, false)
    ensures a.Reconnect? ==>
              Perform(c, s, a, env) ==
              match env.endpoint
              case None => (s, false)
              case Some(e) =>
                (s.(wg := s.wg.(peer := e), tunnel := s.wg.(peer := e), generation := s.generation + 1), true)
    ensures var (s', ok) := Perform(c, s, a, env);
            a.RebuildConfig? ==>
              && (ok <==> env.refreshed.Some? && env.endpoint.Some?)
              && (!ok ==> s' == s)
              && (ok ==> var wg := env.refreshed.value.(peer := env.endpoint.value);
                         s' == s.(wg := wg, tunnel := wg, generation := s.generation + 1))
    ensures var (s', ok) := Perform(c, s, a, env);
            a.RotateIdentity? && env.pool.Usable? ==>
              var k := env.pool.candidate;
              && (ok <==> env.endpoint.Some? && env.save.Saved?)
              && (ok ==> var wg := k.wg.(peer := env.endpoint.value);
                         s' == s.(creds := k.file.credentials, disk := Some(k.file), wg := wg, tunnel := wg,
                                  generation := s.generation + 1))
              && (!ok ==> s' == if env.endpoint.Some? && env.save.FailedAfterRename? then s.(disk := Some(k.file)) else s)
  {
  }

  /** A registration is called for exactly by the two actions that may, and exactly when the file and
      the last attempt allow it; the attempt is on record whatever the API answers. */
  lemma RegistersIff(c: Settings, s: State, a: RecoveryAction, env: Env)
    ensures var s' := Perform(c, s, a, env).0;
            var due := && (a.Reregister? || (a.RotateIdentity? && env.pool.PoolEmpty?))
                       && env.diskReadable
                       && (|| s.disk.None? || env.wallClock < s.disk.value.registeredAt
                           || env.wallClock >= s.disk.value.registeredAt + c.registerCooldown)
                       && (|| s.lastAttempt.None? || c.registerCooldown == 0
                           || env.checkedAt >= s.lastAttempt.value + c.registerCooldown);
            && s'.calls == s.calls + (if due then 1 else 0)
            && s'.attempts == s.attempts + (if due then [env.recordedAt] else [])
            && s'.lastAttempt == (if due then Some(env.recordedAt) else s.lastAttempt)
  {
  }

  /** With a registered candidate the two actions end as a rotation to that candidate would, and
      otherwise as a rebuild would, but for the attempt on record. */
  lemma RegistrationIsAdoptedOrReplaced(c: Settings, s: State, a: RecoveryAction, env: Env)
    requires a.Reregister? || (a.RotateIdentity? && env.pool.PoolEmpty?)
    ensures var (s', ok) := Perform(c, s, a, env);
            var like := if RegistrationDue(c, s, env) && env.registration.Some?
                        then Perform(c, s, RotateIdentity, env.(pool := Usable(env.registration.value)))
                        else Perform(c, s, RebuildConfig, env);
            && ok == like.1
            && s' == like.0.(calls := s'.calls, attempts := s'.attempts, lastAttempt := s'.lastAttempt)
  {
  }

  predicate SameAttempts(s: State, t: State) {
    s.attempts == t.attempts && s.lastAttempt == t.lastAttempt && s.calls == t.calls
  }

  /** An action leaves the attempt log alone, or records and calls once when that is allowed. */
  lemma PerformAttempts(c: Settings, s: State, a: RecoveryAction, env: Env)
    ensures var s' := Perform(c, s, a, env).0;
            || SameAttempts(s', s)
            || (MayRegister(c, s, env) && SameAttempts(s', CallRegister(RecordAttempt(s, env))))
  {
  }

  lemma RecordingKeepsRate(c: Settings, s: State, env: Env)
    requires RateInv(c, s) && Ordered(env) && Before(s, env.checkedAt) && MayRegister(c, s, env)
    ensures RateInv(c, CallRegister(RecordAttempt(s, env)))
    ensures Before(CallRegister(RecordAttempt(s, env)), env.completedAt)
  {
    var n := |s.attempts|;
    forall i | 0 <= i < n ensures s.attempts[i] + c.registerCooldown <= env.recordedAt {
      if i < n - 1 {
        assert s.attempts[i] + c.registerCooldown <= s.attempts[n - 1];
      }
    }
  }

  lemma PerformKeepsRate(c: Settings, s: State, a: RecoveryAction, env: Env)
    requires RateInv(c, s) && Ordered(env) && Before(s, env.checkedAt)
    ensures RateInv(c, Perform(c, s, a, env).0) && Before(Perform(c, s, a, env).0, env.completedAt)
  {
    PerformAttempts(c, s, a, env);
    if MayRegister(c, s, env) {
      RecordingKeepsRate(c, s, env);
    }
  }

  // ----- One event

  lemma HandleProbeState(c: Settings, s: State, e: Event, env: Env)
    ensures var s' := Handle(c, s, e, env);
            && s'.failures == (if FreshOk(s, e) then 0
                               else if FreshFailure(s, e) then Min(s.failures + 1, 255) else s.failures)
            && s'.healthy == (FreshOk(s, e) || (!FreshFailure(s, e) && s.healthy))
            && s'.lastRecovery == (if Recovers(c, s, e, env) then Some(env.completedAt) else s.lastRecovery)
  {
    if FreshFailure(s, e) {
      PerformKeepsProbeState(c, CountFailure(s), EventAction(c, s, e), env);
    } else if e.RefreshTimer? {
      PerformKeepsProbeState(c, s, RebuildConfig, env);
    }
  }

  lemma HandleCoherent(c: Settings, s: State, e: Event, env: Env)
    requires Coherent(s) && HonestApi(s, env)
    ensures Coherent(Handle(c, s, e, env))
  {
    if FreshFailure(s, e) {
      PerformCoherent(c, CountFailure(s), EventAction(c, s, e), env);
    } else if e.RefreshTimer? {
      PerformCoherent(c, s, RebuildConfig, env);
    }
  }

  lemma HandleKeepsRate(c: Settings, s: State, e: Event, env: Env)
    requires RateInv(c, s) && Ordered(env) && Before(s, env.checkedAt)
    ensures RateInv(c, Handle(c, s, e, env)) && Before(Handle(c, s, e, env), env.completedAt)
  {
    if FreshFailure(s, e) {
      var n, a := CountFailure(s), EventAction(c, s, e);
      SameRate(c, s, n, env.checkedAt);
      PerformKeepsRate(c, n, a, env);
      SameRate(c, Perform(c, n, a, env).0, Handle(c, s, e, env), env.completedAt);
    } else if e.RefreshTimer? {
      PerformKeepsRate(c, s, RebuildConfig, env);
    }
  }

  lemma SameRate(c: Settings, s: State, t: State, until: nat)
    requires SameAttempts(t, s) && RateInv(c, s) && Before(s, until)
    ensures RateInv(c, t) && Before(t, until)
  {
  }

  lemma HandleDisk(c: Settings, s: State, e: Event, env: Env)
    ensures var s' := Handle(c, s, e, env);
            var file := Renamed(c, s, EventAction(c, s, e), env);
            && s'.disk == (if file.Some? then file else s.disk)
            && s'.creds == (if file.Some? && env.save.Saved? then file.value.credentials else s.creds)
  {
    if FreshFailure(s, e) {
      PerformDisk(c, CountFailure(s), EventAction(c, s, e), env);
    } else {
      PerformDisk(c, s, EventAction(c, s, e), env);
    }
  }

  /** A new generation is installed only with the configuration this event dialled. */
  lemma HandleInstalls(c: Settings, s: State, e: Event, env: Env)
    ensures var s' := Handle(c, s, e, env);
            var dialled := Dialled(c, s, EventAction(c, s, e), env);
            && s.generation <= s'.generation <= s.generation + 1
            && (s'.generation == s.generation ==> SameIdentity(s', s))
            && (s'.generation != s.generation ==>
                  && dialled.Some? && env.endpoint.Some?
                  && s'.tunnel == dialled.value.(peer := env.endpoint.value))
  {
    if FreshFailure(s, e) {
      FailureChangesNothing(c, CountFailure(s), EventAction(c, s, e), env);
    } else {
      FailureChangesNothing(c, s, EventAction(c, s, e), env);
    }
  }

  /** The whole guard of a registration, from the event on: a failed probe later than the last
      recovery, whose count reaches the re-registration tier, or the rotation tier with an empty
      pool; a readable file that is absent, dated in the future or a cooldown old; and no attempt
      within the cooldown. Exactly then one call is made. */
  lemma EventRegistersIff(c: Settings, s: State, e: Event, env: Env)
    ensures var s' := Handle(c, s, e, env);
            var n := if s.failures >= 255 then 255 else s.failures + 1;
            var due := && e.ProbeFailed?
                       && (s.lastRecovery.None? || e.observedAt > s.lastRecovery.value)
                       && (if n >= c.ladder.rotateAfter then env.pool.PoolEmpty? else n >= c.ladder.reregisterAfter)
                       && env.diskReadable
                       && (|| s.disk.None? || env.wallClock < s.disk.value.registeredAt
                           || env.wallClock >= s.disk.value.registeredAt + c.registerCooldown)
                       && (|| s.lastAttempt.None? || c.registerCooldown == 0
                           || env.checkedAt >= s.lastAttempt.value + c.registerCooldown);
            && s'.calls == s.calls + (if due then 1 else 0)
            && s'.attempts == s.attempts + (if due then [env.recordedAt] else [])
  {
    if FreshFailure(s, e) {
      RegistersIff(c, CountFailure(s), EventAction(c, s, e), env);
    } else {
      RegistersIff(c, s, EventAction(c, s, e), env);
    }
  }

  /** The periodic refresh replaces the tunnel exactly if a configuration is issued and handshakes; it
      never counts as a recovery and touches nothing but configuration and tunnel. */
  lemma RefreshReplacesIff(c: Settings, s: State, env: Env)
    ensures var s' := Handle(c, s, RefreshTimer, env);
            if env.refreshed.Some? && env.endpoint.Some? then
              var wg := env.refreshed.value.(peer := env.endpoint.value);
              s' == s.(wg := wg, tunnel := wg, generation := s.generation + 1)
            else s' == s
  {
    WhatEachActionInstalls(c, s, RebuildConfig, env);
  }
}
