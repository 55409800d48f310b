/** The supervisor as the program keeps it: fields updated in place by the event handlers of
    `src/supervisor.rs` and by `prepare_reregister` of `src/warp/account.rs`. */
module SupervisorLoop {
  import opened Common
  import opened Endpoints
  import opened Recovery
  import opened Supervisor

  class EventLoop {
    const settings: Settings
    var failures: nat
    var lastRecovery: Option<nat>
    var healthy: bool
    var creds: nat
    var wg: WgConfig
    var tunnel: WgConfig
    var generation: nat
    var disk: Option<AccountFile>
    var lastAttempt: Option<nat>
    ghost var attempts: seq<nat>
    ghost var calls: nat

    ghost function View(): State reads this {
      State(failures, lastRecovery, healthy, creds, wg, tunnel, generation, disk, lastAttempt, attempts, calls)
    }

    /** What the methods below rely on and keep: one identity, and the registration rate. */
    ghost predicate Valid() reads this { Coherent(View()) && RateInv(settings, View()) }

    /** The environment of one event: an honest API and a clock that has not gone back. */
    ghost predicate Admissible(env: Env) reads this {
      HonestApi(View(), env) && Ordered(env) && Before(View(), env.checkedAt)
    }

    constructor (c: Settings, account: AccountFile, connected: WgConfig)
      requires connected.owner == account.credentials
      ensures settings == c && Valid() && DiskAgrees(View()) && !healthy && failures == 0
      ensures View() == State(0, None, false, account.credentials, connected, connected, 1, Some(account), None, [], 0)
    {
      settings, failures, lastRecovery, healthy := c, 0, None, false;
      creds, wg, tunnel, generation := account.credentials, connected, connected, 1;
      disk, lastAttempt, attempts, calls := Some(account), None, [], 0;
    }

    /** `Tunnel::rebuild`: nothing changes unless the handshake succeeds; then exactly the configuration
        that handshook is both live and stored. */
    method RebuildTunnel(cfg: WgConfig, env: Env) returns (ok: bool)
      requires Valid() && cfg.owner == creds
      modifies this
      ensures (View(), ok) == old(Rebuild(View(), cfg, env))
      ensures Valid() && creds == old(creds)
      ensures !ok ==> View() == old(View())
      ensures ok ==> generation == old(generation) + 1 && env.endpoint == Some(tunnel.peer)
    {
      if env.endpoint.None? {
        return false;
      }
      var active := cfg.(peer := env.endpoint.value);
      tunnel, generation := active, generation + 1;
      wg := active;
      return true;
    }

    method ActionRebuildConfig(env: Env) returns (ok: bool)
      requires Valid() && HonestApi(View(), env)
      modifies this
      ensures (View(), ok) == old(RebuildConfigAction(View(), env))
      ensures Valid() && creds == old(creds)
      ensures !ok ==> View() == old(View())
      ensures ok ==> generation == old(generation) + 1 && env.endpoint == Some(tunnel.peer)
    {
      if env.refreshed.None? {
        return false;
      }
      ok := RebuildTunnel(env.refreshed.value, env);
    }

    /** Handshake, then save, then switch. A failure keeps the old identity in memory and in the tunnel;
        a success leaves memory, tunnel and file on the candidate. */
    method CommitCandidate(k: Candidate, env: Env) returns (ok: bool)
      requires Valid() && k.wg.owner == k.file.credentials
      modifies this
      ensures (View(), ok) == old(AdoptCandidate(View(), k, env))
      ensures Valid()
      ensures !ok ==> SameIdentity(View(), old(View()))
      ensures ok ==> generation == old(generation) + 1 && creds == k.file.credentials && DiskAgrees(View())
    {
      if env.endpoint.None? {
        return false;
      }
      var connected := k.wg.(peer := env.endpoint.value);
      if env.save.FailedBeforeRename? {
        return false;
      }
      disk := Some(k.file);
      if env.save.FailedAfterRename? {
        return false;
      }
      creds := k.file.credentials;
      wg := connected;
      tunnel, generation := connected, generation + 1;
      return true;
    }

    /** Both cooldown guards, and the attempt recorded before the call: whatever the API answers, the
        attempts stay a cooldown apart, and a candidate only comes out of a recorded attempt. */
    method PrepareReregister(env: Env) returns (r: Option<Candidate>)
      requires Valid() && Admissible(env)
      modifies this
      ensures View() == if old(MayRegister(settings, View(), env)) then old(CallRegister(RecordAttempt(View(), env))) else old(View())
      ensures r == if old(MayRegister(settings, View(), env)) then env.registration else None
      ensures Valid() && SameIdentity(View(), old(View())) && Before(View(), env.completedAt)
      ensures r.Some? ==> |attempts| == |old(attempts)| + 1 && calls == old(calls) + 1
      ensures calls == old(calls) + 1 <==>
                && env.diskReadable
                && old(disk.None? || env.wallClock < disk.value.registeredAt
                       || env.wallClock >= disk.value.registeredAt + settings.registerCooldown)
                && old(lastAttempt.None? || settings.registerCooldown == 0
                       || env.checkedAt >= lastAttempt.value + settings.registerCooldown)
      ensures calls != old(calls) + 1 ==> View() == old(View())
    {
      if !env.diskReadable {
        return None;
      }
      if disk.Some? && env.wallClock >= disk.value.registeredAt {
        var elapsed := env.wallClock - disk.value.registeredAt;
        if elapsed < settings.registerCooldown {
          return None;
        }
      }
      if lastAttempt.Some? {
        var elapsed := SaturatingSub(env.checkedAt, lastAttempt.value);
        if elapsed < settings.registerCooldown {
          return None;
        }
      }
      RecordingKeepsRate(settings, View(), env);
      lastAttempt, attempts := Some(env.recordedAt), attempts + [env.recordedAt];
      calls := calls + 1;
      return env.registration;
    }

    method ActionReregister(env: Env) returns (ok: bool)
      requires Valid() && Admissible(env)
      modifies this
      ensures (View(), ok) == old(ReregisterAction(settings, View(), env))
      ensures Valid() && Before(View(), env.completedAt)
      ensures !ok ==> SameIdentity(View(), old(View()))
      ensures ok ==> generation == old(generation) + 1
    {
      var candidate := PrepareReregister(env);
      if candidate.Some? {
        ok := CommitCandidate(candidate.value, env);
      } else {
        ok := ActionRebuildConfig(env);
      }
    }

    method ActionRotate(env: Env) returns (ok: bool)
      requires Valid() && Admissible(env)
      modifies this
      ensures (View(), ok) == old(RotateAction(settings, View(), env))
      ensures Valid() && Before(View(), env.completedAt)
      ensures !ok ==> SameIdentity(View(), old(View()))
      ensures ok ==> generation == old(generation) + 1
    {
      match env.pool
      case PoolEmpty => ok := ActionReregister(env);
      case Unusable => ok := false;
      case Usable(k) => ok := CommitCandidate(k, env);
    }

    /** Whichever action: a failure keeps the identity, a success installs one new generation, and the
        probe bookkeeping is left alone. */
    method PerformAction(action: RecoveryAction, env: Env) returns (ok: bool)
      requires Valid() && Admissible(env)
      modifies this
      ensures (View(), ok) == old(Perform(settings, View(), action, env))
      ensures Valid() && Before(View(), env.completedAt)
      ensures generation == old(generation) + if ok then 1 else 0
      ensures !ok ==> SameIdentity(View(), old(View()))
    {
      match action
      case NoAction => ok := false;
      case Reconnect => ok := RebuildTunnel(wg, env);
      case RebuildConfig => ok := ActionRebuildConfig(env);
      case Reregister => ok := ActionReregister(env);
      case RotateIdentity => ok := ActionRotate(env);
    }

    /** Only a recovery that installed a new generation is time-stamped, and the probe count and flag are
        left alone. */
    method EscalateTo(action: RecoveryAction, env: Env)
      requires Valid() && Admissible(env)
      modifies this
      ensures View() == old(Escalate(settings, View(), action, env))
      ensures Valid() && Before(View(), env.completedAt)
      ensures failures == old(failures) && healthy == old(healthy)
      ensures lastRecovery == if generation == old(generation) then old(lastRecovery) else Some(env.completedAt)
    {
      PerformKeepsProbeState(settings, View(), action, env);
      var ok := PerformAction(action, env);
      if ok {
        lastRecovery := Some(env.completedAt);
      }
    }

    /** A probe not later than the last recovery changes nothing; any other sets the flag, and clears or
        raises the count; identity and registration rate hold again whatever happened. */
    method HandleEvent(e: Event, env: Env)
      requires Valid() && Admissible(env)
      modifies this
      ensures View() == old(Handle(settings, View(), e, env))
      ensures Valid() && Before(View(), env.completedAt)
      ensures !e.RefreshTimer? && old(lastRecovery.Some? && e.observedAt <= lastRecovery.value) ==> View() == old(View())
      ensures !e.RefreshTimer? && !old(lastRecovery.Some? && e.observedAt <= lastRecovery.value) ==>
                healthy == e.ProbeOk? && failures == if e.ProbeOk? then 0 else Min(old(failures) + 1, 255)
      ensures e.RefreshTimer? ==> healthy == old(healthy) && failures == old(failures) && lastRecovery == old(lastRecovery)
    {
      match e {
        case ProbeOk(at) =>
          if lastRecovery.Some? && at <= lastRecovery.value {
            return;
          }
          healthy := true;
          if failures > 0 {
            failures := 0;
          }
        case ProbeFailed(at) =>
          if lastRecovery.Some? && at <= lastRecovery.value {
            return;
          }
          healthy := false;
          failures := Min(failures + 1, 255);
          EscalateTo(ActionFor(settings.ladder, failures), env);
        case RefreshTimer =>
          var _ := ActionRebuildConfig(env);
      }
    }
  }
}
