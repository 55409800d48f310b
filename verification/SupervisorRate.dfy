/** The registration rate over whole runs of events. */
module SupervisorRate {
  import opened Common
  import opened Endpoints
  import opened Recovery
  import opened Supervisor
  import opened SupervisorRuns

  lemma {:induction false} AttemptsStaySpaced(c: Settings, s: State, run: Run, n: nat)
    requires n <= |run| && TimedRun(run) && s.attempts == [] && s.lastAttempt.None? && s.calls == 0
    ensures RateInv(c, StateAt(c, s, run, n))
    ensures forall j :: n <= j < |run| ==> Before(StateAt(c, s, run, n), run[j].1.checkedAt)
    decreases n
  {
    if n > 0 {
      AttemptsStaySpaced(c, s, run, n - 1);
      var env := run[n - 1].1;
      assert Ordered(env) && Before(StateAt(c, s, run, n - 1), env.checkedAt);
      HandleKeepsRate(c, StateAt(c, s, run, n - 1), run[n - 1].0, env);
    }
  }

  lemma {:induction false} SpacedSpan(times: seq<nat>, gap: nat, i: nat, j: nat)
    requires Spaced(times, gap) && i <= j < |times|
    ensures times[i] + (j - i) * gap <= times[j]
    decreases j - i
  {
    if i < j {
      SpacedSpan(times, gap, i, j - 1);
      assert times[j - 1] + gap <= times[j];
      assert (j - i) * gap == (j - 1 - i) * gap + gap;
    }
  }

  lemma AtMostQuotient(k: nat, gap: nat, span: nat)
    requires gap > 0 && k * gap <= span
    ensures k <= span / gap
  {
    assert gap * (span / gap + 1) > span;
    if k > span / gap {
      MulMonotone(gap, span / gap + 1, k);
    }
  }

  /** In any run, whatever the API, handshakes and rotations do, every registration call is recorded,
      and `k` recorded attempts inside a window of length `span` satisfy `k <= span / cooldown + 1`. */
  lemma RegistrationRate(c: Settings, account: AccountFile, connected: WgConfig, run: Run, i: nat, j: nat, from: nat, span: nat)
    requires TimedRun(run) && c.registerCooldown > 0
    requires var times := StateAt(c, Started(account, connected), run, |run|).attempts;
             i <= j < |times| && from <= times[i] && times[j] <= from + span
    ensures j - i + 1 <= span / c.registerCooldown + 1
    ensures var s := StateAt(c, Started(account, connected), run, |run|);
            s.calls == |s.attempts| && Spaced(s.attempts, c.registerCooldown)
  {
    AttemptsStaySpaced(c, Started(account, connected), run, |run|);
    var times := StateAt(c, Started(account, connected), run, |run|).attempts;
    SpacedSpan(times, c.registerCooldown, i, j);
    AtMostQuotient(j - i, c.registerCooldown, span);
  }

  /** In every run an event makes at most one call. If it makes one, the file on disk was readable and
      not younger than the cooldown by the wall clock, unless the clock is behind the file's date; and
      every attempt of the run so far was at least a cooldown ago. */
  lemma NoCallDuringCooldown(c: Settings, account: AccountFile, connected: WgConfig, run: Run, n: nat)
    requires n < |run| && TimedRun(run)
    ensures var s := Started(account, connected);
            var before, after, env := StateAt(c, s, run, n), StateAt(c, s, run, n + 1), run[n].1;
            && before.calls <= after.calls <= before.calls + 1
            && (after.calls != before.calls ==>
                  && env.diskReadable
                  && (before.disk.Some? && env.wallClock >= before.disk.value.registeredAt ==>
                        env.wallClock - before.disk.value.registeredAt >= c.registerCooldown)
                  && (forall i :: 0 <= i < |before.attempts| ==>
                        before.attempts[i] + c.registerCooldown <= env.checkedAt)
                  && after.attempts == before.attempts + [env.recordedAt])
  {
    var s := Started(account, connected);
    var before, env := StateAt(c, s, run, n), run[n].1;
    EventRegistersIff(c, before, run[n].0, env);
    AttemptsStaySpaced(c, s, run, n);
    if StateAt(c, s, run, n + 1).calls != before.calls {
      forall i | 0 <= i < |before.attempts| ensures before.attempts[i] + c.registerCooldown <= env.checkedAt {
        assert before.attempts[i] <= before.attempts[|before.attempts| - 1];
      }
    }
  }
}
