/** One identity in memory, in the tunnel and on disk, over whole runs of events. */
module SupervisorIdentity {
  import opened Common
  import opened Endpoints
  import opened Recovery
  import opened Supervisor
  import opened SupervisorRuns
  import opened SupervisorStall

  /** An honest API, and handshakes that go through an endpoint the search can try. */
  predicate Honest(c: Settings, s: State, e: Event, env: Env) {
    && HonestApi(s, env)
    && (var dialled := Dialled(c, s, EventAction(c, s, e), env);
        dialled.Some? && env.endpoint.Some? ==> env.endpoint.value in Attempts(dialled.value))
  }

  predicate HonestRun(c: Settings, s: State, run: Run) {
    forall j :: 0 <= j < |run| ==> Honest(c, StateAt(c, s, run, j), run[j].0, run[j].1)
  }

  /** At every event boundary of every run. */
  lemma {:induction false} IdentityStaysCoherent(c: Settings, account: AccountFile, connected: WgConfig, run: Run, n: nat)
    requires n <= |run| && connected.owner == account.credentials
    requires HonestRun(c, Started(account, connected), run)
    ensures Coherent(StateAt(c, Started(account, connected), run, n))
    decreases n
  {
    if n > 0 {
      var s := Started(account, connected);
      IdentityStaysCoherent(c, account, connected, run, n - 1);
      assert Honest(c, StateAt(c, s, run, n - 1), run[n - 1].0, run[n - 1].1);
      HandleCoherent(c, StateAt(c, s, run, n - 1), run[n - 1].0, run[n - 1].1);
    }
  }

  /** Whenever an event replaces the tunnel, the new one is the configuration that event dialled with
      nothing changed but the peer, which is one of that configuration's attempts; and the endpoint that
      answered is the first one the next reconnect will try. */
  lemma WorkingEndpointIsKept(c: Settings, account: AccountFile, connected: WgConfig, run: Run, n: nat)
    requires n < |run| && connected.owner == account.credentials
    requires HonestRun(c, Started(account, connected), run)
    ensures var s := Started(account, connected);
            var before, after := StateAt(c, s, run, n), StateAt(c, s, run, n + 1);
            && Attempts(after.wg) != [] && Attempts(after.wg)[0] == after.tunnel.peer
            && (after.generation != before.generation ==>
                  var dialled := Dialled(c, before, EventAction(c, before, run[n].0), run[n].1);
                  && dialled.Some? && after.tunnel == dialled.value.(peer := after.tunnel.peer)
                  && after.tunnel.peer in Attempts(dialled.value))
            && (after.generation == before.generation ==> SameIdentity(after, before))
  {
    var s := Started(account, connected);
    IdentityStaysCoherent(c, account, connected, run, n + 1);
    BasesFirst(StateAt(c, s, run, n + 1).wg);
    assert Honest(c, StateAt(c, s, run, n), run[n].0, run[n].1);
    HandleInstalls(c, StateAt(c, s, run, n), run[n].0, run[n].1);
  }

  // ----- The account file

  /** The file that event `j` renamed over `account.json`, if any. */
  function RenamedAt(c: Settings, s: State, run: Run, j: nat): Option<AccountFile>
    requires j < |run|
  {
    var before := StateAt(c, s, run, j);
    Renamed(c, before, EventAction(c, before, run[j].0), run[j].1)
  }

  predicate NoRename(c: Settings, s: State, run: Run, from: nat, to: nat)
    requires to <= |run|
  {
    forall m :: from <= m < to ==> RenamedAt(c, s, run, m).None?
  }

  /** The rename at `j` left the file and memory in agreement: its save returned success, or it wrote
      the credentials in use. */
  predicate GoodRename(c: Settings, s: State, run: Run, j: nat)
    requires j < |run|
  {
    && RenamedAt(c, s, run, j).Some?
    && (run[j].1.save.Saved? || RenamedAt(c, s, run, j).value.credentials == StateAt(c, s, run, j).creds)
  }

  /** The latest rename before event `n`, if any, was a good one. */
  ghost predicate LatestRenameGood(c: Settings, s: State, run: Run, n: nat)
    requires n <= |run|
  {
    || NoRename(c, s, run, 0, n)
    || exists j: nat :: j < n && GoodRename(c, s, run, j) && NoRename(c, s, run, j + 1, n)
  }

  lemma LatestRenameStep(c: Settings, s: State, run: Run, n: nat)
    requires n < |run|
    ensures LatestRenameGood(c, s, run, n + 1) <==>
            GoodRename(c, s, run, n) || (RenamedAt(c, s, run, n).None? && LatestRenameGood(c, s, run, n))
  {
    if GoodRename(c, s, run, n) {
      assert NoRename(c, s, run, n + 1, n + 1);
    }
    if RenamedAt(c, s, run, n).None? && LatestRenameGood(c, s, run, n) && !NoRename(c, s, run, 0, n) {
      var j: nat :| j < n && GoodRename(c, s, run, j) && NoRename(c, s, run, j + 1, n);
      assert NoRename(c, s, run, j + 1, n + 1);
    }
    if LatestRenameGood(c, s, run, n + 1) && !GoodRename(c, s, run, n) && !NoRename(c, s, run, 0, n + 1) {
      var j: nat :| j < n + 1 && GoodRename(c, s, run, j) && NoRename(c, s, run, j + 1, n + 1);
      assert NoRename(c, s, run, j + 1, n);
    }
  }

  lemma DiskStep(c: Settings, s: State, run: Run, n: nat)
    requires n < |run|
    ensures DiskAgrees(StateAt(c, s, run, n + 1)) <==>
            GoodRename(c, s, run, n) || (RenamedAt(c, s, run, n).None? && DiskAgrees(StateAt(c, s, run, n)))
  {
    HandleDisk(c, StateAt(c, s, run, n), run[n].0, run[n].1);
  }

  lemma {:induction false} DiskAgreesFrom(c: Settings, s: State, run: Run, n: nat)
    requires n <= |run| && DiskAgrees(s)
    ensures DiskAgrees(StateAt(c, s, run, n)) <==> LatestRenameGood(c, s, run, n)
    decreases n
  {
    if n == 0 {
      assert NoRename(c, s, run, 0, 0);
    } else {
      DiskAgreesFrom(c, s, run, n - 1);
      LatestRenameStep(c, s, run, n - 1);
      DiskStep(c, s, run, n - 1);
      assert n - 1 + 1 == n;
    }
  }

  /** In every run, at every event boundary, `account.json` agrees with the credentials in memory exactly
      if the latest rename belongs to a save that returned success or wrote the credentials in use. */
  lemma DiskAgreesIff(c: Settings, account: AccountFile, connected: WgConfig, run: Run, n: nat)
    requires n <= |run|
    ensures DiskAgrees(StateAt(c, Started(account, connected), run, n)) <==>
            LatestRenameGood(c, Started(account, connected), run, n)
  {
    DiskAgreesFrom(c, Started(account, connected), run, n);
  }

  /** If every save is all-or-nothing, the file agrees at every event boundary. */
  lemma {:induction false} DiskStaysInAgreement(c: Settings, account: AccountFile, connected: WgConfig, run: Run, n: nat)
    requires n <= |run| && forall j :: 0 <= j < |run| ==> !run[j].1.save.FailedAfterRename?
    ensures DiskAgrees(StateAt(c, Started(account, connected), run, n))
    decreases n
  {
    if n > 0 {
      DiskStaysInAgreement(c, account, connected, run, n - 1);
      HandleDisk(c, StateAt(c, Started(account, connected), run, n - 1), run[n - 1].0, run[n - 1].1);
    }
  }

  /** A registration that handshakes and whose save fails after its rename. */
  function BadSave(c: Settings, account: AccountFile, peer: SocketAddr): Env {
    var file := AccountFile(account.credentials + 1, 0);
    Env(true, account.registeredAt + c.registerCooldown, 0, 0, 0,
        Some(Candidate(WgConfig(file.credentials, peer, []), file)), None, PoolEmpty, Some(peer), FailedAfterRename)
  }

  lemma BadSaveStep(c: Settings, s: State, account: AccountFile, peer: SocketAddr)
    requires s.disk == Some(account) && s.creds == account.credentials
    requires s.lastRecovery.None? && s.lastAttempt.None? && c.ladder.reregisterAfter == s.failures + 1
    ensures var env := BadSave(c, account, peer);
            && !DiskAgrees(Handle(c, s, ProbeFailed(0), env))
            && Honest(c, s, ProbeFailed(0), env)
  {
    var env := BadSave(c, account, peer);
    BasesFirst(env.registration.value.wg);
    assert EventAction(c, s, ProbeFailed(0)) in {Reregister, RotateIdentity};
    assert Dialled(c, s, EventAction(c, s, ProbeFailed(0)), env) == Some(env.registration.value.wg);
    assert Attempts(env.registration.value.wg)[0] == peer;
  }

  lemma IdleIsHonest(c: Settings, s: State)
    ensures Honest(c, s, ProbeFailed(0), Idle())
  {
    assert Idle().endpoint.None?;
  }

  /** On every validated ladder there is an honest run after which the file names an identity that this
      process never used: failed probes up to the re-registration tier, and one save that fails after
      its rename. */
  lemma SaveCanFailAfterRename(c: Settings, account: AccountFile, connected: WgConfig) returns (run: Run)
    requires ValidLadder(c.ladder) && connected.owner == account.credentials
    ensures TimedRun(run) && HonestRun(c, Started(account, connected), run)
    ensures !DiskAgrees(StateAt(c, Started(account, connected), run, |run|))
  {
    var s, n := Started(account, connected), c.ladder.reregisterAfter - 1;
    var idle: Run := seq(n, j requires 0 <= j < n => (ProbeFailed(0), Idle()));
    run := idle + [(ProbeFailed(0), BadSave(c, account, connected.peer))];
    assert IdleUpTo(run, n) && run[n] == (ProbeFailed(0), BadSave(c, account, connected.peer));
    IdleStates(c, s, run, n);
    ZeroTimesAreTimed(run);
    BadSaveStep(c, StateAt(c, s, run, n), account, connected.peer);
    IdlePrefixIsHonest(c, s, run, n);
  }

  lemma IdlePrefixIsHonest(c: Settings, s: State, run: Run, n: nat)
    requires |run| == n + 1 && IdleUpTo(run, n) && Honest(c, StateAt(c, s, run, n), run[n].0, run[n].1)
    ensures HonestRun(c, s, run)
  {
    forall j | 0 <= j < |run| ensures Honest(c, StateAt(c, s, run, j), run[j].0, run[j].1) {
      var before := StateAt(c, s, run, j);
      IdleIsHonest(c, before);
      assert j < n ==> run[j] == (ProbeFailed(0), Idle());
    }
  }
}
