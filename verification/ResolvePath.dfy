/** The path of one resolver call through cache and singleflight (`resolve_dual` of `src/dns.rs`): the
    cache is consulted first and the in-flight table later, under different locks. The join of the two
    step systems says exactly when a key that is already cached is queried again. */
module ResolvePath {
  import opened Common
  import S = Singleflight
  import C = DnsCache

  /** A call whose lookup missed when `seen` values had been stored, and whether it has gone on to the
      in-flight table. */
  datatype Call = Call(key: Key, seen: nat, entered: bool)

  datatype State = State(flight: S.State, cache: C.View, calls: seq<Call>)

  datatype Action =
    | Look(key: Key, now: nat)
    | EnterFlight(i: nat)
    | Flight(a: S.Action, now: nat, victim: Key)

  function Initial(): State { State(S.Initial(), C.Empty(), []) }

  /** The cache write that a leader's store step performs. */
  function StoreOp(s: State, a: S.Action, now: nat, victim: Key): C.Op
    requires a.Store? && S.Enabled(s.flight, a)
  {
    C.Store(s.flight.tasks[a.t].key, S.Fold(s.flight.tasks[a.t].phase.res), now, victim)
  }

  predicate Enabled(p: C.Policy, s: State, x: Action) {
    match x
    case Look(_, now) => now >= s.cache.clock
    case EnterFlight(i) => i < |s.calls| && !s.calls[i].entered
    case Flight(a, now, victim) =>
      && !a.Enter? && S.Enabled(s.flight, a)
      && (a.Store? ==> C.Enabled(p, s.cache, StoreOp(s, a, now, victim)))
  }

  function Apply(p: C.Policy, s: State, x: Action): State
    requires Enabled(p, s, x)
  {
    match x
    case Look(k, now) =>
      State(s.flight, C.AfterLookup(s.cache, k, now),
            if C.Hit(s.cache, k, now).Some? then s.calls else s.calls + [Call(k, |s.cache.log|, false)])
    case EnterFlight(i) =>
      State(S.Apply(s.flight, S.Enter(s.calls[i].key)), s.cache, s.calls[i := s.calls[i].(entered := true)])
    case Flight(a, now, victim) =>
      State(S.Apply(s.flight, a), if a.Store? then C.Apply(p, s.cache, StoreOp(s, a, now, victim)) else s.cache, s.calls)
  }

  // ----- Invariant

  /** The cache's log and the protocol's log are one. */
  ghost predicate SameLog(s: State) {
    && |s.cache.log| == |s.flight.stores|
    && forall i :: 0 <= i < |s.cache.log| ==> (s.cache.log[i].key, s.cache.log[i].records) == s.flight.stores[i]
  }

  ghost predicate StoredSince(log: seq<C.Stored>, k: Key, seen: nat) {
    exists j :: seen <= j < |log| && log[j].key == k
  }

  /** A key that missed is only in the cache again if it was stored after the miss. */
  ghost predicate CallOk(s: State, call: Call) {
    call.seen <= |s.cache.log| && (call.key in s.cache.entries ==> StoredSince(s.cache.log, call.key, call.seen))
  }

  ghost predicate Inv(p: C.Policy, s: State) {
    && S.Inv(s.flight) && C.Inv(p, s.cache) && SameLog(s)
    && forall i :: 0 <= i < |s.calls| ==> CallOk(s, s.calls[i])
  }

  lemma LookKeepsInv(p: C.Policy, s: State, k: Key, now: nat)
    requires Inv(p, s) && Enabled(p, s, Look(k, now))
    ensures Inv(p, Apply(p, s, Look(k, now)))
  {
    C.OpKeepsInv(p, s.cache, C.Lookup(k, now));
    var s' := Apply(p, s, Look(k, now));
    forall i | 0 <= i < |s'.calls| ensures CallOk(s', s'.calls[i]) {
      if i < |s.calls| {
        assert CallOk(s, s.calls[i]);
      }
    }
  }

  lemma StoringKeepsCall(p: C.Policy, s: State, op: C.Op, call: Call)
    requires op.Store? && CallOk(s, call)
    ensures CallOk(s.(cache := C.Apply(p, s.cache, op)), call)
  {
    var log := C.Apply(p, s.cache, op).log;
    assert log[|s.cache.log|].key == op.key;
    if call.key in s.cache.entries {
      var j :| call.seen <= j < |s.cache.log| && s.cache.log[j].key == call.key;
      assert log[j].key == call.key;
    }
  }

  lemma FlightKeepsInv(p: C.Policy, s: State, a: S.Action, now: nat, victim: Key)
    requires Inv(p, s) && Enabled(p, s, Flight(a, now, victim))
    ensures Inv(p, Apply(p, s, Flight(a, now, victim)))
  {
    S.StepKeepsInv(s.flight, a);
    var s' := Apply(p, s, Flight(a, now, victim));
    if a.Store? {
      var op := StoreOp(s, a, now, victim);
      C.OpKeepsInv(p, s.cache, op);
      forall i | 0 <= i < |s'.calls| ensures CallOk(s', s'.calls[i]) {
        StoringKeepsCall(p, s, op, s.calls[i]);
      }
    } else {
      forall i | 0 <= i < |s'.calls| ensures CallOk(s', s'.calls[i]) {
        assert CallOk(s, s.calls[i]);
      }
    }
  }

  lemma StepKeepsInv(p: C.Policy, s: State, x: Action)
    requires Inv(p, s) && Enabled(p, s, x)
    ensures Inv(p, Apply(p, s, x))
  {
    match x
    case Look(k, now) => LookKeepsInv(p, s, k, now);
    case EnterFlight(i) =>
      S.StepKeepsInv(s.flight, S.Enter(s.calls[i].key));
      assert CallOk(s, s.calls[i]);
    case Flight(a, now, victim) => FlightKeepsInv(p, s, a, now, victim);
  }

  // ----- Runs

  predicate ValidRun(p: C.Policy, s: State, run: seq<Action>)
    decreases |run|
  {
    run == [] || (Enabled(p, s, run[0]) && ValidRun(p, Apply(p, s, run[0]), run[1..]))
  }

  function Final(p: C.Policy, s: State, run: seq<Action>): State
    requires ValidRun(p, s, run)
    decreases |run|
  {
    if run == [] then s else Final(p, Apply(p, s, run[0]), run[1..])
  }

  lemma {:induction false} RunKeepsInv(p: C.Policy, s: State, run: seq<Action>)
    requires Inv(p, s) && ValidRun(p, s, run)
    ensures Inv(p, Final(p, s, run))
    decreases |run|
  {
    if run != [] {
      StepKeepsInv(p, s, run[0]);
      RunKeepsInv(p, Apply(p, s, run[0]), run[1..]);
    }
  }

  /** The call would find its key in the cache if it looked again. */
  predicate CachedByNow(s: State, i: nat, now: nat)
    requires i < |s.calls|
  {
    C.Hit(s.cache, s.calls[i].key, now).Some?
  }

  /** The call's next step makes it a leader, which starts a backend query. */
  predicate WillQuery(s: State, i: nat)
    requires i < |s.calls|
  {
    s.calls[i].key !in s.flight.inFlight
  }

  /** In every reachable state, a call between its missed lookup and the in-flight table is about to query
      a key that is cached by now only if that key was stored in between and its leader has already given
      up the slot; while nothing was evicted, exactly if the latest store is still fresh. */
  lemma CachedKeyIsQueriedAgainIff(p: C.Policy, run: seq<Action>, i: nat, now: nat)
    requires ValidRun(p, Initial(), run)
    requires var s := Final(p, Initial(), run); i < |s.calls| && !s.calls[i].entered && now >= s.cache.clock
    ensures var s := Final(p, Initial(), run);
            var k := s.calls[i].key;
            && (CachedByNow(s, i, now) ==> StoredSince(s.cache.log, k, s.calls[i].seen))
            && (!s.cache.evicted ==>
                  (CachedByNow(s, i, now) <==>
                     match C.LastStore(s.cache.log, k)
                     case None => false
                     case Some(e) => now < e.at + if e.records.Some? then p.cacheTtl else p.negativeTtl))
            && (WillQuery(s, i) <==> forall t: nat :: !S.LiveLeader(s.flight, t, k))
  {
    var s := Final(p, Initial(), run);
    RunKeepsInv(p, Initial(), run);
    assert CallOk(s, s.calls[i]);
    CacheHits(p, s.cache, s.calls[i].key, now);
    SlotIffLeader(s.flight, s.calls[i].key);
  }

  lemma CacheHits(p: C.Policy, v: C.View, k: Key, now: nat)
    requires C.Inv(p, v) && now >= v.clock
    ensures !v.evicted ==> (C.Hit(v, k, now).Some? <==> C.FreshAt(p, C.LastStore(v.log, k), now))
  {
    if k in v.entries {
      assert C.EntryOk(p, v, k);
    }
  }

  lemma SlotIffLeader(f: S.State, k: Key)
    requires S.Inv(f)
    ensures k !in f.inFlight <==> forall t: nat :: !S.LiveLeader(f, t, k)
  {
    if k in f.inFlight {
      assert S.SlotOk(f, k);
      assert S.LiveLeader(f, f.inFlight[k], k);
    }
    forall t: nat | S.LiveLeader(f, t, k) ensures k in f.inFlight {
      assert S.TaskOk(f, t);
    }
  }

  // ----- The window is real

  /** Two calls miss together; the first leads, stores, publishes and drops its slot before the second
      reaches the in-flight table. */
  function Race(k: Key): seq<Action> {
    [Look(k, 0), Look(k, 0), EnterFlight(0),
     Flight(S.QueryReturns(0, Ok([])), 0, k), Flight(S.Store(0), 0, k), Flight(S.Publish(0), 0, k), Flight(S.DropSlot(0), 0, k)]
  }

  lemma {:induction false} ValidRunSnoc(p: C.Policy, s: State, run: seq<Action>, x: Action)
    requires ValidRun(p, s, run) && Enabled(p, Final(p, s, run), x)
    ensures ValidRun(p, s, run + [x]) && Final(p, s, run + [x]) == Apply(p, Final(p, s, run), x)
    decreases |run|
  {
    if run == [] {
      assert [x][1..] == [];
    } else {
      assert (run + [x])[1..] == run[1..] + [x];
      ValidRunSnoc(p, Apply(p, s, run[0]), run[1..], x);
    }
  }

  /** With a positive TTL the second call then queries a key whose answer is in the cache. */
  lemma RaceQueriesAgain(p: C.Policy, k: Key)
    requires p.cacheTtl > 0
    ensures ValidRun(p, Initial(), Race(k))
    ensures var s := Final(p, Initial(), Race(k));
            |s.calls| == 2 && !s.calls[1].entered && WillQuery(s, 1) && CachedByNow(s, 1, 0)
  {
    var r := Race(k);
    assert r[..0] == [];
    for i := 0 to 7
      invariant ValidRun(p, Initial(), r[..i])
      invariant i == 0 ==> Final(p, Initial(), r[..i]) == Initial()
      invariant i >= 1 ==> RaceAt(k, i, p, Final(p, Initial(), r[..i]))
    {
      assert r[..i + 1] == r[..i] + [r[i]];
      RaceStep(p, k, i, Final(p, Initial(), r[..i]));
      ValidRunSnoc(p, Initial(), r[..i], r[i]);
    }
    assert r[..7] == r;
  }

  function RacePhase(i: nat): S.Phase {
    if i <= 3 then S.Querying else if i == 4 then S.Answered(Ok([])) else if i == 5 then S.Stored(Ok([]))
    else if i == 6 then S.Published(Ok([])) else S.Unslotted(Some(Ok([])))
  }

  /** The state after `i` steps of the race. */
  ghost predicate RaceAt(k: Key, i: nat, p: C.Policy, s: State) {
    && s.calls == (if i == 1 then [Call(k, 0, false)] else [Call(k, 0, i >= 3), Call(k, 0, false)])
    && s.cache.clock == 0 && !s.cache.evicted
    && (if i >= 5 then s.cache.entries == map[k := C.Entry(Some([]), p.cacheTtl)] else s.cache.entries == map[] && s.cache.log == [])
    && (if i <= 2 then s.flight == S.Initial()
        else && s.flight.tasks == [S.Task(k, 0, RacePhase(i))] && 0 in s.flight.chans
             && s.flight.inFlight == if i <= 6 then map[k := 0] else map[])
  }

  lemma RaceStep(p: C.Policy, k: Key, i: nat, s: State)
    requires i < 7 && p.cacheTtl > 0 && (if i == 0 then s == Initial() else RaceAt(k, i, p, s))
    ensures Enabled(p, s, Race(k)[i]) && RaceAt(k, i + 1, p, Apply(p, s, Race(k)[i]))
  {
    var x := Race(k)[i];
    if i == 4 {
      assert |s.cache.entries| == 0;
      assert map[][k := C.Entry(Some([]), p.cacheTtl)] == map[k := C.Entry(Some([]), p.cacheTtl)];
    } else if i == 6 {
      assert map[k := 0] - {k} == map[];
    }
  }
}
