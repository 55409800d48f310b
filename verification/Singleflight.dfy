/** The singleflight protocol of `Resolver::query_record_dedup` (`src/dns.rs`) as a step system.

    A task is one call of `query_record_dedup`. Locks are held for single steps only, so every
    step below is atomic and steps of different tasks interleave freely. A leader creates exactly
    one watch channel, which is named after the leader's task number. Cancellation happens at
    await points only; a dropped leader loses its slot guard first and its sender second. */
module Singleflight {
  import opened Common

  datatype ResolveError = NoIpv4(host: string) | NoAaaa(host: string) | Backend(cause: string)

  type Answer = Result<seq<IpAddr>, ResolveError>

  /** What travels on the channel: errors are folded to a unit. */
  type Shared = Option<seq<IpAddr>>

  datatype Phase =
    | Querying                      // leader, backend query outstanding
    | Answered(res: Answer)         // leader, query returned
    | Stored(res: Answer)           // leader, cache written
    | Published(res: Answer)        // leader, value sent
    | Dropped                       // leader cancelled, guards not yet run
    | Unslotted(out: Option<Answer>)// leader, slot guard run, sender alive
    | Waiting                       // waiter on `chan`
    | FallingBack                   // waiter of a closed channel, own query outstanding
    | Done(out: Option<Answer>, shared: bool)

  /** `chan` is the task number of the leader whose channel this task owns or waits on. */
  datatype Task = Task(key: Key, chan: nat, phase: Phase)

  datatype Chan = Chan(value: Option<Shared>, senderAlive: bool)

  datatype State = State(
    tasks: seq<Task>,
    inFlight: map<Key, nat>,
    chans: map<nat, Chan>,
    stores: seq<(Key, Shared)>,    // history of cache writes
    leaderCancelled: bool,
    cancelled: set<nat>)

  datatype Action =
    | Enter(key: Key)
    | QueryReturns(t: nat, res: Answer)
    | Store(t: nat)
    | Publish(t: nat)
    | DropSlot(t: nat)
    | DropSender(t: nat)
    | Wake(t: nat)
    | FallBack(t: nat)
    | FallBackReturns(t: nat, res: Answer)
    | Cancel(t: nat)

  function Initial(): State { State([], map[], map[], [], false, {}) }

  function Fold(res: Answer): Shared { match res case Ok(rs) => Some(rs) case Err(_) => None }

  /** `neg_err`: the error a waiter rebuilds, the same as on a negative cache hit. */
  function NegErr(k: Key): ResolveError { if k.qtype == 1 then NoIpv4(k.host) else NoAaaa(k.host) }

  function Unfold(k: Key, v: Shared): Answer {
    match v case Some(rs) => Ok(rs) case None => Err(NegErr(k))
  }

  predicate IsLeader(s: State, t: nat) requires t < |s.tasks| { s.tasks[t].chan == t }

  predicate HoldsSlot(p: Phase) { p.Querying? || p.Answered? || p.Stored? || p.Published? || p.Dropped? }

  predicate SenderHeld(p: Phase) { HoldsSlot(p) || p.Unslotted? }

  predicate QueryOutstanding(p: Phase) { p.Querying? || p.FallingBack? }

  /** The answer a leader has sent on its channel, if it has. */
  function Sent(p: Phase): Option<Answer> {
    match p
    case Published(res) => Some(res)
    case Unslotted(out) => out
    case Done(out, _) => out
    case _ => None
  }

  function With(s: State, t: nat, p: Phase): State
    requires t < |s.tasks|
  {
    s.(tasks := s.tasks[t := s.tasks[t].(phase := p)])
  }

  predicate Enabled(s: State, a: Action) {
    match a
    case Enter(_) => true
    case QueryReturns(t, _) => t < |s.tasks| && s.tasks[t].phase.Querying?
    case Store(t) => t < |s.tasks| && s.tasks[t].phase.Answered?
    case Publish(t) => t < |s.tasks| && s.tasks[t].phase.Stored? && t in s.chans
    case DropSlot(t) => t < |s.tasks| && (s.tasks[t].phase.Published? || s.tasks[t].phase.Dropped?)
    case DropSender(t) => t < |s.tasks| && s.tasks[t].phase.Unslotted? && t in s.chans
    case Wake(t) =>
      && t < |s.tasks| && s.tasks[t].phase.Waiting?
      && s.tasks[t].chan in s.chans && s.chans[s.tasks[t].chan].value.Some?
    case FallBack(t) =>
      && t < |s.tasks| && s.tasks[t].phase.Waiting? && s.tasks[t].chan in s.chans
      && s.chans[s.tasks[t].chan].value.None? && !s.chans[s.tasks[t].chan].senderAlive
    case FallBackReturns(t, _) => t < |s.tasks| && s.tasks[t].phase.FallingBack?
    case Cancel(t) =>
      t < |s.tasks| && (var p := s.tasks[t].phase; p.Querying? || p.Waiting? || p.FallingBack?)
  }

  function Apply(s: State, a: Action): State
    requires Enabled(s, a)
  {
    match a
    case Enter(k) =>
      if k in s.inFlight then
        s.(tasks := s.tasks + [Task(k, s.inFlight[k], Waiting)])
      else
        var t := |s.tasks|;
        s.(tasks := s.tasks + [Task(k, t, Querying)],
           inFlight := s.inFlight[k := t], chans := s.chans[t := Chan(None, true)])
    case QueryReturns(t, res) => With(s, t, Answered(res))
    case Store(t) =>
      var res := s.tasks[t].phase.res;
      With(s, t, Stored(res)).(stores := s.stores + [(s.tasks[t].key, Fold(res))])
    case Publish(t) =>
      var res := s.tasks[t].phase.res;
      With(s, t, Published(res)).(chans := s.chans[t := s.chans[t].(value := Some(Fold(res)))])
    case DropSlot(t) =>
      With(s, t, Unslotted(Sent(s.tasks[t].phase))).(inFlight := s.inFlight - {s.tasks[t].key})
    case DropSender(t) =>
      With(s, t, Done(s.tasks[t].phase.out, false)).(chans := s.chans[t := s.chans[t].(senderAlive := false)])
    case Wake(t) =>
      With(s, t, Done(Some(Unfold(s.tasks[t].key, s.chans[s.tasks[t].chan].value.value)), true))
    case FallBack(t) => With(s, t, FallingBack)
    case FallBackReturns(t, res) => With(s, t, Done(Some(res), false))
    case Cancel(t) =>
      var s' := s.(cancelled := s.cancelled + {t});
      if s.tasks[t].phase.Querying? then With(s', t, Dropped).(leaderCancelled := true)
      else With(s', t, Done(None, false))
  }

  // ----- The invariant, one task and one slot at a time

  ghost predicate SlotOk(s: State, k: Key)
    requires k in s.inFlight
  {
    var t := s.inFlight[k];
    t < |s.tasks| && s.tasks[t].key == k && s.tasks[t].chan == t && HoldsSlot(s.tasks[t].phase)
  }

  ghost predicate LeaderOk(s: State, t: nat)
    requires t < |s.tasks|
  {
    var task := s.tasks[t];
    && t in s.chans
    && !task.phase.Waiting? && !task.phase.FallingBack?
    && (task.phase.Done? ==> !task.phase.shared)
    && (HoldsSlot(task.phase) ==> task.key in s.inFlight && s.inFlight[task.key] == t)
    && s.chans[t].senderAlive == SenderHeld(task.phase)
    && (match Sent(task.phase)
        case None => s.chans[t].value.None?
        case Some(res) => s.chans[t].value == Some(Fold(res)) && (task.key, Fold(res)) in s.stores)
    && (task.phase.Stored? ==> (task.key, Fold(task.phase.res)) in s.stores)
    && (!s.leaderCancelled && !SenderHeld(task.phase) ==> s.chans[t].value.Some?)
    && (!s.leaderCancelled && task.phase.Unslotted? ==> task.phase.out.Some?)
    && (task.phase.Dropped? ==> s.leaderCancelled && t in s.cancelled)
    && ((task.phase.Unslotted? || task.phase.Done?) && task.phase.out.None? ==> t in s.cancelled)
  }

  ghost predicate WaiterOk(s: State, t: nat)
    requires t < |s.tasks|
  {
    var task := s.tasks[t];
    && task.chan < |s.tasks| && IsLeader(s, task.chan) && s.tasks[task.chan].key == task.key
    && (task.phase.Waiting? || task.phase.FallingBack? || task.phase.Done?)
    && (task.phase.FallingBack? ==> s.leaderCancelled)
    && (task.phase.Done? && task.phase.out.None? ==> t in s.cancelled)
    && (task.phase.Done? && task.phase.shared ==>
          && task.phase.out.Some? && Sent(s.tasks[task.chan].phase).Some?
          && task.phase.out.value == Unfold(task.key, Fold(Sent(s.tasks[task.chan].phase).value)))
  }

  ghost predicate TaskOk(s: State, t: nat)
    requires t < |s.tasks|
  {
    if IsLeader(s, t) then LeaderOk(s, t) else WaiterOk(s, t)
  }

  ghost predicate Inv(s: State) {
    && (forall k :: k in s.inFlight ==> SlotOk(s, k))
    && (forall t :: 0 <= t < |s.tasks| ==> TaskOk(s, t))
  }

  // ----- Every step keeps it

  /** A new call joins the live leader of its key or becomes the leader; nobody else is touched. */
  lemma EnterKeepsInv(s: State, k: Key)
    requires Inv(s)
    ensures Inv(Apply(s, Enter(k)))
  {
    var s' := Apply(s, Enter(k));
    forall j | j in s'.inFlight ensures SlotOk(s', j) {
      if j in s.inFlight {
        assert SlotOk(s, j);
      }
    }
    forall t | 0 <= t < |s'.tasks| ensures TaskOk(s', t) {
      if t < |s.tasks| {
        assert TaskOk(s, t);
        assert s'.tasks[t] == s.tasks[t];
      } else if k in s.inFlight {
        assert SlotOk(s, k);
        assert TaskOk(s, s.inFlight[k]);
      }
    }
  }

  lemma StepKeepsInv(s: State, a: Action)
    requires Inv(s) && Enabled(s, a)
    ensures Inv(Apply(s, a))
  {
    if a.Enter? {
      EnterKeepsInv(s, a.key);
    } else {
      var s' := Apply(s, a);
      assert TaskOk(s, a.t);
      assert TaskOk(s, s.tasks[a.t].chan);
      forall j | j in s'.inFlight ensures SlotOk(s', j) {
        assert SlotOk(s, j);
      }
      forall t | 0 <= t < |s'.tasks| ensures TaskOk(s', t) {
        StepKeepsTask(s, a, t);
      }
    }
  }

  lemma StepKeepsTask(s: State, a: Action, t: nat)
    requires Inv(s) && Enabled(s, a) && !a.Enter? && t < |s.tasks|
    ensures TaskOk(Apply(s, a), t)
  {
    if IsLeader(s, t) {
      if a.t == t {
        StepKeepsOwnLeader(s, a);
      } else {
        StepKeepsOtherLeader(s, a, t);
      }
    } else {
      StepKeepsWaiter(s, a, t);
    }
  }

  lemma StepKeepsOwnLeader(s: State, a: Action)
    requires Inv(s) && Enabled(s, a) && !a.Enter? && a.t < |s.tasks| && IsLeader(s, a.t)
    ensures LeaderOk(Apply(s, a), a.t)
  {
    assert TaskOk(s, a.t);
  }

  /** In particular no guard of another task removes this leader's slot. */
  lemma StepKeepsOtherLeader(s: State, a: Action, t: nat)
    requires Inv(s) && Enabled(s, a) && !a.Enter? && t < |s.tasks| && a.t != t && IsLeader(s, t)
    ensures LeaderOk(Apply(s, a), t)
  {
    assert TaskOk(s, t) && TaskOk(s, a.t);
    var s' := Apply(s, a);
    assert s'.tasks[t] == s.tasks[t];
    assert t in s'.chans && s'.chans[t] == s.chans[t];
    assert s.stores <= s'.stores;
  }

  lemma StepKeepsWaiter(s: State, a: Action, t: nat)
    requires Inv(s) && Enabled(s, a) && !a.Enter? && t < |s.tasks| && !IsLeader(s, t)
    ensures WaiterOk(Apply(s, a), t)
  {
    assert TaskOk(s, t) && TaskOk(s, a.t) && TaskOk(s, s.tasks[t].chan);
  }

  // ----- Runs

  predicate ValidRun(s: State, run: seq<Action>)
    decreases |run|
  {
    run == [] || (Enabled(s, run[0]) && ValidRun(Apply(s, run[0]), run[1..]))
  }

  function Final(s: State, run: seq<Action>): State
    requires ValidRun(s, run)
    decreases |run|
  {
    if run == [] then s else Final(Apply(s, run[0]), run[1..])
  }

  lemma {:induction false} RunKeepsInv(s: State, run: seq<Action>)
    requires Inv(s) && ValidRun(s, run)
    ensures Inv(Final(s, run))
    decreases |run|
  {
    if run != [] {
      StepKeepsInv(s, run[0]);
      RunKeepsInv(Apply(s, run[0]), run[1..]);
    }
  }

  lemma ReachableInv(run: seq<Action>)
    requires ValidRun(Initial(), run)
    ensures Inv(Final(Initial(), run))
  {
    RunKeepsInv(Initial(), run);
  }

  // ----- What holds in every reachable state

  predicate LiveLeader(s: State, t: nat, k: Key) {
    t < |s.tasks| && IsLeader(s, t) && s.tasks[t].key == k && HoldsSlot(s.tasks[t].phase)
  }

  /** A slot exists exactly while its key has a live leader; that leader is unique and the slot
      holds its channel; and running a slot guard removes that task's own slot and no other. */
  lemma SlotOwnership(run: seq<Action>, k: Key)
    requires ValidRun(Initial(), run)
    ensures var s := Final(Initial(), run);
            && (k in s.inFlight <==> exists t :: LiveLeader(s, t, k))
            && (forall t :: LiveLeader(s, t, k) ==> k in s.inFlight && s.inFlight[k] == t)
            && (forall t: nat :: Enabled(s, DropSlot(t)) ==>
                  && LiveLeader(s, t, s.tasks[t].key)
                  && (k in s.inFlight && s.inFlight[k] != t ==>
                        k in Apply(s, DropSlot(t)).inFlight
                        && Apply(s, DropSlot(t)).inFlight[k] == s.inFlight[k])
                  && s.tasks[t].key !in Apply(s, DropSlot(t)).inFlight)
  {
    var s := Final(Initial(), run);
    ReachableInv(run);
    if k in s.inFlight {
      assert SlotOk(s, k);
      assert LiveLeader(s, s.inFlight[k], k);
    }
    forall t | LiveLeader(s, t, k) ensures k in s.inFlight && s.inFlight[k] == t {
      assert TaskOk(s, t);
    }
    forall t: nat | Enabled(s, DropSlot(t))
      ensures LiveLeader(s, t, s.tasks[t].key) && s.tasks[t].key in s.inFlight
      ensures s.inFlight[s.tasks[t].key] == t
    {
      assert TaskOk(s, t);
    }
  }

  /** No waiter is ever stranded: its channel holds a value, or has a live sender that will still
      publish or drop, or is closed so that the waiter can fall back. */
  lemma NoLostWakeUp(run: seq<Action>, t: nat)
    requires ValidRun(Initial(), run)
    requires t < |Final(Initial(), run).tasks| && Final(Initial(), run).tasks[t].phase.Waiting?
    ensures var s := Final(Initial(), run);
            || Enabled(s, Wake(t))
            || (s.tasks[t].chan < |s.tasks| && SenderHeld(s.tasks[s.tasks[t].chan].phase))
            || Enabled(s, FallBack(t))
  {
    var s := Final(Initial(), run);
    ReachableInv(run);
    assert TaskOk(s, t) && TaskOk(s, s.tasks[t].chan);
  }

  // ----- Where every answer and every cache write comes from

  /** A leader that has `res` and has not lost it. */
  predicate Carries(p: Phase, res: Answer) {
    || p == Answered(res) || p == Stored(res) || p == Published(res)
    || p == Unslotted(Some(res)) || p == Done(Some(res), false)
  }

  /** `v` is what others see of `res`: the records of a success, nothing of an error. */
  predicate Shows(res: Answer, v: Shared) {
    (res.Ok? ==> v == Some(res.value)) && (res.Err? ==> v == None)
  }

  ghost predicate TaskLinked(past: seq<Action>, s: State, t: nat)
    requires t < |s.tasks|
  {
    && (forall res :: QueryReturns(t, res) in past <==> IsLeader(s, t) && Carries(s.tasks[t].phase, res))
    && (forall res :: FallBackReturns(t, res) in past <==>
          !IsLeader(s, t) && s.tasks[t].phase == Done(Some(res), false))
  }

  ghost predicate StoreLinked(past: seq<Action>, s: State, entry: (Key, Shared)) {
    exists t: nat, res :: QueryReturns(t, res) in past && t < |s.tasks| && s.tasks[t].key == entry.0 && Shows(res, entry.1)
  }

  ghost predicate CancelLinked(past: seq<Action>, s: State) {
    && (forall t :: t in s.cancelled ==> Cancel(t) in past)
    && (s.leaderCancelled ==> LeaderWasCancelled(past, s))
  }

  ghost predicate LeaderWasCancelled(run: seq<Action>, s: State) {
    exists u: nat :: Cancel(u) in run && u < |s.tasks| && s.tasks[u].chan == u
  }

  ghost predicate Linked(past: seq<Action>, s: State) {
    && CancelLinked(past, s)
    && (forall t: nat :: t < |s.tasks| ==> TaskLinked(past, s, t))
    && (forall a :: a in past && (a.QueryReturns? || a.FallBackReturns?) ==> a.t < |s.tasks|)
    && (forall i :: 0 <= i < |s.stores| ==> StoreLinked(past, s, s.stores[i]))
  }

  lemma StepKeepsTaskLinked(past: seq<Action>, s: State, a: Action, t: nat)
    requires Inv(s) && Linked(past, s) && Enabled(s, a) && t < |Apply(s, a).tasks|
    ensures TaskLinked(past + [a], Apply(s, a), t)
  {
    if t < |s.tasks| {
      assert TaskOk(s, t) && TaskLinked(past, s, t);
      if !a.Enter? && a.t == t {
        OwnStepLinks(past, s, a);
      } else {
        assert Apply(s, a).tasks[t] == s.tasks[t];
      }
    }
  }

  lemma OwnStepLinks(past: seq<Action>, s: State, a: Action)
    requires Enabled(s, a) && !a.Enter? && TaskOk(s, a.t) && TaskLinked(past, s, a.t)
    ensures TaskLinked(past + [a], Apply(s, a), a.t)
  {
    forall res ensures QueryReturns(a.t, res) in past + [a] <==>
        QueryReturns(a.t, res) in past || a == QueryReturns(a.t, res)
    {
    }
    forall res ensures FallBackReturns(a.t, res) in past + [a] <==>
        FallBackReturns(a.t, res) in past || a == FallBackReturns(a.t, res)
    {
    }
  }

  lemma StepKeepsStoreLinked(past: seq<Action>, s: State, a: Action, i: nat)
    requires Inv(s) && Linked(past, s) && Enabled(s, a) && i < |Apply(s, a).stores|
    ensures StoreLinked(past + [a], Apply(s, a), Apply(s, a).stores[i])
  {
    var s' := Apply(s, a);
    if i < |s.stores| {
      assert StoreLinked(past, s, s.stores[i]);
      var t: nat, res :| QueryReturns(t, res) in past && t < |s.tasks| && s.tasks[t].key == s.stores[i].0
                         && Shows(res, s.stores[i].1);
      assert QueryReturns(t, res) in past + [a] && s'.tasks[t].key == s.tasks[t].key;
    } else {
      var res := s.tasks[a.t].phase.res;
      assert TaskOk(s, a.t) && TaskLinked(past, s, a.t);
      assert QueryReturns(a.t, res) in past + [a];
    }
  }

  lemma StepKeepsCancelLinked(past: seq<Action>, s: State, a: Action)
    requires Inv(s) && CancelLinked(past, s) && Enabled(s, a)
    ensures CancelLinked(past + [a], Apply(s, a))
  {
    var s' := Apply(s, a);
    if s.leaderCancelled {
      var u: nat :| Cancel(u) in past && u < |s.tasks| && s.tasks[u].chan == u;
      assert Cancel(u) in past + [a] && s'.tasks[u].chan == u;
    } else if s'.leaderCancelled {
      assert TaskOk(s, a.t);
      assert a in past + [a] && s'.tasks[a.t].chan == a.t;
    }
  }

  lemma {:induction false} RunKeepsLinked(past: seq<Action>, s: State, run: seq<Action>)
    requires Inv(s) && Linked(past, s) && ValidRun(s, run)
    ensures Linked(past + run, Final(s, run))
    decreases |run|
  {
    if run == [] {
      assert past + run == past;
    } else {
      var a, s' := run[0], Apply(s, run[0]);
      forall t: nat | t < |s'.tasks| ensures TaskLinked(past + [a], s', t) {
        StepKeepsTaskLinked(past, s, a, t);
      }
      forall i | 0 <= i < |s'.stores| ensures StoreLinked(past + [a], s', s'.stores[i]) {
        StepKeepsStoreLinked(past, s, a, i);
      }
      StepKeepsCancelLinked(past, s, a);
      StepKeepsInv(s, a);
      assert past + [a] + run[1..] == past + run;
      RunKeepsLinked(past + [a], s', run[1..]);
    }
  }

  lemma ReachableLinked(run: seq<Action>)
    requires ValidRun(Initial(), run)
    ensures Linked(run, Final(Initial(), run))
  {
    RunKeepsLinked([], Initial(), run);
    assert [] + run == run;
  }

  /** The whole way of an answer over a run. A leader returns what its own query returned and
      nothing else, a waiter that fell back what its own query returned, and nothing is ever
      written to the cache that no leader of that key was given. */
  lemma AnswersComeFromQueries(run: seq<Action>, t: nat, res: Answer)
    requires ValidRun(Initial(), run) && t < |Final(Initial(), run).tasks|
    ensures var s := Final(Initial(), run);
            var task := s.tasks[t];
            && (QueryReturns(t, res) in run && task.phase.Done? ==> task.phase == Done(Some(res), false))
            && (FallBackReturns(t, res) in run ==> task.phase == Done(Some(res), false))
            && (task.phase == Done(Some(res), false) ==>
                  QueryReturns(t, res) in run || FallBackReturns(t, res) in run)
    ensures var s := Final(Initial(), run);
            forall k, v :: (k, v) in s.stores ==>
              exists u: nat, r :: && QueryReturns(u, r) in run && u < |s.tasks| && s.tasks[u].key == k
                                  && (r.Ok? ==> v == Some(r.value)) && (r.Err? ==> v == None)
  {
    var s := Final(Initial(), run);
    ReachableInv(run);
    ReachableLinked(run);
    assert TaskOk(s, t) && TaskLinked(run, s, t);
    forall k, v | (k, v) in s.stores
      ensures exists u: nat, r :: && QueryReturns(u, r) in run && u < |s.tasks| && s.tasks[u].key == k
                                  && (r.Ok? ==> v == Some(r.value)) && (r.Err? ==> v == None)
    {
      var i :| 0 <= i < |s.stores| && s.stores[i] == (k, v);
      assert StoreLinked(run, s, s.stores[i]);
    }
  }

  /** A task that was served from a channel: its leader has the same key, the leader's query did
      return, and whatever it returned decides the answer. Records are handed on unchanged and
      are what was cached; of an error only the record type survives, and a negative entry was
      cached. */
  lemma SharedAnswersAgree(run: seq<Action>, t: nat)
    requires ValidRun(Initial(), run)
    requires var s := Final(Initial(), run);
             t < |s.tasks| && s.tasks[t].phase.Done? && s.tasks[t].phase.shared
    ensures var s := Final(Initial(), run);
            var task := s.tasks[t];
            && task.chan < |s.tasks| && task.chan != t && s.tasks[task.chan].key == task.key
            && (exists res :: QueryReturns(task.chan, res) in run)
            && (forall rs :: QueryReturns(task.chan, Ok(rs)) in run ==>
                  task.phase.out == Some(Ok(rs)) && (task.key, Some(rs)) in s.stores)
            && (forall e :: QueryReturns(task.chan, Err(e)) in run ==>
                  && (task.key, None) in s.stores
                  && (task.key.qtype == 1 ==> task.phase.out == Some(Err(NoIpv4(task.key.host))))
                  && (task.key.qtype != 1 ==> task.phase.out == Some(Err(NoAaaa(task.key.host)))))
  {
    var s := Final(Initial(), run);
    var u := s.tasks[t].chan;
    ReachableInv(run);
    ReachableLinked(run);
    assert TaskOk(s, t) && TaskOk(s, u) && TaskLinked(run, s, u);
    var res := Sent(s.tasks[u].phase).value;
    assert QueryReturns(u, res) in run;
    forall r | QueryReturns(u, r) in run ensures r == res {
      assert Carries(s.tasks[u].phase, r);
    }
  }

  /** A call that was not itself cancelled never ends without an answer. */
  lemma FinishedCallsHaveAnswers(run: seq<Action>, t: nat)
    requires ValidRun(Initial(), run)
    requires t < |Final(Initial(), run).tasks| && Final(Initial(), run).tasks[t].phase.Done?
    requires Cancel(t) !in run
    ensures Final(Initial(), run).tasks[t].phase.out.Some?
  {
    ReachableInv(run);
    ReachableLinked(run);
    assert TaskOk(Final(Initial(), run), t);
  }

  /** A value is on a channel only after its store; before it, the store has already happened. */
  lemma StoredBeforePublished(run: seq<Action>, t: nat)
    requires ValidRun(Initial(), run) && Enabled(Final(Initial(), run), Publish(t))
    ensures var s := Final(Initial(), run);
            && s.chans[t].value.None?
            && (forall rs :: s.tasks[t].phase.res == Ok(rs) ==>
                  (s.tasks[t].key, Some(rs)) in s.stores && Apply(s, Publish(t)).chans[t].value == Some(Some(rs)))
            && (s.tasks[t].phase.res.Err? ==>
                  (s.tasks[t].key, None) in s.stores && Apply(s, Publish(t)).chans[t].value == Some(None))
  {
    ReachableInv(run);
    assert TaskOk(Final(Initial(), run), t);
  }

  /** Unless some leader was cancelled, two outstanding backend queries are for different keys;
      even after cancellations, no two leaders query the same key. */
  lemma OneQueryPerKey(run: seq<Action>, t: nat, u: nat)
    requires ValidRun(Initial(), run)
    requires var s := Final(Initial(), run);
             && t < |s.tasks| && u < |s.tasks| && s.tasks[t].key == s.tasks[u].key
             && QueryOutstanding(s.tasks[t].phase) && QueryOutstanding(s.tasks[u].phase)
             && (LeaderWasCancelled(run, s) ==> IsLeader(s, t) && IsLeader(s, u))
    ensures t == u
  {
    ReachableInv(run);
    ReachableLinked(run);
    assert TaskOk(Final(Initial(), run), t) && TaskOk(Final(Initial(), run), u);
  }

  /** The condition is needed: cancel the leader of any key after a waiter has joined, and the
      waiter's own query and that of the next leader are outstanding together. */
  lemma CancelledLeaderLetsTwoQueriesRun(k: Key) returns (run: seq<Action>)
    ensures ValidRun(Initial(), run)
    ensures var s := Final(Initial(), run);
            && |s.tasks| == 3 && s.leaderCancelled
            && s.tasks[1] == Task(k, 0, FallingBack) && s.tasks[2] == Task(k, 2, Querying)
  {
    var s0 := Initial();
    var s1 := Apply(s0, Enter(k));
    var s2 := Apply(s1, Enter(k));
    var s3 := Apply(s2, Cancel(0));
    var s4 := Apply(s3, DropSlot(0));
    var s5 := Apply(s4, DropSender(0));
    var s6 := Apply(s5, FallBack(1));
    run := [];
    run := Extend(s6, Enter(k), run);
    run := Extend(s5, FallBack(1), run);
    run := Extend(s4, DropSender(0), run);
    run := Extend(s3, DropSlot(0), run);
    run := Extend(s2, Cancel(0), run);
    run := Extend(s1, Enter(k), run);
    run := Extend(s0, Enter(k), run);
  }

  lemma Extend(s: State, a: Action, run: seq<Action>) returns (longer: seq<Action>)
    requires Enabled(s, a) && ValidRun(Apply(s, a), run)
    ensures longer == [a] + run && ValidRun(s, longer) && Final(s, longer) == Final(Apply(s, a), run)
  {
    longer := [a] + run;
    assert longer[1..] == run;
  }

  // ----- Termination: nobody waits for ever

  /** Steps a task may still take. */
  function Remaining(p: Phase): nat {
    match p
    case Querying => 6
    case Answered(_) => 5
    case Stored(_) => 4
    case Published(_) => 3
    case Dropped => 3
    case Unslotted(_) => 2
    case Waiting => 2
    case FallingBack => 1
    case Done(_, _) => 0
  }

  function Work(tasks: seq<Task>): nat {
    if tasks == [] then 0 else Work(tasks[..|tasks| - 1]) + Remaining(tasks[|tasks| - 1].phase)
  }

  lemma {:induction false} WorkUpdate(tasks: seq<Task>, t: nat, task: Task)
    requires t < |tasks|
    ensures Work(tasks[t := task]) == Work(tasks) - Remaining(tasks[t].phase) + Remaining(task.phase)
  {
    var last := |tasks| - 1;
    if t == last {
      assert tasks[t := task][..last] == tasks[..last];
    } else {
      assert tasks[t := task][..last] == tasks[..last][t := task];
      WorkUpdate(tasks[..last], t, task);
    }
  }

  lemma StepDoesWork(s: State, a: Action)
    requires Inv(s) && Enabled(s, a) && !a.Enter?
    ensures Work(Apply(s, a).tasks) < Work(s.tasks)
  {
    var s' := Apply(s, a);
    WorkUpdate(s.tasks, a.t, s'.tasks[a.t]);
    assert s'.tasks == s.tasks[a.t := s'.tasks[a.t]];
  }

  /** Once callers stop arriving, at most `Work` more steps can happen. */
  lemma {:induction false} RunsAreBounded(s: State, run: seq<Action>)
    requires Inv(s) && ValidRun(s, run) && forall i :: 0 <= i < |run| ==> !run[i].Enter?
    ensures |run| <= Work(s.tasks)
    decreases |run|
  {
    if run != [] {
      StepKeepsInv(s, run[0]);
      StepDoesWork(s, run[0]);
      RunsAreBounded(Apply(s, run[0]), run[1..]);
    }
  }

  /** And they cannot stop early: while any task is unfinished, some step other than an arrival or
      a cancellation is enabled, provided outstanding backend queries may return. */
  lemma Progress(run: seq<Action>, t: nat) returns (a: Action)
    requires ValidRun(Initial(), run)
    requires t < |Final(Initial(), run).tasks| && !Final(Initial(), run).tasks[t].phase.Done?
    ensures Enabled(Final(Initial(), run), a) && !a.Enter? && !a.Cancel?
  {
    var s := Final(Initial(), run);
    ReachableInv(run);
    assert TaskOk(s, t) && TaskOk(s, s.tasks[t].chan);
    var u := if s.tasks[t].phase.Waiting? && SenderHeld(s.tasks[s.tasks[t].chan].phase)
             then s.tasks[t].chan else t;
    a := match s.tasks[u].phase
         case Querying => QueryReturns(u, Ok([]))
         case Answered(_) => Store(u)
         case Stored(_) => Publish(u)
         case Published(_) => DropSlot(u)
         case Dropped => DropSlot(u)
         case Unslotted(_) => DropSender(u)
         case Waiting => if s.chans[s.tasks[u].chan].value.Some? then Wake(u) else FallBack(u)
         case FallingBack => FallBackReturns(u, Ok([]))
         case Done(_, _) => Wake(u);
  }
}
