/** Tunnel generations in `src/tunnel.rs`: hot replacement, delayed retirement, and leases taken by
    dials that race with both. Time is a monotone integer in seconds. */
module Generations {
  import opened Common

  datatype Reason = Refresh | Recovery

  datatype Policy = Policy(drainGrace: nat, recoveryGrace: nat, maxAge: nat) {
    function GraceFor(reason: Reason): nat { if reason.Refresh? then drainGrace else recoveryGrace }
  }

  const MIN_DRAIN: nat := 30
  const DEFAULT_POLICY := Policy(300, 15, 26 * 3600)

  function RetirementDelay(age: nat, p: Policy, reason: Reason): nat {
    var grace := p.GraceFor(reason);
    Max(Min(grace, SaturatingSub(p.maxAge, age)), Min(MIN_DRAIN, grace))
  }

  /** The window is never longer than the grace nor shorter than min(30 s, grace); it is cut short
      exactly for an old generation with a long grace; and age alone never carries a generation past
      `maxAge` by more than the guaranteed minimum. */
  lemma DelayBounds(age: nat, p: Policy, reason: Reason)
    ensures var grace, delay := p.GraceFor(reason), RetirementDelay(age, p, reason);
            && Min(30, grace) <= delay <= grace
            && age + delay <= Max(p.maxAge, age + Min(30, grace))
            && (delay < grace <==> grace > 30 && age + grace > p.maxAge)
            && (delay == 0 <==> grace == 0)
  {
  }

  /** The window exactly: the grace of the reason, unless that is over 30 s and would carry the
      generation past `maxAge`; then what is left until `maxAge`, but at least 30 s. */
  lemma DelayExact(age: nat, p: Policy, reason: Reason)
    ensures var grace := if reason == Refresh then p.drainGrace else p.recoveryGrace;
            RetirementDelay(age, p, reason) ==
            if age + grace <= p.maxAge || grace <= 30 then grace
            else if age + 30 <= p.maxAge then p.maxAge - age
            else 30
  {
  }

  /** With the shipped policy a failed tunnel drains for 15 s whatever its age, and a refreshed one for
      5 min, cut down to no less than 30 s as it nears 26 h. */
  lemma DefaultWindows(age: nat)
    ensures RetirementDelay(age, DEFAULT_POLICY, Recovery) == 15
    ensures 30 <= RetirementDelay(age, DEFAULT_POLICY, Refresh) <= 300
    ensures RetirementDelay(age, DEFAULT_POLICY, Refresh) == 300 <==> age <= 26 * 3600 - 300
  {
  }

  // ----- State

  /** `swaps` counts how often the generation was taken out of the slot, `forced` how often it was
      counted as force-retired; `retiredAt` is the step of its retirement; `released` says that its
      drain timer could no longer upgrade its weak reference; `scheduled` is when its retirement was
      scheduled and until when. */
  datatype Gen = Gen(created: nat, swaps: nat, forced: nat, retiredAt: Option<nat>, released: bool,
                     scheduled: Option<(nat, nat, Reason)>) {
    predicate Retired() { retiredAt.Some? }
  }

  /** Work that a thread or timer still has to do for a generation that was swapped out. */
  datatype Duty =
    | ToSchedule(gen: nat, reason: Reason)
    | Timer(gen: nat)
    | ToForce(gen: nat)       // about to test `is_cancelled`
    | Forcing(gen: nat)       // test passed, about to cancel and count

  /** A dial, and then the connection it became. Until it is turned away or closed it holds a strong
      reference to its generation. */
  datatype Dial =
    | Loaded(gen: nat)        // snapshot taken, liveness not yet tested
    | Connecting(gen: nat)
    | Connected(gen: nat)     // connect returned, liveness not yet tested again
    | Leased(gen: nat, grantedAt: nat)
    | NotReady
    | Closed

  datatype State = State(steps: nat, now: nat, gens: seq<Gen>, current: Option<nat>,
                         duties: seq<Duty>, dials: seq<Dial>)

  datatype Action =
    | Tick
    | Replace(reason: Reason)
    | Clear
    | Schedule(d: nat)
    | TimerFires(d: nat)
    | Test(d: nat)
    | Cancel(d: nat)
    | LoadCurrent
    | TestBefore(k: nat)
    | ConnectReturns(k: nat, ok: bool)
    | TestAfter(k: nat)
    | Close(k: nat)

  function Initial(): State { State(0, 0, [Gen(0, 0, 0, None, false, None)], Some(0), [], []) }

  predicate Holds(x: Dial, g: nat) {
    (x.Loaded? || x.Connecting? || x.Connected? || x.Leased?) && x.gen == g
  }

  /** Some dial or connection still holds generation `g`, so a weak reference to it can be upgraded. */
  predicate Held(dials: seq<Dial>, g: nat) { exists k :: 0 <= k < |dials| && Holds(dials[k], g) }

  predicate Enabled(s: State, a: Action) {
    match a
    case Schedule(d) => d < |s.duties| && s.duties[d].ToSchedule? && s.duties[d].gen < |s.gens| && s.gens[s.duties[d].gen].created <= s.now
    case TimerFires(d) =>
      && d < |s.duties| && s.duties[d].Timer? && s.duties[d].gen < |s.gens|
      && s.gens[s.duties[d].gen].scheduled.Some? && s.now >= s.gens[s.duties[d].gen].scheduled.value.1
    case Test(d) => d < |s.duties| && s.duties[d].ToForce? && s.duties[d].gen < |s.gens|
    case Cancel(d) => d < |s.duties| && s.duties[d].Forcing? && s.duties[d].gen < |s.gens|
    case TestBefore(k) => k < |s.dials| && s.dials[k].Loaded? && s.dials[k].gen < |s.gens|
    case ConnectReturns(k, _) => k < |s.dials| && s.dials[k].Connecting?
    case TestAfter(k) => k < |s.dials| && s.dials[k].Connected? && s.dials[k].gen < |s.gens|
    case Close(k) => k < |s.dials|
    case _ => true
  }

  function Without(ds: seq<Duty>, d: nat): seq<Duty>
    requires d < |ds|
  {
    ds[..d] + ds[d + 1..]
  }

  /** `ArcSwap::swap`: the new content goes in, and whoever swapped owes a duty for the old one. */
  function SwapOut(s: State, next: Option<nat>, gens: seq<Gen>, why: Option<Reason>): State {
    if s.current.None? || s.current.value >= |gens| then s.(gens := gens, current := next)
    else
      var g := s.current.value;
      s.(gens := gens[g := gens[g].(swaps := gens[g].swaps + 1)], current := next,
         duties := s.duties + [if why.Some? then ToSchedule(g, why.value) else ToForce(g)])
  }

  /** The timer holds a weak reference only: it forces retirement if somebody still holds the
      generation, and has nothing left to do otherwise. */
  function FireTimer(s: State, d: nat): State
    requires Enabled(s, TimerFires(d))
  {
    var g := s.duties[d].gen;
    if Held(s.dials, g) then s.(duties := s.duties[d := ToForce(g)])
    else s.(gens := s.gens[g := s.gens[g].(released := true)], duties := Without(s.duties, d))
  }

  function Effect(p: Policy, s: State, a: Action): State
    requires Enabled(s, a)
  {
    match a
    case Tick => s.(now := s.now + 1)
    case Replace(reason) =>
      SwapOut(s, Some(|s.gens|), s.gens + [Gen(s.now, 0, 0, None, false, None)], Some(reason))
    case Clear => SwapOut(s, None, s.gens, None)
    case Schedule(d) =>
      var g, reason := s.duties[d].gen, s.duties[d].reason;
      var delay := RetirementDelay(s.now - s.gens[g].created, p, reason);
      s.(gens := s.gens[g := s.gens[g].(scheduled := Some((s.now, s.now + delay, reason)))],
         duties := s.duties[d := if delay == 0 then ToForce(g) else Timer(g)])
    case TimerFires(d) => FireTimer(s, d)
    case Test(d) =>
      s.(duties := if s.gens[s.duties[d].gen].Retired() then Without(s.duties, d)
                   else s.duties[d := Forcing(s.duties[d].gen)])
    case Cancel(d) =>
      var g := s.duties[d].gen;
      s.(gens := s.gens[g := s.gens[g].(retiredAt := Some(s.steps), forced := s.gens[g].forced + 1)],
         duties := Without(s.duties, d))
    case LoadCurrent => s.(dials := s.dials + [if s.current.Some? then Loaded(s.current.value) else NotReady])
    case TestBefore(k) =>
      var g := s.dials[k].gen;
      s.(dials := s.dials[k := if s.gens[g].Retired() then NotReady else Connecting(g)])
    case ConnectReturns(k, ok) => s.(dials := s.dials[k := if ok then Connected(s.dials[k].gen) else Closed])
    case TestAfter(k) =>
      var g := s.dials[k].gen;
      s.(dials := s.dials[k := if s.gens[g].Retired() then NotReady else Leased(g, s.steps)])
    case Close(k) => s.(dials := s.dials[k := Closed])
  }

  function Apply(p: Policy, s: State, a: Action): State
    requires Enabled(s, a)
  {
    Effect(p, s, a).(steps := s.steps + 1)
  }

  // ----- Invariant

  ghost predicate Owed(duties: seq<Duty>, g: nat) {
    exists d :: 0 <= d < |duties| && duties[d].gen == g
  }

  ghost predicate GenOk(p: Policy, s: State, g: nat)
    requires g < |s.gens|
  {
    var x := s.gens[g];
    && x.created <= s.now
    && x.swaps == (if s.current == Some(g) then 0 else 1)
    && x.forced == (if x.Retired() then 1 else 0)
    && (x.Retired() ==> x.swaps == 1 && x.retiredAt.value < s.steps)
    && (x.released ==> x.swaps == 1)
    && (x.swaps == 1 && !x.Retired() && !x.released ==> Owed(s.duties, g))
    && (x.scheduled.Some? ==>
          var (from, until, reason) := x.scheduled.value;
          && x.swaps == 1 && x.created <= from <= s.now
          && until == from + RetirementDelay(from - x.created, p, reason)
          && (x.Retired() ==> s.now >= until))
  }

  ghost predicate DutyOk(s: State, d: Duty) {
    && d.gen < |s.gens| && s.gens[d.gen].swaps == 1 && !s.gens[d.gen].Retired()
    && (d.ToSchedule? ==> s.gens[d.gen].scheduled.None?)
    && (d.Timer? ==> s.gens[d.gen].scheduled.Some?)
    && ((d.ToForce? || d.Forcing?) && s.gens[d.gen].scheduled.Some? ==> s.now >= s.gens[d.gen].scheduled.value.1)
  }

  ghost predicate DutiesOk(s: State, duties: seq<Duty>) {
    && (forall d :: 0 <= d < |duties| ==> DutyOk(s, duties[d]))
    && (forall d, e :: 0 <= d < e < |duties| ==> duties[d].gen != duties[e].gen)
  }

  /** Nobody holds a released generation, and a lease predates its generation's retirement. */
  ghost predicate DialOk(s: State, x: Dial) {
    x.NotReady? || x.Closed? || (
      && x.gen < |s.gens| && !s.gens[x.gen].released
      && (x.Leased? ==> x.grantedAt < s.steps)
      && (x.Leased? && s.gens[x.gen].Retired() ==> x.grantedAt < s.gens[x.gen].retiredAt.value))
  }

  ghost predicate Inv(p: Policy, s: State) {
    && (s.current.Some? ==> s.current.value < |s.gens|)
    && (forall g :: 0 <= g < |s.gens| ==> GenOk(p, s, g))
    && DutiesOk(s, s.duties)
    && (forall k :: 0 <= k < |s.dials| ==> DialOk(s, s.dials[k]))
  }

  // ----- Every step keeps it

  /** Appending a duty, changing its kind, or dropping another generation's keeps a retirement owed. */
  lemma OwedStays(duties: seq<Duty>, g: nat, d: nat, x: Duty)
    requires Owed(duties, g)
    ensures Owed(duties + [x], g)
    ensures d < |duties| && x.gen == duties[d].gen ==> Owed(duties[d := x], g)
    ensures d < |duties| && duties[d].gen != g ==> Owed(Without(duties, d), g)
  {
    var e :| 0 <= e < |duties| && duties[e].gen == g;
    assert (duties + [x])[e].gen == g;
    if d < |duties| && x.gen == duties[d].gen {
      assert duties[d := x][e].gen == g;
    }
    if d < |duties| && duties[d].gen != g {
      var rest := Without(duties, d);
      assert rest[if e < d then e else e - 1] == duties[e];
    }
  }

  /** Dropping the duty of a generation leaves only duties of other generations. */
  lemma DropDuty(s: State, d: nat)
    requires d < |s.duties| && DutiesOk(s, s.duties)
    ensures DutiesOk(s, Without(s.duties, d))
    ensures forall e :: 0 <= e < |Without(s.duties, d)| ==> Without(s.duties, d)[e].gen != s.duties[d].gen
  {
    var rest := Without(s.duties, d);
    forall e | 0 <= e < |rest| ensures DutyOk(s, rest[e]) && rest[e].gen != s.duties[d].gen {
      var from := if e < d then e else e + 1;
      assert rest[e] == s.duties[from];
    }
  }

  /** A step that touches only generation `g` keeps the duties owed to the others. */
  lemma OtherDutiesKeep(s: State, s': State, duties: seq<Duty>, g: nat)
    requires DutiesOk(s, duties) && |s'.gens| == |s.gens| && s'.now == s.now
    requires forall h :: 0 <= h < |s.gens| && h != g ==> s'.gens[h] == s.gens[h]
    requires forall d :: 0 <= d < |duties| ==> duties[d].gen != g
    ensures DutiesOk(s', duties)
  {
    forall d | 0 <= d < |duties| ensures DutyOk(s', duties[d]) {
      assert DutyOk(s, duties[d]);
    }
  }

  /** A step that leaves the dials alone and retires or releases at most generation `g` keeps them. */
  lemma DialsKeep(s: State, s': State, g: nat)
    requires forall k :: 0 <= k < |s.dials| ==> DialOk(s, s.dials[k])
    requires s'.dials == s.dials && s'.steps == s.steps + 1 && |s'.gens| >= |s.gens|
    requires forall h :: 0 <= h < |s.gens| && h != g ==>
               s'.gens[h].retiredAt == s.gens[h].retiredAt && s'.gens[h].released == s.gens[h].released
    requires g < |s.gens| ==> s'.gens[g].retiredAt == s.gens[g].retiredAt || s'.gens[g].retiredAt == Some(s.steps)
    requires g < |s.gens| && s'.gens[g].released ==> s.gens[g].released || !Held(s.dials, g)
    ensures forall k :: 0 <= k < |s'.dials| ==> DialOk(s', s'.dials[k])
  {
    forall k | 0 <= k < |s'.dials| ensures DialOk(s', s'.dials[k]) {
      assert DialOk(s, s.dials[k]);
      if !s.dials[k].NotReady? && !s.dials[k].Closed? {
        assert Holds(s.dials[k], s.dials[k].gen);
      }
    }
  }

  lemma SwapKeepsOwed(p: Policy, s: State, a: Action, g: nat)
    requires (a.Replace? || a.Clear?) && g < |s.gens| && (s.current.Some? ==> s.current.value < |s.gens|)
    ensures Owed(s.duties, g) ==> Owed(Apply(p, s, a).duties, g)
    ensures s.current == Some(g) ==> Owed(Apply(p, s, a).duties, g)
  {
    var s' := Apply(p, s, a);
    if s.current.Some? {
      var duty := s'.duties[|s.duties|];
      assert s'.duties == s.duties + [duty];
      if Owed(s.duties, g) {
        OwedStays(s.duties, g, 0, duty);
      }
      assert duty.gen == s.current.value;
    }
  }

  lemma SwapKeepsDuties(p: Policy, s: State, a: Action)
    requires Inv(p, s) && (a.Replace? || a.Clear?)
    ensures DutiesOk(Apply(p, s, a), Apply(p, s, a).duties)
  {
    var s' := Apply(p, s, a);
    if s.current.Some? {
      assert GenOk(p, s, s.current.value);
    }
    forall d | 0 <= d < |s'.duties| ensures DutyOk(s', s'.duties[d]) {
      if d < |s.duties| {
        assert DutyOk(s, s.duties[d]) && s'.duties[d] == s.duties[d];
      }
    }
    forall d, e | 0 <= d < e < |s'.duties| ensures s'.duties[d].gen != s'.duties[e].gen {
      assert DutyOk(s, s.duties[d]);
    }
  }

  lemma SwapKeepsInv(p: Policy, s: State, a: Action)
    requires Inv(p, s) && (a.Replace? || a.Clear?)
    ensures Inv(p, Apply(p, s, a))
  {
    var s' := Apply(p, s, a);
    forall g | 0 <= g < |s'.gens| ensures GenOk(p, s', g) {
      if g < |s.gens| {
        assert GenOk(p, s, g);
        SwapKeepsOwed(p, s, a, g);
      }
    }
    SwapKeepsDuties(p, s, a);
    DialsKeep(s, s', |s.gens|);
  }

  lemma ScheduleKeepsGen(p: Policy, s: State, d: nat, h: nat)
    requires Inv(p, s) && Enabled(s, Schedule(d)) && h < |s.gens|
    ensures GenOk(p, Apply(p, s, Schedule(d)), h)
  {
    assert DutyOk(s, s.duties[d]) && GenOk(p, s, h);
    if Owed(s.duties, h) {
      OwedStays(s.duties, h, d, Apply(p, s, Schedule(d)).duties[d]);
    }
  }

  lemma ScheduleKeepsInv(p: Policy, s: State, d: nat)
    requires Inv(p, s) && Enabled(s, Schedule(d))
    ensures Inv(p, Apply(p, s, Schedule(d)))
  {
    var s' := Apply(p, s, Schedule(d));
    var g := s.duties[d].gen;
    assert DutyOk(s, s.duties[d]) && GenOk(p, s, g);
    DelayBounds(s.now - s.gens[g].created, p, s.duties[d].reason);
    forall h | 0 <= h < |s'.gens| ensures GenOk(p, s', h) {
      ScheduleKeepsGen(p, s, d, h);
    }
    forall e | 0 <= e < |s'.duties| ensures DutyOk(s', s'.duties[e]) {
      assert DutyOk(s, s.duties[e]);
    }
    DialsKeep(s, s', g);
  }

  /** Changing the kind of one duty keeps every generation. */
  lemma RetypeKeepsGens(p: Policy, s: State, s': State, d: nat, x: Duty)
    requires Inv(p, s) && d < |s.duties| && x.gen == s.duties[d].gen
    requires s' == s.(duties := s.duties[d := x], steps := s.steps + 1)
    ensures forall h :: 0 <= h < |s'.gens| ==> GenOk(p, s', h)
  {
    forall h | 0 <= h < |s'.gens| ensures GenOk(p, s', h) {
      assert GenOk(p, s, h);
      if Owed(s.duties, h) {
        OwedStays(s.duties, h, d, x);
      }
    }
  }

  lemma RetypeKeepsInv(p: Policy, s: State, d: nat, a: Action)
    requires Inv(p, s) && Enabled(s, a) && d < |s.duties|
    requires (a == TimerFires(d) && Held(s.dials, s.duties[d].gen)) || a == Test(d)
    ensures Inv(p, Apply(p, s, a))
  {
    var s' := Apply(p, s, a);
    assert DutyOk(s, s.duties[d]);
    RetypeKeepsGens(p, s, s', d, s'.duties[d]);
    forall e | 0 <= e < |s'.duties| ensures DutyOk(s', s'.duties[e]) {
      assert DutyOk(s, s.duties[e]);
    }
    DialsKeep(s, s', s.duties[d].gen);
  }

  /** A duty is done with: its generation is retired, or nobody held it any more. */
  lemma DischargeKeepsInv(p: Policy, s: State, d: nat, a: Action)
    requires Inv(p, s) && Enabled(s, a) && d < |s.duties|
    requires (a == TimerFires(d) && !Held(s.dials, s.duties[d].gen)) || a == Cancel(d)
    ensures Inv(p, Apply(p, s, a))
  {
    var s' := Apply(p, s, a);
    var g := s.duties[d].gen;
    assert DutyOk(s, s.duties[d]);
    forall h | 0 <= h < |s'.gens| ensures GenOk(p, s', h) {
      assert GenOk(p, s, h);
      if Owed(s.duties, h) {
        OwedStays(s.duties, h, d, s.duties[d]);
      }
    }
    DropDuty(s, d);
    OtherDutiesKeep(s, s', s'.duties, g);
    DialsKeep(s, s', g);
  }

  /** The clock and the dials move; generations and duties do not. */
  lemma DialKeepsInv(p: Policy, s: State, a: Action)
    requires Inv(p, s) && Enabled(s, a)
    requires a.Tick? || a.LoadCurrent? || a.TestBefore? || a.ConnectReturns? || a.TestAfter? || a.Close?
    ensures Inv(p, Apply(p, s, a))
  {
    var s' := Apply(p, s, a);
    forall g | 0 <= g < |s'.gens| ensures GenOk(p, s', g) {
      assert GenOk(p, s, g);
    }
    forall d | 0 <= d < |s'.duties| ensures DutyOk(s', s'.duties[d]) {
      assert DutyOk(s, s.duties[d]);
    }
    forall k | 0 <= k < |s'.dials| ensures DialOk(s', s'.dials[k]) {
      if k < |s.dials| {
        assert DialOk(s, s.dials[k]);
      } else if s.current.Some? {
        assert GenOk(p, s, s.current.value);
      }
    }
  }

  /** And the slot: a replacement puts the new generation in, clearing empties it, and no other step
      touches it or the number of generations. */
  lemma StepKeepsInv(p: Policy, s: State, a: Action)
    requires Inv(p, s) && Enabled(s, a)
    ensures Inv(p, Apply(p, s, a))
    ensures var s' := Apply(p, s, a);
            && s'.current == (if a.Replace? then Some(|s.gens|) else if a.Clear? then None else s.current)
            && |s'.gens| == |s.gens| + (if a.Replace? then 1 else 0)
  {
    if a.Replace? || a.Clear? {
      SwapKeepsInv(p, s, a);
    } else if a.Schedule? {
      ScheduleKeepsInv(p, s, a.d);
    } else if a.Cancel? || (a.TimerFires? && !Held(s.dials, s.duties[a.d].gen)) {
      DischargeKeepsInv(p, s, a.d, a);
    } else if a.TimerFires? || a.Test? {
      RetypeKeepsInv(p, s, a.d, a);
    } else {
      DialKeepsInv(p, s, a);
    }
  }

  // ----- Runs

  predicate ValidRun(p: Policy, s: State, run: seq<Action>)
    decreases |run|
  {
    run == [] || (Enabled(s, run[0]) && ValidRun(p, Apply(p, s, run[0]), run[1..]))
  }

  function Final(p: Policy, s: State, run: seq<Action>): State
    requires ValidRun(p, s, run)
    decreases |run|
  {
    if run == [] then s else Final(p, Apply(p, s, run[0]), run[1..])
  }

  lemma {:induction false} RunKeepsInv(p: Policy, s: State, run: seq<Action>)
    requires Inv(p, s) && ValidRun(p, s, run)
    ensures Inv(p, Final(p, s, run))
    decreases |run|
  {
    if run != [] {
      StepKeepsInv(p, s, run[0]);
      RunKeepsInv(p, Apply(p, s, run[0]), run[1..]);
    }
  }

  /** The last swap of the run emptied the slot. */
  ghost predicate Cleared(run: seq<Action>) {
    exists i :: 0 <= i < |run| && run[i].Clear? && forall j :: i < j < |run| ==> !run[j].Replace?
  }

  function Replacements(run: seq<Action>): nat {
    if run == [] then 0 else (if run[0].Replace? then 1 else 0) + Replacements(run[1..])
  }

  ghost predicate NoReplacement(run: seq<Action>) { forall j :: 0 <= j < |run| ==> !run[j].Replace? }

  lemma ClearedStep(run: seq<Action>)
    requires run != []
    ensures Cleared(run) <==> Cleared(run[1..]) || (run[0].Clear? && NoReplacement(run[1..]))
    ensures NoReplacement(run) <==> !run[0].Replace? && NoReplacement(run[1..])
  {
    var rest := run[1..];
    assert forall j :: 0 <= j < |rest| ==> rest[j] == run[j + 1];
    assert forall j :: 1 <= j < |run| ==> run[j] == rest[j - 1];
    if Cleared(rest) {
      var i :| 0 <= i < |rest| && rest[i].Clear? && forall j :: i < j < |rest| ==> !rest[j].Replace?;
      assert run[i + 1].Clear?;
    }
    if Cleared(run) {
      var i :| 0 <= i < |run| && run[i].Clear? && forall j :: i < j < |run| ==> !run[j].Replace?;
      assert i > 0 ==> rest[i - 1].Clear?;
    }
  }

  /** Only replacements add generations, the slot holds the newest one or nothing, and it holds
      nothing exactly if the last swap cleared it. */
  lemma {:induction false} SlotOverRun(p: Policy, s: State, run: seq<Action>)
    requires Inv(p, s) && ValidRun(p, s, run) && (s.current.Some? ==> s.current.value + 1 == |s.gens|)
    ensures var s' := Final(p, s, run);
            && |s'.gens| == |s.gens| + Replacements(run)
            && (s'.current.Some? ==> s'.current.value + 1 == |s'.gens|)
            && (s'.current.None? <==> Cleared(run) || (s.current.None? && NoReplacement(run)))
    decreases |run|
  {
    if run != [] {
      StepKeepsInv(p, s, run[0]);
      SlotOverRun(p, Apply(p, s, run[0]), run[1..]);
      ClearedStep(run);
    }
  }

  /** Over every run: there is one generation more than there were replacements, and the slot holds the
      newest one unless the last swap cleared it; the current generation is never retired; a generation leaves the slot at most
      once and is counted as force-retired at most once; once its retirement is scheduled, the
      deadline is between min(30 s, grace) and grace away, its age there is at most
      max(maxAge, age at scheduling + min(30 s, grace)), and it is not retired before. */
  lemma GenerationLifecycle(p: Policy, run: seq<Action>, g: nat)
    requires ValidRun(p, Initial(), run) && g < |Final(p, Initial(), run).gens|
    ensures var s := Final(p, Initial(), run);
            var x := s.gens[g];
            && |s.gens| == 1 + Replacements(run)
            && s.current == (if Cleared(run) then None else Some(|s.gens| - 1))
            && (s.current == Some(g) ==> !x.Retired() && x.swaps == 0)
            && x.swaps <= 1 && x.forced <= 1 && (x.Retired() <==> x.forced == 1)
            && (x.scheduled.Some? ==>
                  var (from, until, reason) := x.scheduled.value;
                  && from + Min(30, p.GraceFor(reason)) <= until <= from + p.GraceFor(reason)
                  && until - x.created <= Max(p.maxAge, from - x.created + Min(30, p.GraceFor(reason)))
                  && (x.Retired() ==> s.now >= until))
  {
    var s := Final(p, Initial(), run);
    RunKeepsInv(p, Initial(), run);
    SlotOverRun(p, Initial(), run);
    assert GenOk(p, s, g);
    if s.gens[g].scheduled.Some? {
      var (from, until, reason) := s.gens[g].scheduled.value;
      DelayBounds(from - s.gens[g].created, p, reason);
    }
  }

  /** No lease outlives its generation unnoticed: a generation that left the slot and is still held by
      some dial or connection has been retired, unless its retirement is still owed. */
  lemma HeldGenerationsAreRetired(p: Policy, run: seq<Action>, g: nat)
    requires ValidRun(p, Initial(), run) && g < |Final(p, Initial(), run).gens|
    requires Final(p, Initial(), run).current != Some(g) && Held(Final(p, Initial(), run).dials, g)
    ensures var s := Final(p, Initial(), run);
            s.gens[g].Retired() || Owed(s.duties, g)
  {
    var s := Final(p, Initial(), run);
    RunKeepsInv(p, Initial(), run);
    assert GenOk(p, s, g);
    var k :| 0 <= k < |s.dials| && Holds(s.dials[k], g);
    assert DialOk(s, s.dials[k]);
  }

  /** A generation whose timer gave up is held by nobody then and at any later time. */
  lemma {:induction false} ReleasedStaysUnheld(p: Policy, s: State, run: seq<Action>, g: nat)
    requires Inv(p, s) && ValidRun(p, s, run) && g < |s.gens| && s.gens[g].released
    ensures g < |Final(p, s, run).gens| && Final(p, s, run).gens[g].released
    ensures !Held(Final(p, s, run).dials, g)
    decreases |run|
  {
    if run != [] {
      StepKeepsInv(p, s, run[0]);
      ReleasedStaysUnheld(p, Apply(p, s, run[0]), run[1..], g);
    } else {
      forall k | 0 <= k < |s.dials| ensures !Holds(s.dials[k], g) {
        assert DialOk(s, s.dials[k]);
      }
    }
  }

  /** A retirement that is owed can always be carried out: a duty at once, a timer from its deadline
      on, and the forced one always finds the generation unretired. */
  lemma DutiesNeverStick(p: Policy, run: seq<Action>, d: nat)
    requires ValidRun(p, Initial(), run) && d < |Final(p, Initial(), run).duties|
    ensures var s := Final(p, Initial(), run);
            match s.duties[d]
            case ToSchedule(_, _) => Enabled(s, Schedule(d))
            case Timer(g) =>
              && g < |s.gens| && s.gens[g].scheduled.Some?
              && (Enabled(s, TimerFires(d)) <==> s.now >= s.gens[g].scheduled.value.1)
            case ToForce(g) => Enabled(s, Test(d)) && !s.gens[g].Retired()
            case Forcing(g) => Enabled(s, Cancel(d)) && Apply(p, s, Cancel(d)).gens[g].Retired()
  {
    RunKeepsInv(p, Initial(), run);
    var s := Final(p, Initial(), run);
    assert DutyOk(s, s.duties[d]);
    assert GenOk(p, s, s.duties[d].gen);
  }

  /** Over every run: a lease on a retired generation was granted before that retirement, so no client
      is ever handed a connection that is already cut; and a dial whose generation is still current
      passes both tests. */
  lemma LeasesPredateRetirement(p: Policy, run: seq<Action>, k: nat)
    requires ValidRun(p, Initial(), run) && k < |Final(p, Initial(), run).dials|
    ensures var s := Final(p, Initial(), run);
            var x := s.dials[k];
            && (x.Leased? ==> && x.gen < |s.gens| && x.grantedAt < s.steps
                              && (s.gens[x.gen].Retired() ==> x.grantedAt < s.gens[x.gen].retiredAt.value))
            && (x.Loaded? && s.current == Some(x.gen) ==>
                  Enabled(s, TestBefore(k)) && Apply(p, s, TestBefore(k)).dials[k] == Connecting(x.gen))
            && (x.Connected? && s.current == Some(x.gen) ==>
                  Enabled(s, TestAfter(k)) && Apply(p, s, TestAfter(k)).dials[k] == Leased(x.gen, s.steps))
  {
    RunKeepsInv(p, Initial(), run);
    var s := Final(p, Initial(), run);
    assert DialOk(s, s.dials[k]);
    if s.current.Some? {
      assert GenOk(p, s, s.current.value);
    }
  }

  // ----- What each step does, from every reachable state

  /** A replacement puts in a new generation, created now and untouched, and owes exactly one new
      duty: to schedule the old one, if there was one, for the reason given. */
  lemma ReplacementPutsIn(p: Policy, run: seq<Action>, reason: Reason)
    requires ValidRun(p, Initial(), run)
    ensures var s := Final(p, Initial(), run);
            var s' := Apply(p, s, Replace(reason));
            && s'.current == Some(|s.gens|) && |s'.gens| == |s.gens| + 1
            && s'.gens[|s.gens|] == Gen(s.now, 0, 0, None, false, None)
            && s'.now == s.now && s'.dials == s.dials
            && match s.current
               case None => s'.duties == s.duties && s'.gens[..|s.gens|] == s.gens
               case Some(g) =>
                 && g < |s.gens| && s'.duties == s.duties + [ToSchedule(g, reason)]
                 && s'.gens[..|s.gens|] == s.gens[g := s.gens[g].(swaps := 1)]
  {
    RunKeepsInv(p, Initial(), run);
    var s := Final(p, Initial(), run);
    if s.current.Some? {
      assert GenOk(p, s, s.current.value);
    }
  }

  /** Clearing empties the slot and owes the forced retirement of what was in it. */
  lemma ClearingForcesRetirement(p: Policy, run: seq<Action>)
    requires ValidRun(p, Initial(), run)
    ensures var s := Final(p, Initial(), run);
            var s' := Apply(p, s, Clear);
            && s'.current == None && s'.now == s.now && s'.dials == s.dials
            && match s.current
               case None => s'.duties == s.duties && s'.gens == s.gens
               case Some(g) =>
                 && g < |s.gens| && s'.duties == s.duties + [ToForce(g)]
                 && s'.gens == s.gens[g := s.gens[g].(swaps := 1)]
  {
    RunKeepsInv(p, Initial(), run);
    var s := Final(p, Initial(), run);
    if s.current.Some? {
      assert GenOk(p, s, s.current.value);
    }
  }

  /** A retirement is scheduled for the exact window after the moment of scheduling, for the reason of
      the replacement; nothing else about any generation changes. */
  lemma SchedulingSetsDeadline(p: Policy, run: seq<Action>, d: nat)
    requires ValidRun(p, Initial(), run) && d < |Final(p, Initial(), run).duties|
    requires Final(p, Initial(), run).duties[d].ToSchedule?
    ensures var s := Final(p, Initial(), run);
            var g, reason := s.duties[d].gen, s.duties[d].reason;
            && g < |s.gens| && s.gens[g].created <= s.now
            && (var s' := Apply(p, s, Schedule(d));
                var delay := RetirementDelay(s.now - s.gens[g].created, p, reason);
                && s'.gens == s.gens[g := s.gens[g].(scheduled := Some((s.now, s.now + delay, reason)))]
                && s'.duties == s.duties[d := if delay == 0 then ToForce(g) else Timer(g)])
  {
    RunKeepsInv(p, Initial(), run);
    var s := Final(p, Initial(), run);
    assert DutyOk(s, s.duties[d]);
    assert GenOk(p, s, s.duties[d].gen);
  }

  /** A timer that fires turns into a forced retirement exactly if its generation is still held; a
      forced retirement always finds it unretired, cancels it and counts it. */
  lemma TimersForceRetirement(p: Policy, run: seq<Action>, d: nat)
    requires ValidRun(p, Initial(), run) && d < |Final(p, Initial(), run).duties|
    ensures var s := Final(p, Initial(), run);
            var g, rest := s.duties[d].gen, s.duties[..d] + s.duties[d + 1..];
            && g < |s.gens|
            && (Enabled(s, TimerFires(d)) ==>
                  var s' := Apply(p, s, TimerFires(d));
                  if exists k :: 0 <= k < |s.dials| && Holds(s.dials[k], g)
                  then s'.gens == s.gens && s'.duties == s.duties[d := ToForce(g)]
                  else s'.gens == s.gens[g := s.gens[g].(released := true)] && s'.duties == rest)
            && (s.duties[d].ToForce? ==>
                  Apply(p, s, Test(d)).gens == s.gens && Apply(p, s, Test(d)).duties == s.duties[d := Forcing(g)])
            && (s.duties[d].Forcing? ==>
                  && Apply(p, s, Cancel(d)).duties == rest
                  && Apply(p, s, Cancel(d)).gens == s.gens[g := s.gens[g].(retiredAt := Some(s.steps), forced := 1)])
  {
    RunKeepsInv(p, Initial(), run);
    var s := Final(p, Initial(), run);
    assert DutyOk(s, s.duties[d]);
    assert GenOk(p, s, s.duties[d].gen);
  }

  /** A dial takes the generation in the slot, or none when it is empty; it is turned away at either
      test exactly if its generation has been retired by then, and otherwise goes on with that
      same generation. */
  lemma DialsFollowTheSlot(p: Policy, run: seq<Action>, k: nat)
    requires ValidRun(p, Initial(), run)
    ensures var s := Final(p, Initial(), run);
            && Apply(p, s, LoadCurrent).dials == s.dials + [match s.current case None => NotReady case Some(g) => Loaded(g)]
            && (k < |s.dials| ==>
                  match s.dials[k]
                  case Loaded(g) =>
                    g < |s.gens| && Apply(p, s, TestBefore(k)).dials ==
                                    s.dials[k := if s.gens[g].retiredAt == None then Connecting(g) else NotReady]
                  case Connecting(g) =>
                    && Apply(p, s, ConnectReturns(k, true)).dials == s.dials[k := Connected(g)]
                    && Apply(p, s, ConnectReturns(k, false)).dials == s.dials[k := Closed]
                  case Connected(g) =>
                    g < |s.gens| && Apply(p, s, TestAfter(k)).dials ==
                                    s.dials[k := if s.gens[g].retiredAt == None then Leased(g, s.steps) else NotReady]
                  case Leased(g, _) => Apply(p, s, Close(k)).dials == s.dials[k := Closed]
                  case _ => true)
  {
    RunKeepsInv(p, Initial(), run);
    var s := Final(p, Initial(), run);
    if k < |s.dials| {
      assert DialOk(s, s.dials[k]);
    }
  }
}
