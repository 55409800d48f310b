/** `staggered_dial` of `src/proxy/tcp.rs`: a loop over a queue of candidates and a set of attempts
    in flight, driven by completions, the stagger timer and the overall deadline. */
module StaggeredDial {
  import opened Common

  /** How an attempt ends if it is left to run; `Crashed` is a join error. */
  datatype Outcome = Connected | Refused(cause: string) | Crashed(cause: string)

  datatype DialResult<Addr> =
    | NothingToDial
    | Won(index: nat, addr: Addr)
    | TimedOut(started: nat, round: nat)
    | AllFailed(attempted: nat, detail: string)

  // ----- One request's dial, as a value

  /** `pending` is the queue of candidates not yet started; the started ones are numbered in the order
      of their start, `live` of them are in flight and `failed` have come back. */
  datatype Dial<Addr> = Dial(started: seq<Addr>, pending: seq<Addr>, live: set<nat>, failed: set<nat>)

  function Window(parallel: nat): nat { Max(parallel, 1) }

  ghost predicate DialInv<Addr>(d: Dial<Addr>, candidates: seq<Addr>, parallel: nat) {
    && d.started + d.pending == candidates && d.started != []
    && d.live !! d.failed
    && (forall i: nat :: i in d.live || i in d.failed <==> i < |d.started|)
    && |d.live| <= Window(parallel)
    && (d.live == {} ==> d.pending == [])
  }

  /** Pop the head of the queue and spawn it. */
  function Launch<Addr>(d: Dial<Addr>): Dial<Addr>
    requires d.pending != []
  {
    d.(started := d.started + [d.pending[0]], pending := d.pending[1..], live := d.live + {|d.started|})
  }

  function FirstDial<Addr>(candidates: seq<Addr>): Dial<Addr>
    requires candidates != []
  {
    Launch(Dial([], candidates, {}, {}))
  }

  predicate CanLaunch<Addr>(d: Dial<Addr>, parallel: nat) { d.pending != [] && |d.live| < Window(parallel) }

  /** A failed attempt is taken out; if it was the last one in flight the next candidate starts at
      once instead of waiting for the timer. */
  function JoinFailure<Addr>(d: Dial<Addr>, i: nat): Dial<Addr> {
    var d' := d.(live := d.live - {i}, failed := d.failed + {i});
    if d'.live == {} && d.pending != [] then Launch(d') else d'
  }

  /** Steps left before the loop must return. */
  function Measure<Addr>(d: Dial<Addr>): nat { 2 * |d.pending| + |d.live| }

  lemma PopKeepsList<Addr>(started: seq<Addr>, pending: seq<Addr>)
    requires pending != []
    ensures (started + [pending[0]]) + pending[1..] == started + pending
  {
  }

  lemma FirstDialOk<Addr>(candidates: seq<Addr>, parallel: nat)
    requires candidates != []
    ensures DialInv(FirstDial(candidates), candidates, parallel)
  {
    PopKeepsList([], candidates);
    assert FirstDial(candidates).live == {0};
  }

  lemma LaunchOk<Addr>(d: Dial<Addr>, candidates: seq<Addr>, parallel: nat)
    requires DialInv(d, candidates, parallel) && CanLaunch(d, parallel)
    ensures DialInv(Launch(d), candidates, parallel) && Measure(Launch(d)) < Measure(d)
  {
    PopKeepsList(d.started, d.pending);
    assert |d.started| !in d.live;
  }

  lemma JoinFailureOk<Addr>(d: Dial<Addr>, candidates: seq<Addr>, parallel: nat, i: nat)
    requires DialInv(d, candidates, parallel) && i in d.live
    ensures DialInv(JoinFailure(d, i), candidates, parallel) && Measure(JoinFailure(d, i)) < Measure(d)
  {
    var d' := d.(live := d.live - {i}, failed := d.failed + {i});
    assert |d'.live| == |d.live| - 1;
    assert forall j: nat :: j in d'.live || j in d'.failed <==> j < |d.started|;
    if d'.live == {} && d.pending != [] {
      PopKeepsList(d.started, d.pending);
      assert |Launch(d').live| == 1;
    }
  }

  // ----- The loop

  datatype Arm = Joined | StaggerTimer | Deadline

  ghost predicate NoneConnected(failed: set<nat>, outcome: nat -> Outcome) {
    forall i :: i in failed ==> !outcome(i).Connected?
  }

  lemma AllTriedAllFailed<Addr>(d: Dial<Addr>, candidates: seq<Addr>, parallel: nat, outcome: nat -> Outcome)
    requires DialInv(d, candidates, parallel) && d.live == {} && NoneConnected(d.failed, outcome)
    ensures d.started == candidates && forall i: nat :: i < |candidates| ==> !outcome(i).Connected?
  {
    assert d.started + [] == d.started;
    forall i: nat | i < |candidates| ensures !outcome(i).Connected? {
      assert i in d.failed;
    }
  }

  /** `JoinSet::shutdown`: every attempt is aborted and then joined, one after the other. */
  method Shutdown(live: set<nat>) returns (left: set<nat>, reaped: set<nat>)
    ensures left == {} && reaped == live
  {
    left, reaped := live, {};
    while left != {}
      invariant left + reaped == live
      decreases |left|
    {
      var i :| i in left;
      left, reaped := left - {i}, reaped + {i};
    }
  }

  // ----- What one round may do, said on the fields

  /** The timer has something to start and room to start it. */
  predicate Room<Addr>(d: Dial<Addr>, parallel: nat) {
    d.pending != [] && |d.live| < (if parallel == 0 then 1 else parallel)
  }

  /** The head of the queue was started, and takes the next number. */
  ghost predicate StartedNext<Addr>(d: Dial<Addr>, e: Dial<Addr>, live: set<nat>) {
    && d.pending != [] && e.started == d.started + [d.pending[0]] && e.pending == d.pending[1..]
    && e.live == live + {|d.started|}
  }

  /** Attempt `i` came back without a connection; if nothing else was in flight the next one was
      started at once. */
  ghost predicate CameBack<Addr>(d: Dial<Addr>, e: Dial<Addr>, i: nat, outcome: nat -> Outcome) {
    && i in d.live && !outcome(i).Connected? && e.failed == d.failed + {i}
    && if d.live == {i} && d.pending != [] then StartedNext(d, e, {})
       else e.live == d.live - {i} && e.started == d.started && e.pending == d.pending
  }

  /** A timer that fires with room starts the next candidate; in every other round that does not end
      the dial, some attempt comes back. */
  ghost predicate Round<Addr>(d: Dial<Addr>, e: Dial<Addr>, parallel: nat, outcome: nat -> Outcome, arm: Arm) {
    && !arm.Deadline?
    && if arm.StaggerTimer? && Room(d, parallel) then StartedNext(d, e, d.live) && e.failed == d.failed
       else exists i :: CameBack(d, e, i, outcome)
  }

  /** The dial so far: the first candidate alone, then one round after another. */
  ghost predicate History<Addr>(trace: seq<Dial<Addr>>, candidates: seq<Addr>, parallel: nat, outcome: nat -> Outcome, arms: nat -> Arm) {
    && candidates != [] && trace != []
    && trace[0] == Dial([candidates[0]], candidates[1..], {0}, {})
    && (forall k: nat :: k + 1 < |trace| ==> Round(trace[k], trace[k + 1], parallel, outcome, arms(k)))
  }

  lemma HistoryGrows<Addr>(trace: seq<Dial<Addr>>, e: Dial<Addr>, candidates: seq<Addr>, parallel: nat, outcome: nat -> Outcome, arms: nat -> Arm)
    requires History(trace, candidates, parallel, outcome, arms)
    requires Round(trace[|trace| - 1], e, parallel, outcome, arms(|trace| - 1))
    ensures History(trace + [e], candidates, parallel, outcome, arms)
  {
    var longer := trace + [e];
    forall k: nat | k + 1 < |longer| ensures Round(longer[k], longer[k + 1], parallel, outcome, arms(k)) {
      if k + 1 < |trace| {
        assert longer[k] == trace[k] && longer[k + 1] == trace[k + 1];
      }
    }
  }

  lemma JoinFailureIsRound<Addr>(d: Dial<Addr>, parallel: nat, outcome: nat -> Outcome, arm: Arm, i: nat)
    requires !arm.Deadline? && !(arm.StaggerTimer? && Room(d, parallel))
    requires i in d.live && !outcome(i).Connected?
    ensures CameBack(d, JoinFailure(d, i), i, outcome)
    ensures Round(d, JoinFailure(d, i), parallel, outcome, arm)
  {
    var rest := d.live - {i};
    assert d.live == rest + {i};
    assert rest == {} <==> d.live == {i};
    assert CameBack(d, JoinFailure(d, i), i, outcome);
  }

  ghost predicate CauseOf<Addr>(d: Dial<Addr>, e: Dial<Addr>, outcome: nat -> Outcome, cause: string) {
    exists i :: CameBack(d, e, i, outcome) && cause == outcome(i).cause
  }

  /** The reported cause is that of the attempt that came back last. */
  ghost predicate LastCause<Addr>(trace: seq<Dial<Addr>>, outcome: nat -> Outcome, cause: string) {
    |trace| >= 2 && CauseOf(trace[|trace| - 2], trace[|trace| - 1], outcome, cause)
  }

  /** `peak` is the largest number of attempts in flight at any time. */
  ghost predicate IsPeak<Addr>(trace: seq<Dial<Addr>>, peak: nat) {
    && (forall k :: 0 <= k < |trace| ==> |trace[k].live| <= peak)
    && (exists k :: 0 <= k < |trace| && |trace[k].live| == peak)
  }

  lemma PeakGrows<Addr>(trace: seq<Dial<Addr>>, peak: nat, e: Dial<Addr>)
    requires IsPeak(trace, peak)
    ensures IsPeak(trace + [e], Max(peak, |e.live|))
  {
    var longer := trace + [e];
    var k :| 0 <= k < |trace| && |trace[k].live| == peak;
    assert longer[k] == trace[k] && longer[|trace|] == e;
  }

  /** What a result says about the state `last` in which the loop ended, after `round` rounds. */
  ghost predicate Ends<Addr>(r: DialResult<Addr>, trace: seq<Dial<Addr>>, outcome: nat -> Outcome, arms: nat -> Arm)
    requires trace != []
  {
    var last, round := trace[|trace| - 1], |trace| - 1;
    match r
    case NothingToDial => false
    case Won(i, addr) =>
      && i in last.live && i < |last.started| && last.started[i] == addr && outcome(i).Connected?
      && !arms(round).Deadline?
    case TimedOut(started, k) => started == |last.started| && k == round && arms(round).Deadline?
    case AllFailed(attempted, detail) =>
      last.live == {} && last.pending == [] && attempted == |last.started| && LastCause(trace, outcome, detail)
  }

  /** One round that is not the deadline: a launch, or a completion that wins or fails. */
  method TakeRound<Addr>(d: Dial<Addr>, candidates: seq<Addr>, parallel: nat, outcome: nat -> Outcome, arm: Arm, detail: string)
    returns (won: Option<nat>, e: Dial<Addr>, cause: string)
    requires DialInv(d, candidates, parallel) && !(d.live == {} && d.pending == []) && !arm.Deadline?
    requires NoneConnected(d.failed, outcome)
    ensures won.Some? ==> won.value in d.live && outcome(won.value).Connected?
    ensures won.None? ==> && DialInv(e, candidates, parallel) && Measure(e) < Measure(d) && NoneConnected(e.failed, outcome)
                          && Round(d, e, parallel, outcome, arm) && (e.live == {} ==> CauseOf(d, e, outcome, cause))
  {
    won, e, cause := None, d, detail;
    if arm.StaggerTimer? && d.pending != [] && |d.live| < Max(parallel, 1) {
      LaunchOk(d, candidates, parallel);
      e := Launch(d);
    } else {
      var i :| i in d.live;
      if outcome(i).Connected? {
        won := Some(i);
      } else {
        cause := outcome(i).cause;
        JoinFailureOk(d, candidates, parallel, i);
        JoinFailureIsRound(d, parallel, outcome, arm, i);
        e := JoinFailure(d, i);
      }
    }
  }

  /** `arms(k)` is the `select!` arm that fires in round `k` and the attempt that completes is
      arbitrary; a timer that fires while its guard is off leaves only a completion. `peak` is the
      largest number of attempts ever in flight, `live` what is still in flight on return, and `trace`
      the state before each round. The candidates are started in their order, the timer always starts
      the next one when it may, and unless the deadline fires the result is a win exactly when some
      candidate accepts the connection. */
  method Run<Addr>(candidates: seq<Addr>, parallel: nat, outcome: nat -> Outcome, arms: nat -> Arm)
    returns (r: DialResult<Addr>, peak: nat, live: set<nat>, ghost trace: seq<Dial<Addr>>)
    ensures r.NothingToDial? <==> candidates == []
    ensures peak <= (if parallel == 0 then 1 else parallel) && live == {}
    ensures candidates != [] ==> History(trace, candidates, parallel, outcome, arms)
    ensures candidates != [] ==> IsPeak(trace, peak) && Ends(r, trace, outcome, arms)
    ensures forall k :: 0 <= k < |trace| ==> trace[k].started + trace[k].pending == candidates
    ensures r.Won? ==> r.index < |candidates| && candidates[r.index] == r.addr && outcome(r.index).Connected?
    ensures r.AllFailed? ==> r.attempted == |candidates|
    ensures r.AllFailed? ==> forall i: nat :: i < |candidates| ==> !outcome(i).Connected?
    ensures r.TimedOut? ==> 1 <= r.started <= |candidates| && arms(r.round).Deadline?
  {
    trace := [];
    if candidates == [] {
      return NothingToDial, 0, {}, [];
    }
    var d, detail, round := FirstDial(candidates), "no dial result", 0;
    peak := 1;
    FirstDialOk(candidates, parallel);
    trace := [d];
    assert d == Dial([candidates[0]], candidates[1..], {0}, {});
    assert |trace[0].live| == 1;
    while !(d.live == {} && d.pending == [])
      invariant DialInv(d, candidates, parallel) && round == |trace| - 1
      invariant NoneConnected(d.failed, outcome)
      invariant |d.live| <= peak <= Window(parallel)
      invariant History(trace, candidates, parallel, outcome, arms) && trace[round] == d
      invariant IsPeak(trace, peak)
      invariant Ordered(trace, candidates)
      invariant d.live == {} ==> LastCause(trace, outcome, detail)
      decreases Measure(d)
    {
      var arm := arms(round);
      if arm.Deadline? {
        var left, _ := Shutdown(d.live);
        return TimedOut(|d.started|, round), peak, left, trace;
      }
      var won, e, cause := TakeRound(d, candidates, parallel, outcome, arm, detail);
      if won.Some? {
        assert candidates[won.value] == d.started[won.value];
        var left, _ := Shutdown(d.live - {won.value});
        return Won(won.value, d.started[won.value]), peak, left, trace;
      }
      d, detail := e, cause;
      HistoryGrows(trace, d, candidates, parallel, outcome, arms);
      PeakGrows(trace, peak, d);
      OrderedGrows(trace, d, candidates);
      trace := trace + [d];
      round := round + 1;
      if |d.live| > peak {
        peak := |d.live|;
      }
    }
    AllTriedAllFailed(d, candidates, parallel, outcome);
    return AllFailed(|d.started|, detail), peak, d.live, trace;
  }

  ghost predicate Ordered<Addr>(trace: seq<Dial<Addr>>, candidates: seq<Addr>) {
    forall k :: 0 <= k < |trace| ==> trace[k].started + trace[k].pending == candidates
  }

  lemma OrderedGrows<Addr>(trace: seq<Dial<Addr>>, d: Dial<Addr>, candidates: seq<Addr>)
    requires Ordered(trace, candidates) && d.started + d.pending == candidates
    ensures Ordered(trace + [d], candidates)
  {
  }
}
