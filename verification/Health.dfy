/** The health verdict (`src/health.rs`) and the egress counters that feed it (`src/egress.rs`).
    The failure ratio is taken exactly: `failed / total >= 0.8` is `5 * failed >= 4 * total`, which
    the program's floating-point test decides alike for counts below 2^50. */
module Health {
  import opened Common

  const MIN_SAMPLES: nat := 20
  const DEGRADED_ROUNDS: nat := 2
  const U32_MAX: nat := 0xFFFF_FFFF
  const U64: nat := 0x1_0000_0000_0000_0000

  datatype Window = Window(ok: nat, failed: nat)

  predicate IsDegraded(w: Window) {
    var total := SaturatingAdd(w.ok, w.failed);
    total >= MIN_SAMPLES && 5 * w.failed >= 4 * total
  }

  /** The test by numbers, for counts as the program holds them: at least 20 dials, and at least four
      failures for every success; a total that saturates is taken as 2^64 - 1. */
  lemma DegradedIff(w: Window)
    requires w.ok <= 0xFFFF_FFFF_FFFF_FFFF && w.failed <= 0xFFFF_FFFF_FFFF_FFFF
    ensures w.ok + w.failed <= 0xFFFF_FFFF_FFFF_FFFF ==>
              (IsDegraded(w) <==> w.ok + w.failed >= 20 && w.failed >= 4 * w.ok)
    ensures w.ok + w.failed > 0xFFFF_FFFF_FFFF_FFFF ==>
              (IsDegraded(w) <==> 5 * w.failed >= 4 * 0xFFFF_FFFF_FFFF_FFFF)
  {
  }

  // ----- Probe rounds

  datatype Round = Round(handshakeStale: bool, quorum: bool, window: Window)

  datatype Verdict = HandshakeStale | QuorumFailed | EgressDegraded | Healthy

  /** The verdict of round `i`, said without the counter: the egress signal decides only when the
      other two are good, and then exactly when this window and the previous one are both degraded
      and the previous round did not already raise it. */
  function Expected(rounds: seq<Round>, verdicts: seq<Verdict>, i: nat): Verdict
    requires i < |rounds| && i <= |verdicts|
  {
    if rounds[i].handshakeStale then HandshakeStale
    else if !rounds[i].quorum then QuorumFailed
    else if i >= 1 && IsDegraded(rounds[i].window) && IsDegraded(rounds[i - 1].window) && !verdicts[i - 1].EgressDegraded?
    then EgressDegraded
    else Healthy
  }

  method ProbeLoop(rounds: seq<Round>) returns (verdicts: seq<Verdict>)
    ensures |verdicts| == |rounds|
    ensures forall i: nat :: i < |rounds| ==> verdicts[i] == Expected(rounds, verdicts, i)
    ensures forall i: nat :: i < |rounds| ==>
              && (verdicts[i] == HandshakeStale <==> rounds[i].handshakeStale)
              && (verdicts[i] == QuorumFailed <==> !rounds[i].handshakeStale && !rounds[i].quorum)
  {
    verdicts := [];
    var degradedRounds := 0;
    for i := 0 to |rounds|
      invariant |verdicts| == i && 0 <= degradedRounds <= U32_MAX
      invariant forall j: nat :: j < i ==> verdicts[j] == Expected(rounds, verdicts, j)
      invariant degradedRounds >= 1 <==>
                i >= 1 && IsDegraded(rounds[i - 1].window) && !verdicts[i - 1].EgressDegraded?
    {
      var r := rounds[i];
      degradedRounds := if IsDegraded(r.window) then Min(degradedRounds + 1, U32_MAX) else 0;
      var egressDegraded := degradedRounds >= DEGRADED_ROUNDS;
      var v := Healthy;
      if r.handshakeStale {
        v := HandshakeStale;
      } else if !r.quorum {
        v := QuorumFailed;
      } else if egressDegraded {
        degradedRounds := 0;
        v := EgressDegraded;
      }
      verdicts := verdicts + [v];
    }
  }

  /** Egress failures need two degraded windows in a row and are never on adjacent rounds. */
  lemma EgressFailuresAreApart(rounds: seq<Round>, verdicts: seq<Verdict>, i: nat)
    requires |verdicts| == |rounds| && i < |rounds| && verdicts[i].EgressDegraded?
    requires forall j: nat :: j < |rounds| ==> verdicts[j] == Expected(rounds, verdicts, j)
    ensures i >= 1 && IsDegraded(rounds[i - 1].window) && IsDegraded(rounds[i].window)
    ensures !verdicts[i - 1].EgressDegraded? && (i + 1 < |rounds| ==> !verdicts[i + 1].EgressDegraded?)
  {
    if i + 1 < |rounds| {
      assert verdicts[i + 1] == Expected(rounds, verdicts, i + 1);
    }
  }

  /** A selective egress fault is not missed: if windows stay degraded while handshake and probes are
      good, one of any two consecutive rounds after the first raises it. */
  lemma PersistentFaultIsRaised(rounds: seq<Round>, verdicts: seq<Verdict>, i: nat)
    requires |verdicts| == |rounds| && 1 <= i && i + 1 < |rounds|
    requires forall j: nat :: j < |rounds| ==> verdicts[j] == Expected(rounds, verdicts, j)
    requires forall j: nat :: i - 1 <= j <= i + 1 ==>
               !rounds[j].handshakeStale && rounds[j].quorum && IsDegraded(rounds[j].window)
    ensures verdicts[i].EgressDegraded? || verdicts[i + 1].EgressDegraded?
  {
    assert verdicts[i + 1] == Expected(rounds, verdicts, i + 1);
  }

  /** The targets among the first `n` that answered. */
  function Answering(succeeded: seq<bool>, n: nat): set<nat>
    requires n <= |succeeded|
  {
    set i: nat | i < n && succeeded[i]
  }

  /** `probe_targets`: every target is awaited, and the count of those that answered decides. */
  method Quorum(succeeded: seq<bool>, minSuccesses: nat) returns (ok: bool)
    ensures ok <==> |Answering(succeeded, |succeeded|)| >= minSuccesses
  {
    var successes := 0;
    for i := 0 to |succeeded|
      invariant successes == |Answering(succeeded, i)|
    {
      if succeeded[i] {
        assert Answering(succeeded, i + 1) == Answering(succeeded, i) + {i};
        successes := successes + 1;
      } else {
        assert Answering(succeeded, i + 1) == Answering(succeeded, i);
      }
    }
    return successes >= minSuccesses;
  }

  // ----- Egress counters: `record` interleaved with the two swaps of `take_window`

  /** `taking` is the success count already swapped out by a `take_window` in progress; `recorded`
      counts every dial recorded so far and `wraps` how often each live counter ran over. */
  datatype Counters = Counters(ok: nat, failed: nat, taking: Option<nat>, windows: seq<Window>,
                               recorded: Window, wraps: Window)

  datatype Step = Record(success: bool) | SwapOk | SwapFailed

  function Fresh(): Counters { Counters(0, 0, None, [], Window(0, 0), Window(0, 0)) }

  predicate Enabled(s: Counters, a: Step) {
    match a case Record(_) => true case SwapOk => s.taking.None? case SwapFailed => s.taking.Some?
  }

  /** `fetch_add` wraps at 2^64. */
  function FetchAdd(x: nat): (nat, nat) { if x + 1 == U64 then (0, 1) else (x + 1, 0) }

  function Apply(s: Counters, a: Step): Counters
    requires Enabled(s, a)
  {
    match a
    case Record(true) =>
      var (x, over) := FetchAdd(s.ok);
      s.(ok := x, recorded := s.recorded.(ok := s.recorded.ok + 1), wraps := s.wraps.(ok := s.wraps.ok + over))
    case Record(false) =>
      var (x, over) := FetchAdd(s.failed);
      s.(failed := x, recorded := s.recorded.(failed := s.recorded.failed + 1),
         wraps := s.wraps.(failed := s.wraps.failed + over))
    case SwapOk => s.(ok := 0, taking := Some(s.ok))
    case SwapFailed => s.(failed := 0, taking := None, windows := s.windows + [Window(s.taking.value, s.failed)])
  }

  function SumOk(ws: seq<Window>): nat { if ws == [] then 0 else SumOk(ws[..|ws| - 1]) + ws[|ws| - 1].ok }

  function SumFailed(ws: seq<Window>): nat { if ws == [] then 0 else SumFailed(ws[..|ws| - 1]) + ws[|ws| - 1].failed }

  function Run(s: Counters, steps: seq<Step>): Option<Counters>
    decreases |steps|
  {
    if steps == [] then Some(s)
    else
      var before := Run(s, steps[..|steps| - 1]);
      var a := steps[|steps| - 1];
      if before.Some? && Enabled(before.value, a) then Some(Apply(before.value, a)) else None
  }

  /** Successes found in taken windows, in the half-taken one and in the live counter. */
  function AccountedOk(s: Counters): nat {
    SumOk(s.windows) + (if s.taking.Some? then s.taking.value else 0) + s.ok
  }

  function AccountedFailed(s: Counters): nat { SumFailed(s.windows) + s.failed }

  /** The recordings of one kind among the steps. */
  function Recordings(steps: seq<Step>, success: bool): set<nat> {
    set i: nat | i < |steps| && steps[i] == Record(success)
  }

  lemma RecordingsStep(steps: seq<Step>, success: bool)
    requires steps != []
    ensures var n := |steps| - 1;
            |Recordings(steps, success)| == |Recordings(steps[..n], success)| + if steps[n] == Record(success) then 1 else 0
  {
    var n := |steps| - 1;
    var before, after := Recordings(steps[..n], success), Recordings(steps, success);
    assert after == if steps[n] == Record(success) then before + {n} else before;
  }

  /** Under any interleaving, the windows taken, the one being taken and the live counters hold what
      was recorded, less 2^64 for every time a live counter ran over. */
  lemma {:induction false} ConservedUpToWraps(steps: seq<Step>)
    requires Run(Fresh(), steps).Some?
    ensures var s := Run(Fresh(), steps).value;
            && AccountedOk(s) + U64 * s.wraps.ok == s.recorded.ok == |Recordings(steps, true)|
            && AccountedFailed(s) + U64 * s.wraps.failed == s.recorded.failed == |Recordings(steps, false)|
            && s.ok < U64 && s.failed < U64
  {
    if steps != [] {
      ConservedUpToWraps(steps[..|steps| - 1]);
      var before, a := Run(Fresh(), steps[..|steps| - 1]).value, steps[|steps| - 1];
      RecordingsStep(steps, true);
      RecordingsStep(steps, false);
      if a.SwapFailed? {
        assert Apply(before, a).windows[..|before.windows|] == before.windows;
      }
    }
  }

  /** A window takes everything: the success counter is drained first, then the failure counter, and
      both counts make up the window. */
  lemma TakingDrains(s: Counters)
    ensures s.taking == None ==> Enabled(s, SwapOk) && Apply(s, SwapOk) == s.(ok := 0, taking := Some(s.ok))
    ensures forall n :: s.taking == Some(n) ==>
              && Enabled(s, SwapFailed)
              && Apply(s, SwapFailed) == s.(failed := 0, taking := None, windows := s.windows + [Window(n, s.failed)])
  {
  }

  /** However recording interleaves with window taking, every recorded dial is in exactly one taken
      window, in the half-taken one, or still in the live counters, exactly as long as no live counter
      ran over 2^64. */
  lemma NoDialIsLostOrCountedTwice(steps: seq<Step>)
    requires Run(Fresh(), steps).Some?
    ensures var s := Run(Fresh(), steps).value;
            && (AccountedOk(s) == |Recordings(steps, true)| <==> s.wraps.ok == 0)
            && (AccountedFailed(s) == |Recordings(steps, false)| <==> s.wraps.failed == 0)
  {
    ConservedUpToWraps(steps);
  }
}
