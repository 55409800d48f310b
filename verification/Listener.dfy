/** Admission in `serve` and `handle` (`src/proxy/tcp.rs`): two semaphores, per-request dial loops,
    and the global bound that `validate` promises for them. Connections are independent tasks, so
    their steps interleave freely. */
module Listener {
  import opened Common
  import opened Limits
  import opened StaggeredDial

  /** Where one accepted connection is. The dial permit is held from `Resolving` to `Upstream`. */
  datatype Conn =
    | Handshaking
    | Associated                          // UDP ASSOCIATE: no TCP socket of the netstack
    | Resolving
    | Dialling(dial: Dial<SocketAddr>, candidates: seq<SocketAddr>)
    | Reaping(sockets: nat, won: bool)    // losers being shut down
    | Refusing                            // dial failed, error reply not yet sent
    | Upstream                            // connected, dial permit not yet dropped
    | Replying
    | Relaying

  datatype State = State(conns: seq<Conn>, permits: nat, dialPermits: nat)

  datatype Action =
    | Accept
    | Associate(i: nat)
    | AdmitDial(i: nat)
    | Resolved(i: nat, candidates: seq<SocketAddr>)
    | ResolveFailed(i: nat)
    | AttemptFailed(i: nat, k: nat)
    | StaggerFires(i: nat)
    | AttemptWon(i: nat, k: nat)
    | DeadlineFires(i: nat)
    | AllFailed(i: nat)
    | Reaped(i: nat)
    | DropDialPermit(i: nat)
    | StartRelay(i: nat)
    | Close(i: nat)

  function Initial(c: Config): State { State([], c.maxConcurrent, c.maxPending) }

  predicate HoldsDialPermit(x: Conn) {
    x.Resolving? || x.Dialling? || x.Reaping? || x.Refusing? || x.Upstream?
  }

  /** Netstack TCP sockets this connection owns: one per attempt in flight, then the winner. */
  function Sockets(x: Conn): nat {
    match x
    case Dialling(d, _) => |d.live|
    case Reaping(k, _) => k
    case Upstream => 1
    case Replying => 1
    case Relaying => 1
    case _ => 0
  }

  function Bytes(c: Config, x: Conn): nat {
    2 * c.tcpBuffer * Sockets(x) + if x.Relaying? then 2 * c.relayBuffer else 0
  }

  predicate Enabled(c: Config, s: State, a: Action) {
    match a
    case Accept => s.permits > 0
    case Associate(i) => i < |s.conns| && s.conns[i].Handshaking?
    case AdmitDial(i) => i < |s.conns| && s.conns[i].Handshaking? && s.dialPermits > 0
    case Resolved(i, found) => i < |s.conns| && s.conns[i].Resolving? && 1 <= |found| <= c.maxCandidates
    case ResolveFailed(i) => i < |s.conns| && s.conns[i].Resolving?
    case AttemptFailed(i, k) => i < |s.conns| && s.conns[i].Dialling? && k in s.conns[i].dial.live
    case StaggerFires(i) =>
      i < |s.conns| && s.conns[i].Dialling? && CanLaunch(s.conns[i].dial, c.maxParallel)
    case AttemptWon(i, k) => i < |s.conns| && s.conns[i].Dialling? && k in s.conns[i].dial.live
    case DeadlineFires(i) => i < |s.conns| && s.conns[i].Dialling?
    case AllFailed(i) => i < |s.conns| && s.conns[i].Dialling? && s.conns[i].dial.live == {}
    case Reaped(i) => i < |s.conns| && s.conns[i].Reaping?
    case DropDialPermit(i) => i < |s.conns| && s.conns[i].Upstream?
    case StartRelay(i) => i < |s.conns| && s.conns[i].Replying?
    case Close(i) => i < |s.conns| && !s.conns[i].Dialling? && !s.conns[i].Reaping? && !s.conns[i].Upstream?
  }

  function Put(s: State, i: nat, x: Conn): State
    requires i < |s.conns|
  {
    s.(conns := s.conns[i := x])
  }

  function Apply(c: Config, s: State, a: Action): State
    requires Enabled(c, s, a)
  {
    match a
    case Accept => s.(conns := s.conns + [Handshaking], permits := s.permits - 1)
    case Associate(i) => Put(s, i, Associated)
    case AdmitDial(i) => Put(s, i, Resolving).(dialPermits := s.dialPermits - 1)
    case Resolved(i, found) => Put(s, i, Dialling(FirstDial(found), found))
    case ResolveFailed(i) => Put(s, i, Refusing)
    case AttemptFailed(i, k) => Put(s, i, Dialling(JoinFailure(s.conns[i].dial, k), s.conns[i].candidates))
    case StaggerFires(i) => Put(s, i, Dialling(Launch(s.conns[i].dial), s.conns[i].candidates))
    case AttemptWon(i, k) => Put(s, i, Reaping(|s.conns[i].dial.live|, true))
    case DeadlineFires(i) => Put(s, i, Reaping(|s.conns[i].dial.live|, false))
    case AllFailed(i) => Put(s, i, Refusing)
    case Reaped(i) => Put(s, i, if s.conns[i].won then Upstream else Refusing)
    case DropDialPermit(i) => Put(s, i, Replying).(dialPermits := s.dialPermits + 1)
    case StartRelay(i) => Put(s, i, Relaying)
    case Close(i) =>
      State(s.conns[..i] + s.conns[i + 1..], s.permits + 1,
            if HoldsDialPermit(s.conns[i]) then s.dialPermits + 1 else s.dialPermits)
  }

  // ----- The invariant

  function Dials(conns: seq<Conn>): nat {
    if conns == [] then 0 else Dials(conns[..|conns| - 1]) + if HoldsDialPermit(conns[|conns| - 1]) then 1 else 0
  }

  /** The most attempts one dial can have in flight. */
  function Width(c: Config): nat { Min(Max(c.maxParallel, 1), c.maxCandidates) }

  ghost predicate ConnOk(c: Config, x: Conn) {
    && (x.Dialling? ==> DialInv(x.dial, x.candidates, c.maxParallel) && |x.candidates| <= c.maxCandidates)
    && (x.Reaping? ==> x.sockets <= Width(c) && (x.won ==> x.sockets >= 1))
  }

  lemma {:induction false} BelowCount(live: set<nat>, n: nat)
    requires forall i :: i in live ==> i < n
    ensures |live| <= n
  {
    if n == 0 {
      assert live == {};
    } else {
      var rest := live - {n - 1};
      BelowCount(rest, n - 1);
      assert |live| <= |rest| + 1 by {
        assert live <= rest + {n - 1};
        CountMonotone(live, rest + {n - 1});
      }
    }
  }

  lemma CountMonotone(a: set<nat>, b: set<nat>)
    requires a <= b
    ensures |a| <= |b|
  {
    assert b == a + (b - a);
  }

  /** A dial never has more attempts in flight than it has candidates. */
  lemma DialFitsWidth(c: Config, x: Conn)
    requires x.Dialling? && ConnOk(c, x)
    ensures |x.dial.live| <= Width(c)
  {
    BelowCount(x.dial.live, |x.dial.started|);
    assert |x.dial.started + x.dial.pending| == |x.candidates|;
  }

  ghost predicate Inv(c: Config, s: State) {
    && s.permits + |s.conns| == c.maxConcurrent
    && s.dialPermits + Dials(s.conns) == c.maxPending
    && forall i :: 0 <= i < |s.conns| ==> ConnOk(c, s.conns[i])
  }

  lemma {:induction false} DialsUpdate(conns: seq<Conn>, i: nat, x: Conn)
    requires i < |conns|
    ensures Dials(conns[i := x]) == Dials(conns)
              - (if HoldsDialPermit(conns[i]) then 1 else 0) + (if HoldsDialPermit(x) then 1 else 0)
  {
    var last := |conns| - 1;
    if i == last {
      assert conns[i := x][..last] == conns[..last];
    } else {
      assert conns[i := x][..last] == conns[..last][i := x];
      DialsUpdate(conns[..last], i, x);
    }
  }

  lemma {:induction false} DialsRemove(conns: seq<Conn>, i: nat)
    requires i < |conns|
    ensures Dials(conns[..i] + conns[i + 1..]) == Dials(conns) - if HoldsDialPermit(conns[i]) then 1 else 0
  {
    var last := |conns| - 1;
    if i == last {
      assert conns[..i] + conns[i + 1..] == conns[..last];
    } else {
      assert (conns[..i] + conns[i + 1..])[..last - 1] == conns[..last][..i] + conns[..last][i + 1..];
      DialsRemove(conns[..last], i);
    }
  }

  /** The dial loop of one connection stays within its own window. */
  lemma DialStepKeepsConn(c: Config, x: Conn, k: nat)
    requires x.Dialling? && ConnOk(c, x)
    ensures k in x.dial.live ==> ConnOk(c, Dialling(JoinFailure(x.dial, k), x.candidates))
    ensures CanLaunch(x.dial, c.maxParallel) ==> ConnOk(c, Dialling(Launch(x.dial), x.candidates))
    ensures k in x.dial.live ==> ConnOk(c, Reaping(|x.dial.live|, true))
    ensures ConnOk(c, Reaping(|x.dial.live|, false))
  {
    DialFitsWidth(c, x);
    if k in x.dial.live {
      JoinFailureOk(x.dial, x.candidates, c.maxParallel, k);
      assert |x.dial.live| >= 1;
    }
    if CanLaunch(x.dial, c.maxParallel) {
      LaunchOk(x.dial, x.candidates, c.maxParallel);
    }
  }

  lemma DiallingStepKeepsConn(c: Config, s: State, a: Action)
    requires Inv(c, s) && Enabled(c, s, a) && !a.Accept? && !a.Close? && s.conns[a.i].Dialling?
    ensures ConnOk(c, Apply(c, s, a).conns[a.i])
  {
    assert ConnOk(c, s.conns[a.i]);
    DialStepKeepsConn(c, s.conns[a.i], if a.AttemptFailed? || a.AttemptWon? then a.k else 0);
  }

  lemma StepKeepsConn(c: Config, s: State, a: Action)
    requires Inv(c, s) && Enabled(c, s, a) && !a.Accept? && !a.Close?
    ensures ConnOk(c, Apply(c, s, a).conns[a.i])
  {
    if s.conns[a.i].Dialling? {
      DiallingStepKeepsConn(c, s, a);
    } else if a.Resolved? {
      FirstDialOk(a.candidates, c.maxParallel);
    }
  }

  lemma CloseKeepsInv(c: Config, s: State, i: nat)
    requires Inv(c, s) && Enabled(c, s, Close(i))
    ensures Inv(c, Apply(c, s, Close(i)))
  {
    DialsRemove(s.conns, i);
  }

  lemma StepKeepsInv(c: Config, s: State, a: Action)
    requires Inv(c, s) && Enabled(c, s, a)
    ensures Inv(c, Apply(c, s, a))
  {
    var s' := Apply(c, s, a);
    if a.Accept? {
      assert s'.conns[..|s.conns|] == s.conns;
    } else if a.Close? {
      CloseKeepsInv(c, s, a.i);
    } else {
      UpdateKeepsInv(c, s, a);
    }
  }

  lemma UpdateKeepsInv(c: Config, s: State, a: Action)
    requires Inv(c, s) && Enabled(c, s, a) && !a.Accept? && !a.Close?
    ensures Inv(c, Apply(c, s, a))
  {
    var s' := Apply(c, s, a);
    StepKeepsConn(c, s, a);
    DialsUpdate(s.conns, a.i, s'.conns[a.i]);
    assert s'.conns == s.conns[a.i := s'.conns[a.i]];
  }

  // ----- Totals

  function TotalSockets(conns: seq<Conn>): nat {
    if conns == [] then 0 else TotalSockets(conns[..|conns| - 1]) + Sockets(conns[|conns| - 1])
  }

  function TotalBytes(c: Config, conns: seq<Conn>): nat {
    if conns == [] then 0 else TotalBytes(c, conns[..|conns| - 1]) + Bytes(c, conns[|conns| - 1])
  }

  lemma SocketsOfOne(c: Config, x: Conn)
    requires ConnOk(c, x) && c.maxParallel >= 1 && c.maxCandidates >= 1
    ensures Sockets(x) <= 1 + if HoldsDialPermit(x) then Width(c) - 1 else 0
    ensures Bytes(c, x) <= PerConnection(c) + if HoldsDialPermit(x) then PerExtraDial(c) * (c.maxParallel - 1) else 0
  {
    if x.Dialling? {
      DialFitsWidth(c, x);
    }
    var extra := if HoldsDialPermit(x) then c.maxParallel - 1 else 0;
    MulBound(2 * c.tcpBuffer, Sockets(x), 2 * c.tcpBuffer, 1 + extra);
    assert 2 * c.tcpBuffer * (1 + extra) == 2 * c.tcpBuffer + 2 * c.tcpBuffer * extra;
  }

  /** A share of `base` per connection and `extra` per dial permit in use. */
  function Share(conns: seq<Conn>, base: nat, extra: nat): nat {
    if conns == [] then 0
    else Share(conns[..|conns| - 1], base, extra) + base + if HoldsDialPermit(conns[|conns| - 1]) then extra else 0
  }

  lemma {:induction false} ShareIsProduct(conns: seq<Conn>, base: nat, extra: nat)
    ensures Share(conns, base, extra) == base * |conns| + extra * Dials(conns)
  {
    if conns != [] {
      var front := conns[..|conns| - 1];
      ShareIsProduct(front, base, extra);
      Distribute(base, |front|);
      Distribute(extra, Dials(front));
    }
  }

  lemma Distribute(a: nat, n: nat)
    ensures a * (n + 1) == a * n + a
  {
  }

  lemma {:induction false} SocketsAreShared(c: Config, conns: seq<Conn>, extra: nat)
    requires c.maxParallel >= 1 && c.maxCandidates >= 1 && extra == Width(c) - 1
    requires forall i :: 0 <= i < |conns| ==> ConnOk(c, conns[i])
    ensures TotalSockets(conns) <= Share(conns, 1, extra)
  {
    if conns != [] {
      SocketsAreShared(c, conns[..|conns| - 1], extra);
      SocketsOfOne(c, conns[|conns| - 1]);
    }
  }

  lemma {:induction false} BytesAreShared(c: Config, conns: seq<Conn>, base: nat, extra: nat)
    requires c.maxParallel >= 1 && c.maxCandidates >= 1 && base == PerConnection(c) && extra == PerExtraDial(c) * (c.maxParallel - 1)
    requires forall i :: 0 <= i < |conns| ==> ConnOk(c, conns[i])
    ensures TotalBytes(c, conns) <= Share(conns, base, extra)
  {
    if conns != [] {
      BytesAreShared(c, conns[..|conns| - 1], base, extra);
      SocketsOfOne(c, conns[|conns| - 1]);
    }
  }

  /** With all permits accounted for, the shares add up to at most the full products. */
  lemma ShareOfAll(c: Config, s: State, base: nat, extra: nat)
    requires Inv(c, s)
    ensures Share(s.conns, base, extra) <= base * c.maxConcurrent + extra * c.maxPending
  {
    ShareIsProduct(s.conns, base, extra);
    MulBound(base, |s.conns|, base, c.maxConcurrent);
    MulBound(extra, Dials(s.conns), extra, c.maxPending);
  }

  // ----- Runs

  predicate ValidRun(c: Config, s: State, run: seq<Action>)
    decreases |run|
  {
    run == [] || (Enabled(c, s, run[0]) && ValidRun(c, Apply(c, s, run[0]), run[1..]))
  }

  function Final(c: Config, s: State, run: seq<Action>): State
    requires ValidRun(c, s, run)
    decreases |run|
  {
    if run == [] then s else Final(c, Apply(c, s, run[0]), run[1..])
  }

  lemma {:induction false} RunKeepsInv(c: Config, s: State, run: seq<Action>)
    requires Inv(c, s) && ValidRun(c, s, run)
    ensures Inv(c, Final(c, s, run))
    decreases |run|
  {
    if run != [] {
      StepKeepsInv(c, s, run[0]);
      RunKeepsInv(c, Apply(c, s, run[0]), run[1..]);
    }
  }

  /** The promise behind `validate`: under any validated configuration and any interleaving of client
      requests, the netstack sockets stay within the port range and the buffers within the estimate,
      which is less than four fifths of a known memory. */
  lemma GlobalResourceBound(c: Config, run: seq<Action>)
    requires Validate(c).Ok? && ValidRun(c, Initial(c), run)
    ensures var s := Final(c, Initial(c), run);
            && |s.conns| <= c.maxConcurrent
            && TotalSockets(s.conns) <= c.maxConcurrent + c.maxPending * (c.maxParallel - 1) <= 32768
            && TotalBytes(c, s.conns) <= (2 * c.tcpBuffer + 2 * c.relayBuffer) * c.maxConcurrent
                                         + 2 * c.tcpBuffer * (c.maxParallel - 1) * c.maxPending
            && (c.memory.Some? ==> 5 * TotalBytes(c, s.conns) < 4 * c.memory.value)
  {
    var s := Final(c, Initial(c), run);
    RunKeepsInv(c, Initial(c), run);
    ValidatedIsExact(c);
    var p, extra := c.maxParallel - 1, PerExtraDial(c) * (c.maxParallel - 1);
    SocketsWithinWidth(c, run);
    MulBound(c.maxPending, Width(c) - 1, c.maxPending, p);
    BytesAreShared(c, s.conns, PerConnection(c), extra);
    ShareOfAll(c, s, PerConnection(c), extra);
  }

  /** Sharper: no dial runs more attempts than it has candidates. `ListenerRuns` shows that this bound
      is reached. */
  lemma SocketsWithinWidth(c: Config, run: seq<Action>)
    requires Validate(c).Ok? && ValidRun(c, Initial(c), run)
    ensures var width := if c.maxParallel <= c.maxCandidates then c.maxParallel else c.maxCandidates;
            TotalSockets(Final(c, Initial(c), run).conns) <= c.maxConcurrent + c.maxPending * (width - 1)
  {
    var s, p := Final(c, Initial(c), run), Width(c) - 1;
    RunKeepsInv(c, Initial(c), run);
    SocketsAreShared(c, s.conns, p);
    ShareOfAll(c, s, 1, p);
    assert p * c.maxPending == c.maxPending * p;
  }

  /** Permits are conserved: when no connection is left, both semaphores are full again. */
  lemma PermitsComeBack(c: Config, run: seq<Action>)
    requires ValidRun(c, Initial(c), run)
    ensures var s := Final(c, Initial(c), run);
            && s.permits + |s.conns| == c.maxConcurrent
            && s.dialPermits + Dials(s.conns) == c.maxPending
            && (s.conns == [] ==> s == Initial(c))
  {
    RunKeepsInv(c, Initial(c), run);
  }

  // ----- Where sockets are opened and closed

  lemma {:induction false} SocketsUpdate(conns: seq<Conn>, i: nat, x: Conn)
    requires i < |conns|
    ensures TotalSockets(conns[i := x]) == TotalSockets(conns) - Sockets(conns[i]) + Sockets(x)
  {
    var last := |conns| - 1;
    if i == last {
      assert conns[i := x][..last] == conns[..last];
    } else {
      assert conns[i := x][..last] == conns[..last][i := x];
      SocketsUpdate(conns[..last], i, x);
    }
  }

  lemma {:induction false} SocketsRemove(conns: seq<Conn>, i: nat)
    requires i < |conns|
    ensures TotalSockets(conns[..i] + conns[i + 1..]) == TotalSockets(conns) - Sockets(conns[i])
  {
    var last := |conns| - 1;
    if i == last {
      assert conns[..i] + conns[i + 1..] == conns[..last];
    } else {
      assert (conns[..i] + conns[i + 1..])[..last - 1] == conns[..last][..i] + conns[..last][i + 1..];
      SocketsRemove(conns[..last], i);
    }
  }

  /** The sockets one step opens, less those it closes. */
  function SocketsMoved(s: State, a: Action): int
    requires (a.AttemptFailed? || a.Reaped? || a.Close?) ==> a.i < |s.conns|
    requires a.AttemptFailed? ==> s.conns[a.i].Dialling?
    requires a.Reaped? ==> s.conns[a.i].Reaping?
  {
    match a
    case Resolved(_, _) => 1
    case StaggerFires(_) => 1
    case AttemptFailed(i, k) => if s.conns[i].dial.live == {k} && s.conns[i].dial.pending != [] then 0 else -1
    case Reaped(i) => (if s.conns[i].won then 1 else 0) - s.conns[i].sockets
    case Close(i) => if s.conns[i].Replying? || s.conns[i].Relaying? then -1 else 0
    case _ => 0
  }

  /** In every reachable state a socket is opened by the first attempt, by a timer with room or by the
      last failure with candidates left, and closed by a failure, by the reaping of the losers, or by
      the end of its connection. Winning and timing out close nothing: losers count until reaped. */
  lemma SocketsOpenAndClose(c: Config, run: seq<Action>, a: Action)
    requires ValidRun(c, Initial(c), run) && Enabled(c, Final(c, Initial(c), run), a)
    ensures var s := Final(c, Initial(c), run);
            TotalSockets(Apply(c, s, a).conns) == TotalSockets(s.conns) + SocketsMoved(s, a)
  {
    RunKeepsInv(c, Initial(c), run);
    StepMovesSockets(c, Final(c, Initial(c), run), a);
  }

  lemma StepMovesSockets(c: Config, s: State, a: Action)
    requires Inv(c, s) && Enabled(c, s, a)
    ensures TotalSockets(Apply(c, s, a).conns) == TotalSockets(s.conns) + SocketsMoved(s, a)
  {
    var s' := Apply(c, s, a);
    if a.Accept? {
      assert s'.conns[..|s.conns|] == s.conns;
    } else if a.Close? {
      SocketsRemove(s.conns, a.i);
    } else {
      assert s'.conns == s.conns[a.i := s'.conns[a.i]];
      SocketsUpdate(s.conns, a.i, s'.conns[a.i]);
      ConnMovesSockets(c, s, a);
    }
  }

  lemma ConnMovesSockets(c: Config, s: State, a: Action)
    requires Inv(c, s) && Enabled(c, s, a) && !a.Accept? && !a.Close?
    ensures Sockets(Apply(c, s, a).conns[a.i]) == Sockets(s.conns[a.i]) + SocketsMoved(s, a)
  {
    if s.conns[a.i].Dialling? {
      DiallingMovesSockets(c, s, a);
    } else if a.Resolved? {
      assert FirstDial(a.candidates).live == {0};
    }
  }

  lemma DiallingMovesSockets(c: Config, s: State, a: Action)
    requires Inv(c, s) && Enabled(c, s, a) && !a.Accept? && !a.Close? && s.conns[a.i].Dialling?
    ensures Sockets(Apply(c, s, a).conns[a.i]) == Sockets(s.conns[a.i]) + SocketsMoved(s, a)
  {
    assert ConnOk(c, s.conns[a.i]);
    DialMoves(c, s.conns[a.i], if a.AttemptFailed? then a.k else 0);
  }

  lemma DialMoves(c: Config, x: Conn, k: nat)
    requires x.Dialling? && ConnOk(c, x)
    ensures x.dial.pending != [] ==> |Launch(x.dial).live| == |x.dial.live| + 1
    ensures k in x.dial.live ==>
              |JoinFailure(x.dial, k).live| == |x.dial.live| + if x.dial.live == {k} && x.dial.pending != [] then 0 else -1
  {
    var d := x.dial;
    assert |d.started| !in d.live;
    if k in d.live {
      var rest := d.live - {k};
      assert |rest| == |d.live| - 1;
      assert rest == {} <==> d.live == {k};
    }
  }
}
