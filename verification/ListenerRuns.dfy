/** The socket bound of `Listener` is exact: under every validated configuration some run reaches it. All
    permits that cannot dial relay, and every dial permit is in use by a dial with a full window. And from
    every reachable state all connections can end, which gives all permits back. */
module ListenerRuns {
  import opened Common
  import opened Limits
  import opened StaggeredDial
  import opened Listener

  // ----- Joining runs

  ghost predicate Reaches(c: Config, s: State, t: State) {
    exists run :: ValidRun(c, s, run) && Final(c, s, run) == t
  }

  lemma {:induction false} JoinRuns(c: Config, s: State, a: seq<Action>, b: seq<Action>)
    requires ValidRun(c, s, a) && ValidRun(c, Final(c, s, a), b)
    ensures ValidRun(c, s, a + b) && Final(c, s, a + b) == Final(c, Final(c, s, a), b)
    decreases |a|
  {
    if a == [] {
      assert a + b == b;
    } else {
      JoinRuns(c, Apply(c, s, a[0]), a[1..], b);
      assert (a + b)[1..] == a[1..] + b;
    }
  }

  lemma ReachesBoth(c: Config, s: State, t: State, u: State)
    requires Reaches(c, s, t) && Reaches(c, t, u)
    ensures Reaches(c, s, u)
  {
    var a :| ValidRun(c, s, a) && Final(c, s, a) == t;
    var b :| ValidRun(c, t, b) && Final(c, t, b) == u;
    JoinRuns(c, s, a, b);
  }

  lemma ReachesNext(c: Config, s: State, t: State, a: Action)
    requires Reaches(c, s, t) && Enabled(c, t, a)
    ensures Reaches(c, s, Apply(c, t, a))
  {
    var run, next := [a], Apply(c, t, a);
    assert run[1..] == [];
    assert ValidRun(c, next, []) && Final(c, next, []) == next;
    assert ValidRun(c, t, run) && Final(c, t, run) == Apply(c, t, a);
    ReachesBoth(c, s, t, Apply(c, t, a));
  }

  lemma ReachesSelf(c: Config, s: State)
    ensures Reaches(c, s, s)
  {
    assert ValidRun(c, s, []) && Final(c, s, []) == s;
  }

  /** `s` with one connection more, in the given state and with or without a dial permit. */
  function Grown(s: State, x: Conn, dialling: bool): State
    requires s.permits > 0 && s.dialPermits > 0
  {
    State(s.conns + [x], s.permits - 1, if dialling then s.dialPermits - 1 else s.dialPermits)
  }

  lemma PutLast(s: State, x: Conn, y: Conn, dialling: bool)
    requires s.permits > 0 && s.dialPermits > 0
    ensures Put(Grown(s, x, dialling), |s.conns|, y) == Grown(s, y, dialling)
  {
  }

  // ----- One connection that relays

  /** A connection that resolves, wins its first attempt and starts to relay. */
  lemma RelayOne(c: Config, s: State, addr: SocketAddr)
    requires s.permits > 0 && s.dialPermits > 0 && c.maxCandidates >= 1
    ensures Reaches(c, s, Grown(s, Relaying, false))
  {
    var i := |s.conns|;
    ResolveOne(c, s, [addr]);
    var d := FirstDial([addr]);
    assert d.live == {0};
    var t := Grown(s, Dialling(d, [addr]), true);
    PutLast(s, Dialling(d, [addr]), Reaping(1, true), true);
    ReachesNext(c, s, t, AttemptWon(i, 0));
    UpstreamRelays(c, s);
  }

  lemma ResolveOne(c: Config, s: State, found: seq<SocketAddr>)
    requires s.permits > 0 && s.dialPermits > 0 && 1 <= |found| <= c.maxCandidates
    ensures Reaches(c, s, Grown(s, Dialling(FirstDial(found), found), true))
  {
    var i := |s.conns|;
    ReachesSelf(c, s);
    ReachesNext(c, s, s, Accept);
    var t := Grown(s, Handshaking, false);
    assert Apply(c, s, Accept) == t;
    PutLast(s, Handshaking, Resolving, false);
    ReachesNext(c, s, t, AdmitDial(i));
    var u := Grown(s, Resolving, true);
    assert Apply(c, t, AdmitDial(i)) == u;
    PutLast(s, Resolving, Dialling(FirstDial(found), found), true);
    ReachesNext(c, s, u, Resolved(i, found));
  }

  lemma UpstreamRelays(c: Config, s: State)
    requires s.permits > 0 && s.dialPermits > 0 && Reaches(c, s, Grown(s, Reaping(1, true), true))
    ensures Reaches(c, s, Grown(s, Relaying, false))
  {
    var i := |s.conns|;
    PutLast(s, Reaping(1, true), Upstream, true);
    ReachesNext(c, s, Grown(s, Reaping(1, true), true), Reaped(i));
    PutLast(s, Upstream, Replying, true);
    ReachesNext(c, s, Grown(s, Upstream, true), DropDialPermit(i));
    assert Apply(c, Grown(s, Upstream, true), DropDialPermit(i)) == Grown(s, Replying, false);
    PutLast(s, Replying, Relaying, false);
    ReachesNext(c, s, Grown(s, Replying, false), StartRelay(i));
  }

  // ----- One connection with a full window

  function Below(n: nat): set<nat> { if n == 0 then {} else Below(n - 1) + {n - 1} }

  lemma {:induction false} BelowSpec(n: nat)
    ensures |Below(n)| == n && forall i :: i in Below(n) ==> i < n
  {
    if n > 0 {
      BelowSpec(n - 1);
    }
  }

  /** The dial after its first `n` candidates were started and none has come back. */
  function Open(found: seq<SocketAddr>, n: nat): Dial<SocketAddr>
    requires n <= |found|
  {
    Dial(found[..n], found[n..], Below(n), {})
  }

  lemma OpenNext(found: seq<SocketAddr>, n: nat)
    requires n < |found|
    ensures Launch(Open(found, n)) == Open(found, n + 1)
  {
    assert found[..n] + [found[n]] == found[..n + 1];
    assert found[n..][1..] == found[n + 1..];
  }

  /** The timer fires until the window is full or the candidates are used up. */
  lemma {:induction false} DialOne(c: Config, s: State, found: seq<SocketAddr>, n: nat)
    requires s.permits > 0 && s.dialPermits > 0 && 1 <= n <= |found| <= c.maxCandidates && n <= c.maxParallel
    ensures Reaches(c, s, Grown(s, Dialling(Open(found, n), found), true))
    decreases n
  {
    if n == 1 {
      ResolveOne(c, s, found);
      OpenNext(found, 0);
      assert Open(found, 0) == Dial([], found, {}, {});
    } else {
      DialOne(c, s, found, n - 1);
      OpenNext(found, n - 1);
      BelowSpec(n - 1);
      var t := Grown(s, Dialling(Open(found, n - 1), found), true);
      PutLast(s, Dialling(Open(found, n - 1), found), Dialling(Open(found, n), found), true);
      ReachesNext(c, s, t, StaggerFires(|s.conns|));
    }
  }

  // ----- All of them

  function Repeat(x: Conn, n: nat): seq<Conn> { if n == 0 then [] else Repeat(x, n - 1) + [x] }

  lemma {:induction false} RelayMany(c: Config, addr: SocketAddr, n: nat)
    requires n <= c.maxConcurrent && c.maxPending > 0 && c.maxCandidates >= 1
    ensures Reaches(c, Initial(c), State(Repeat(Relaying, n), c.maxConcurrent - n, c.maxPending))
  {
    if n == 0 {
      ReachesSelf(c, Initial(c));
    } else {
      RelayMany(c, addr, n - 1);
      var t := State(Repeat(Relaying, n - 1), c.maxConcurrent - n + 1, c.maxPending);
      RelayOne(c, t, addr);
      ReachesBoth(c, Initial(c), t, Grown(t, Relaying, false));
    }
  }

  lemma {:induction false} DialMany(c: Config, s: State, found: seq<SocketAddr>, n: nat)
    requires n <= s.permits && n <= s.dialPermits && 1 <= |found| <= c.maxCandidates && |found| <= c.maxParallel
    ensures Reaches(c, s, State(s.conns + Repeat(Dialling(Open(found, |found|), found), n), s.permits - n, s.dialPermits - n))
  {
    var x := Dialling(Open(found, |found|), found);
    if n == 0 {
      ReachesSelf(c, s);
      assert s.conns + Repeat(x, 0) == s.conns;
    } else {
      DialMany(c, s, found, n - 1);
      var t := State(s.conns + Repeat(x, n - 1), s.permits - n + 1, s.dialPermits - n + 1);
      DialOne(c, t, found, |found|);
      assert t.conns + [x] == s.conns + Repeat(x, n);
      ReachesBoth(c, s, t, Grown(t, x, true));
    }
  }

  lemma {:induction false} SocketsOfRepeat(conns: seq<Conn>, x: Conn, n: nat, k: nat)
    requires Sockets(x) == k
    ensures TotalSockets(conns + Repeat(x, n)) == TotalSockets(conns) + k * n
  {
    if n == 0 {
      assert conns + Repeat(x, 0) == conns;
    } else {
      SocketsOfRepeat(conns, x, n - 1, k);
      AppendsLast(conns, x, n);
      Distribute(k, n - 1);
    }
  }

  lemma {:induction false} BytesOfRepeat(c: Config, conns: seq<Conn>, x: Conn, n: nat, k: nat)
    requires Bytes(c, x) == k
    ensures TotalBytes(c, conns + Repeat(x, n)) == TotalBytes(c, conns) + k * n
  {
    if n == 0 {
      assert conns + Repeat(x, 0) == conns;
    } else {
      BytesOfRepeat(c, conns, x, n - 1, k);
      AppendsLast(conns, x, n);
      Distribute(k, n - 1);
    }
  }

  lemma AppendsLast(conns: seq<Conn>, x: Conn, n: nat)
    requires n > 0
    ensures var all := conns + Repeat(x, n); all != [] && all[|all| - 1] == x && all[..|all| - 1] == conns + Repeat(x, n - 1)
  {
    assert conns + Repeat(x, n) == conns + Repeat(x, n - 1) + [x];
  }

  /** `n` connections relay and `m` dial at full width. */
  function Peak(found: seq<SocketAddr>, n: nat, m: nat): State {
    State(Repeat(Relaying, n) + Repeat(Dialling(Open(found, |found|), found), m), 0, 0)
  }

  lemma PeakReached(c: Config, found: seq<SocketAddr>, n: nat)
    requires n + c.maxPending == c.maxConcurrent && c.maxPending > 0
    requires 1 <= |found| <= c.maxCandidates && |found| <= c.maxParallel
    ensures Reaches(c, Initial(c), Peak(found, n, c.maxPending))
  {
    var s := State(Repeat(Relaying, n), c.maxPending, c.maxPending);
    RelayMany(c, found[0], n);
    DialMany(c, s, found, c.maxPending);
    ReachesBoth(c, Initial(c), s, Peak(found, n, c.maxPending));
  }

  /** Under every validated configuration, and for any list of as many candidates as one dial can have
      in flight, there is a run after which the sockets are exactly the bound of
      `Listener.SocketsWithinWidth`, with these buffers behind them. */
  lemma PeakIsReached(c: Config, found: seq<SocketAddr>) returns (run: seq<Action>)
    requires Validate(c).Ok? && |found| == if c.maxParallel <= c.maxCandidates then c.maxParallel else c.maxCandidates
    ensures ValidRun(c, Initial(c), run)
    ensures var s := Final(c, Initial(c), run);
            && |s.conns| == c.maxConcurrent
            && TotalSockets(s.conns) == c.maxConcurrent + c.maxPending * (|found| - 1)
            && TotalBytes(c, s.conns) == (2 * c.tcpBuffer + 2 * c.relayBuffer) * (c.maxConcurrent - c.maxPending)
                                         + 2 * c.tcpBuffer * |found| * c.maxPending
  {
    run := PeakRun(c, found, c.maxConcurrent - c.maxPending);
  }

  lemma PeakRun(c: Config, found: seq<SocketAddr>, n: nat) returns (run: seq<Action>)
    requires n + c.maxPending == c.maxConcurrent && c.maxPending > 0
    requires 1 <= |found| <= c.maxCandidates && |found| <= c.maxParallel
    ensures ValidRun(c, Initial(c), run)
    ensures var s := Final(c, Initial(c), run);
            && |s.conns| == c.maxConcurrent
            && TotalSockets(s.conns) == c.maxConcurrent + c.maxPending * (|found| - 1)
            && TotalBytes(c, s.conns) == (2 * c.tcpBuffer + 2 * c.relayBuffer) * n + 2 * c.tcpBuffer * |found| * c.maxPending
  {
    PeakReached(c, found, n);
    run :| ValidRun(c, Initial(c), run) && Final(c, Initial(c), run) == Peak(found, n, c.maxPending);
    PeakTotals(c, found, n, c.maxPending);
  }

  lemma PeakTotals(c: Config, found: seq<SocketAddr>, n: nat, m: nat)
    requires found != []
    ensures var conns := Repeat(Relaying, n) + Repeat(Dialling(Open(found, |found|), found), m);
            && |conns| == n + m
            && TotalSockets(conns) == n + m + m * (|found| - 1)
            && TotalBytes(c, conns) == (2 * c.tcpBuffer + 2 * c.relayBuffer) * n + 2 * c.tcpBuffer * |found| * m
  {
    var x := Dialling(Open(found, |found|), found);
    BytesOfOne(c, found);
    SumsOfPeak(c, x, n, m, |found|, 2 * c.tcpBuffer + 2 * c.relayBuffer, 2 * c.tcpBuffer * |found|);
    RepeatLength(Relaying, n);
    RepeatLength(x, m);
    LessOne(|found|, m);
  }

  lemma BytesOfOne(c: Config, found: seq<SocketAddr>)
    ensures var x := Dialling(Open(found, |found|), found);
            && Sockets(x) == |found| && Bytes(c, x) == 2 * c.tcpBuffer * |found|
            && Bytes(c, Relaying) == 2 * c.tcpBuffer + 2 * c.relayBuffer
  {
    BelowSpec(|found|);
  }

  lemma SumsOfPeak(c: Config, x: Conn, n: nat, m: nat, k: nat, a: nat, b: nat)
    requires Sockets(x) == k && Bytes(c, Relaying) == a && Bytes(c, x) == b
    ensures TotalSockets(Repeat(Relaying, n) + Repeat(x, m)) == n + k * m
    ensures TotalBytes(c, Repeat(Relaying, n) + Repeat(x, m)) == a * n + b * m
  {
    var relaying := Repeat(Relaying, n);
    assert [] + relaying == relaying;
    SocketsOfRepeat([], Relaying, n, 1);
    SocketsOfRepeat(relaying, x, m, k);
    BytesOfRepeat(c, [], Relaying, n, a);
    BytesOfRepeat(c, relaying, x, m, b);
  }

  lemma LessOne(k: nat, m: nat)
    requires k >= 1
    ensures k * m == m + m * (k - 1)
  {
  }

  lemma {:induction false} RepeatLength(x: Conn, n: nat)
    ensures |Repeat(x, n)| == n
  {
    if n > 0 {
      RepeatLength(x, n - 1);
    }
  }

  // ----- And back

  lemma StepOn(c: Config, s: State, t: State, a: Action) returns (u: State)
    requires Reaches(c, s, t) && Inv(c, t) && Enabled(c, t, a)
    ensures u == Apply(c, t, a) && Reaches(c, s, u) && Inv(c, u)
  {
    u := Apply(c, t, a);
    ReachesNext(c, s, t, a);
    StepKeepsInv(c, t, a);
  }

  /** The last connection can end from wherever it is: a dial by its deadline, losers by being reaped. */
  lemma EndLast(c: Config, s: State) returns (t: State)
    requires Inv(c, s) && s.conns != []
    ensures Reaches(c, s, t) && Inv(c, t) && |t.conns| == |s.conns| - 1
  {
    var i := |s.conns| - 1;
    t := s;
    ReachesSelf(c, s);
    if t.conns[i].Dialling? {
      t := StepOn(c, s, t, DeadlineFires(i));
    }
    if t.conns[i].Reaping? {
      t := StepOn(c, s, t, Reaped(i));
    }
    if t.conns[i].Upstream? {
      t := StepOn(c, s, t, DropDialPermit(i));
    }
    t := StepOn(c, s, t, Close(i));
  }

  lemma {:induction false} EndAll(c: Config, s: State)
    requires Inv(c, s)
    ensures Reaches(c, s, Initial(c))
    decreases |s.conns|
  {
    if s.conns == [] {
      ReachesSelf(c, s);
      assert s == Initial(c);
    } else {
      var t := EndLast(c, s);
      EndAll(c, t);
      ReachesBoth(c, s, t, Initial(c));
    }
  }

  /** Whatever happened, the listener can get back to where it started, with both semaphores full. */
  lemma EverythingCanEnd(c: Config, run: seq<Action>) returns (rest: seq<Action>)
    requires ValidRun(c, Initial(c), run)
    ensures ValidRun(c, Initial(c), run + rest) && Final(c, Initial(c), run + rest) == Initial(c)
  {
    RunKeepsInv(c, Initial(c), run);
    var s := Final(c, Initial(c), run);
    EndAll(c, s);
    rest :| ValidRun(c, s, rest) && Final(c, s, rest) == Initial(c);
    JoinRuns(c, Initial(c), run, rest);
  }
}
