/** Endpoint failover in `src/tunnel.rs`: which (address, port) pairs are tried, and the search over
    them with at most two handshakes in flight. */
module Endpoints {
  import opened Common

  /** `owner` stands for the key pair and tunnel addresses, which are issued to one device. */
  datatype WgConfig = WgConfig(owner: nat, peer: SocketAddr, candidates: seq<SocketAddr>)

  const FALLBACK_PORTS: seq<u16> := [2408, 500, 1701, 4500]
  const MAX_PARALLEL: nat := 2

  function Without(ports: seq<u16>, p: u16): seq<u16> {
    if ports == [] then []
    else Without(ports[..|ports| - 1], p) + if ports[|ports| - 1] == p then [] else [ports[|ports| - 1]]
  }

  function EndpointPorts(original: u16): seq<u16> { [original] + Without(FALLBACK_PORTS, original) }

  lemma NoDuplicatesSnoc<T>(s: seq<T>, x: T)
    requires NoDuplicates(s)
    ensures NoDuplicates(s + [x]) <==> x !in s
  {
    if x in s {
      var i :| 0 <= i < |s| && s[i] == x;
      assert (s + [x])[i] == (s + [x])[|s|];
    }
  }

  lemma {:induction false} WithoutSpec(ports: seq<u16>, p: u16)
    ensures forall q :: q in Without(ports, p) <==> q in ports && q != p
    ensures NoDuplicates(ports) ==> NoDuplicates(Without(ports, p))
  {
    if ports != [] {
      var front, last := ports[..|ports| - 1], ports[|ports| - 1];
      assert ports == front + [last];
      WithoutSpec(front, p);
      if NoDuplicates(ports) {
        assert last !in front;
        NoDuplicatesSnoc(Without(front, p), last);
      }
    }
  }

  predicate IsFallback(p: u16) { p == 2408 || p == 500 || p == 1701 || p == 4500 }

  /** All of the lists there can be. */
  lemma EndpointPortsTable(original: u16)
    ensures !IsFallback(original) ==> EndpointPorts(original) == [original, 2408, 500, 1701, 4500]
    ensures EndpointPorts(2408) == [2408, 500, 1701, 4500]
    ensures EndpointPorts(500) == [500, 2408, 1701, 4500]
    ensures EndpointPorts(1701) == [1701, 2408, 500, 4500]
    ensures EndpointPorts(4500) == [4500, 2408, 500, 1701]
  {
    WithoutFour(2408, 500, 1701, 4500, original);
    WithoutFour(2408, 500, 1701, 4500, 2408);
    WithoutFour(2408, 500, 1701, 4500, 500);
    WithoutFour(2408, 500, 1701, 4500, 1701);
    WithoutFour(2408, 500, 1701, 4500, 4500);
  }

  lemma WithoutFour(a: u16, b: u16, c: u16, d: u16, p: u16)
    ensures Without([a, b, c, d], p) ==
            (if a == p then [] else [a]) + (if b == p then [] else [b]) + (if c == p then [] else [c]) + (if d == p then [] else [d])
  {
    assert [a, b, c, d][..3] == [a, b, c];
    assert [a, b, c][..2] == [a, b];
    assert [a, b][..1] == [a];
    assert [a][..0] == [];
    assert Without([a], p) == if a == p then [] else [a];
    assert Without([a, b], p) == (if a == p then [] else [a]) + (if b == p then [] else [b]);
    assert Without([a, b, c], p) == Without([a, b], p) + (if c == p then [] else [c]);
  }

  lemma EndpointPortsSpec(original: u16)
    ensures EndpointPorts(original)[0] == original && NoDuplicates(EndpointPorts(original))
    ensures forall p :: p in EndpointPorts(original) <==> p == original || IsFallback(p)
  {
    assert forall p :: p in FALLBACK_PORTS <==> IsFallback(p);
    assert NoDuplicates(FALLBACK_PORTS);
    WithoutSpec(FALLBACK_PORTS, original);
    var ports := EndpointPorts(original);
    forall i, j | 0 <= i < j < |ports| ensures ports[i] != ports[j] {
      var rest := Without(FALLBACK_PORTS, original);
      assert ports[j] == rest[j - 1] && rest[j - 1] in rest;
      if i > 0 {
        assert ports[i] == rest[i - 1];
      }
    }
  }

  // ----- endpoint_attempts

  function Bases(cfg: WgConfig): seq<SocketAddr> { Distinct([cfg.peer] + cfg.candidates) }

  function OnPorts(base: SocketAddr): seq<SocketAddr> {
    var ports := EndpointPorts(base.port);
    seq(|ports|, i requires 0 <= i < |ports| => SocketAddr(base.ip, ports[i]))
  }

  function Expand(bases: seq<SocketAddr>): seq<SocketAddr> {
    if bases == [] then [] else Expand(bases[..|bases| - 1]) + OnPorts(bases[|bases| - 1])
  }

  function Attempts(cfg: WgConfig): seq<SocketAddr> { Distinct(Bases(cfg) + Expand(Bases(cfg))) }

  /** The "contains, else push" loop that the source writes three times. */
  method PushAllNew<T(==)>(have: seq<T>, ghost seen: seq<T>, more: seq<T>) returns (out: seq<T>)
    requires have == Distinct(seen)
    ensures out == Distinct(seen + more)
  {
    out := have;
    assert seen + more[..0] == seen;
    for i := 0 to |more|
      invariant out == Distinct(seen + more[..i])
    {
      assert (seen + more[..i + 1])[..|seen| + i] == seen + more[..i];
      if more[i] !in out {
        out := out + [more[i]];
      }
    }
    assert more[..|more|] == more;
  }

  method EndpointAttempts(cfg: WgConfig) returns (attempts: seq<SocketAddr>)
    ensures attempts == Attempts(cfg)
  {
    assert Distinct([cfg.peer]) == [cfg.peer] by {
      DistinctIdempotent([cfg.peer]);
    }
    var bases := PushAllNew([cfg.peer], [cfg.peer], cfg.candidates);
    attempts := AddFallbacks(bases);
  }

  /** Every base first, then each base on the remaining ports. */
  method AddFallbacks(bases: seq<SocketAddr>) returns (attempts: seq<SocketAddr>)
    ensures attempts == Distinct(bases + Expand(bases))
  {
    attempts := PushAllNew([], [], bases);
    ghost var tried := bases;
    assert [] + bases == bases && bases + Expand(bases[..0]) == bases;
    for i := 0 to |bases|
      invariant tried == bases + Expand(bases[..i])
      invariant attempts == Distinct(tried)
    {
      ExpandNext(bases, i);
      attempts := PushAllNew(attempts, tried, OnPorts(bases[i]));
      tried := tried + OnPorts(bases[i]);
    }
    assert bases[..|bases|] == bases;
  }

  lemma ExpandNext(bases: seq<SocketAddr>, i: nat)
    requires i < |bases|
    ensures bases + Expand(bases[..i + 1]) == bases + Expand(bases[..i]) + OnPorts(bases[i])
  {
    assert bases[..i + 1][..i] == bases[..i];
  }

  lemma OnPortsSpec(base: SocketAddr, a: SocketAddr)
    ensures a in OnPorts(base) <==> a.ip == base.ip && (a.port == base.port || IsFallback(a.port))
  {
    EndpointPortsSpec(base.port);
    var ports := EndpointPorts(base.port);
    if a.ip == base.ip && a.port in ports {
      var i :| 0 <= i < |ports| && ports[i] == a.port;
      assert OnPorts(base)[i] == a;
    }
  }

  ghost predicate Reachable(bases: seq<SocketAddr>, a: SocketAddr) {
    exists b :: b in bases && a.ip == b.ip && (a.port == b.port || IsFallback(a.port))
  }

  lemma {:induction false} ExpandSpec(bases: seq<SocketAddr>, a: SocketAddr)
    ensures a in Expand(bases) <==> Reachable(bases, a)
  {
    if bases != [] {
      var front, b := bases[..|bases| - 1], bases[|bases| - 1];
      assert bases == front + [b];
      ExpandSpec(front, a);
      OnPortsSpec(b, a);
    }
  }

  lemma {:induction false} DistinctExtends<T>(a: seq<T>, b: seq<T>)
    ensures Distinct(a) <= Distinct(a + b)
  {
    if b == [] {
      assert a + b == a;
    } else {
      assert (a + b)[..|a + b| - 1] == a + b[..|b| - 1];
      DistinctExtends(a, b[..|b| - 1]);
    }
  }

  lemma BasesFirst(cfg: WgConfig)
    ensures Bases(cfg) <= Attempts(cfg) && |Attempts(cfg)| >= 1 && Attempts(cfg)[0] == cfg.peer
  {
    var from := DistinctIsFirstOccurrences([cfg.peer] + cfg.candidates);
    DistinctIdempotent(Bases(cfg));
    DistinctExtends(Bases(cfg), Expand(Bases(cfg)));
    DistinctIdempotent([cfg.peer]);
    DistinctExtends([cfg.peer], cfg.candidates);
    assert Distinct([cfg.peer])[0] == Bases(cfg)[0];
  }

  lemma AttemptsMembers(cfg: WgConfig, a: SocketAddr)
    ensures a in Attempts(cfg) <==> Reachable([cfg.peer] + cfg.candidates, a)
  {
    var all, bases := [cfg.peer] + cfg.candidates, Bases(cfg);
    var from := DistinctIsFirstOccurrences(all);
    var at := DistinctIsFirstOccurrences(bases + Expand(bases));
    ExpandSpec(bases, a);
    if Reachable(all, a) {
      var b :| b in all && a.ip == b.ip && (a.port == b.port || IsFallback(a.port));
      assert b in bases;
    }
  }

  /** The attempt list has no duplicates, starts with the active endpoint and then the other distinct
      candidates as given, and holds exactly each known address on its own and the fallback ports. */
  lemma AttemptsSpec(cfg: WgConfig)
    ensures NoDuplicates(Attempts(cfg))
    ensures Bases(cfg) <= Attempts(cfg) && |Attempts(cfg)| >= 1 && Attempts(cfg)[0] == cfg.peer
    ensures forall a :: a in Attempts(cfg) <==> Reachable([cfg.peer] + cfg.candidates, a)
  {
    var at := DistinctIsFirstOccurrences(Bases(cfg) + Expand(Bases(cfg)));
    BasesFirst(cfg);
    forall a ensures a in Attempts(cfg) <==> Reachable([cfg.peer] + cfg.candidates, a) {
      AttemptsMembers(cfg, a);
    }
  }

  /** Where an element of `Expand` comes from. */
  lemma {:induction false} ExpandAt(bases: seq<SocketAddr>, k: nat) returns (i: nat, j: nat)
    requires k < |Expand(bases)|
    ensures i < |bases| && j < |OnPorts(bases[i])| && Expand(bases)[k] == OnPorts(bases[i])[j]
    ensures k == |Expand(bases[..i])| + j
  {
    var n := |bases| - 1;
    var front := bases[..n];
    if k < |Expand(front)| {
      i, j := ExpandAt(front, k);
      assert front[..i] == bases[..i];
    } else {
      i, j := n, k - |Expand(front)|;
    }
  }

  lemma {:induction false} ExpandGrows(bases: seq<SocketAddr>, m: nat, n: nat)
    requires m < n <= |bases|
    ensures |Expand(bases[..m])| + |OnPorts(bases[m])| <= |Expand(bases[..n])|
    decreases n
  {
    assert bases[..n][..n - 1] == bases[..n - 1];
    if m < n - 1 {
      ExpandGrows(bases, m, n - 1);
    }
  }

  /** Behind the bases, attempts come base by base, and for one base in the order of its ports. */
  lemma FallbackOrder(cfg: WgConfig, x: nat, y: nat) returns (i: nat, j: nat, i': nat, j': nat)
    requires |Bases(cfg)| <= x < y < |Attempts(cfg)|
    ensures i < |Bases(cfg)| && j < |EndpointPorts(Bases(cfg)[i].port)|
    ensures i' < |Bases(cfg)| && j' < |EndpointPorts(Bases(cfg)[i'].port)|
    ensures Attempts(cfg)[x] == SocketAddr(Bases(cfg)[i].ip, EndpointPorts(Bases(cfg)[i].port)[j])
    ensures Attempts(cfg)[y] == SocketAddr(Bases(cfg)[i'].ip, EndpointPorts(Bases(cfg)[i'].port)[j'])
    ensures i < i' || (i == i' && j < j')
  {
    var bases := Bases(cfg);
    var at := DistinctIsFirstOccurrences(bases + Expand(bases));
    IncreasingIsAtLeast(at, x);
    IncreasingIsAtLeast(at, y);
    var k, k' := at[x] - |bases|, at[y] - |bases|;
    i, j := ExpandAt(bases, k);
    i', j' := ExpandAt(bases, k');
    if i' < i {
      ExpandGrows(bases, i', i);
    }
  }

  lemma {:induction false} IncreasingIsAtLeast(at: seq<nat>, x: nat)
    requires x < |at| && forall i, j :: 0 <= i < j < |at| ==> at[i] < at[j]
    ensures at[x] >= x
  {
    if x > 0 {
      IncreasingIsAtLeast(at, x - 1);
    }
  }

  // ----- connect_candidate

  /** Attempts below `started` were spawned; `live` are in flight, `failures` came back, in order. */
  datatype Search = Search(started: nat, live: set<nat>, failures: seq<nat>)

  ghost predicate SearchInv(s: Search, n: nat) {
    && s.started <= n && |s.live| <= MAX_PARALLEL
    && (forall i: nat :: i in s.live ==> i < s.started && i !in s.failures)
    && (forall i: nat :: i < s.started ==> i in s.live || i in s.failures)
    && (forall i :: i in s.failures ==> i < s.started)
    && NoDuplicates(s.failures)
    && (s.live == {} ==> s.started == n)
  }

  function SpawnNext(s: Search, n: nat): Search {
    if s.started < n then s.(started := s.started + 1, live := s.live + {s.started}) else s
  }

  lemma FirstTwoOk(n: nat)
    requires n >= 1
    ensures SearchInv(SpawnNext(SpawnNext(Search(0, {}, []), n), n), n)
    ensures |SpawnNext(SpawnNext(Search(0, {}, []), n), n).live| == if n == 1 then 1 else 2
  {
    assert SpawnNext(SpawnNext(Search(0, {}, []), n), n).live == if n == 1 then {0} else {0, 1};
  }

  /** A probe comes back: another is spawned first, then the result is looked at. */
  lemma JoinOk(s: Search, n: nat, i: nat)
    requires SearchInv(s, n) && i in s.live
    ensures var s' := SpawnNext(s.(live := s.live - {i}), n);
            && SearchInv(s'.(failures := s.failures + [i]), n)
            && 2 * (n - s'.started) + |s'.live| < 2 * (n - s.started) + |s.live|
            && |s'.live| <= 2 && (n == 1 ==> |s'.live| <= 1)
  {
    if n == 1 {
      assert s.live <= {0};
    }
    var out := s.(live := s.live - {i});
    assert |out.live| == |s.live| - 1;
    assert s.started !in out.live;
  }

  ghost predicate NoneSucceeds(failures: seq<nat>, succeeds: nat -> bool) {
    forall i :: i in failures ==> !succeeds(i)
  }

  lemma ExhaustedMeansAllFailed(s: Search, n: nat, succeeds: nat -> bool)
    requires SearchInv(s, n) && s.live == {} && NoneSucceeds(s.failures, succeeds)
    ensures NoDuplicates(s.failures) && forall i: nat :: i in s.failures <==> i < n
    ensures forall i: nat :: i < n ==> !succeeds(i)
  {
  }

  /** The search over `n` attempts: fails exactly when every attempt fails, after each was tried and
      failed once; the probe that completes next is arbitrary. */
  method SearchAttempts(n: nat, succeeds: nat -> bool) returns (won: Option<nat>, peak: nat, failures: seq<nat>)
    requires n >= 1
    ensures peak == if n == 1 then 1 else 2
    ensures won.Some? ==> won.value < n && succeeds(won.value)
    ensures won.None? ==> forall i: nat :: i < n ==> !succeeds(i)
    ensures won.None? ==> NoDuplicates(failures) && forall i: nat :: i in failures <==> i < n
  {
    var s := SpawnNext(SpawnNext(Search(0, {}, []), n), n);
    FirstTwoOk(n);
    peak := |s.live|;
    while s.live != {}
      invariant SearchInv(s, n) && |s.live| <= peak == if n == 1 then 1 else 2
      invariant NoneSucceeds(s.failures, succeeds)
      decreases 2 * (n - s.started) + |s.live|
    {
      var i :| i in s.live;
      JoinOk(s, n, i);
      s := SpawnNext(s.(live := s.live - {i}), n);
      peak := Max(peak, |s.live|);
      if succeeds(i) {
        return Some(i), peak, s.failures;
      }
      s := s.(failures := s.failures + [i]);
    }
    ExhaustedMeansAllFailed(s, n, succeeds);
    return None, peak, s.failures;
  }

  /** A candidate tunnel: the given configuration changed in nothing but its active endpoint, which
      is one of the attempts; or an error, exactly when no attempt succeeds. */
  method ConnectCandidate(cfg: WgConfig, succeeds: nat -> bool) returns (r: Option<WgConfig>, peak: nat)
    ensures peak <= 2
    ensures r.None? <==> forall i: nat :: i < |Attempts(cfg)| ==> !succeeds(i)
    ensures r.Some? ==> exists i: nat :: i < |Attempts(cfg)| && succeeds(i) && r.value == cfg.(peer := Attempts(cfg)[i])
  {
    var attempts := EndpointAttempts(cfg);
    BasesFirst(cfg);
    var won, high, failures := SearchAttempts(|attempts|, succeeds);
    if won.None? {
      return None, high;
    }
    return Some(cfg.(peer := attempts[won.value])), high;
  }
}
