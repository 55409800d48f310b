/** From resolved records to the list that is dialled: `merge_dual` (`src/dns.rs`) and the
    filtering at the head of `happy_eyeballs_dial` (`src/proxy/tcp.rs`). */
module Candidates {
  import opened Common

  datatype CandidateError = NoRecords(host: string) | NoCandidates | OnlyIpv6

  predicate IsV6(a: SocketAddr) { a.ip.V6? }

  function OfFamily(ips: seq<IpAddr>, v6: bool): seq<IpAddr> {
    if ips == [] then []
    else OfFamily(ips[..|ips| - 1], v6) + if ips[|ips| - 1].V6? == v6 then [ips[|ips| - 1]] else []
  }

  function Sockets(ips: seq<IpAddr>, port: u16): seq<SocketAddr> {
    seq(|ips|, i requires 0 <= i < |ips| => SocketAddr(ips[i], port))
  }

  function Unwrap(rs: Option<seq<IpAddr>>): seq<IpAddr> { match rs case None => [] case Some(s) => s }

  /** Where the k-th IPv6 address goes beside `n4` IPv4 ones, and the k-th IPv4 beside `n6` IPv6. */
  function SixAt(k: nat, n4: nat): nat { k + Min(k, n4) }

  function FourAt(k: nat, n6: nat): nat { k + Min(k + 1, n6) }

  /** The alternation of section 4 of RFC 8305, said by position: the k-th IPv6 address has k IPv6
      and min(k, n4) IPv4 addresses before it, the k-th IPv4 address k and min(k + 1, n6). */
  ghost predicate Interleaved<T>(out: seq<T>, six: seq<T>, four: seq<T>) {
    && |out| == |six| + |four|
    && (forall k: nat :: k < |six| ==> out[SixAt(k, |four|)] == six[k])
    && (forall k: nat :: k < |four| ==> out[FourAt(k, |six|)] == four[k])
  }

  /** The first `n6` IPv6 and `n4` IPv4 addresses are in `out`, each at its final position. */
  ghost predicate Placed<T>(out: seq<T>, six: seq<T>, four: seq<T>, n6: nat, n4: nat) {
    && n6 <= |six| && n4 <= |four| && |out| == n6 + n4
    && (forall j: nat :: j < n6 ==> SixAt(j, |four|) < |out| && out[SixAt(j, |four|)] == six[j])
    && (forall j: nat :: j < n4 ==> FourAt(j, |six|) < |out| && out[FourAt(j, |six|)] == four[j])
  }

  ghost predicate Holds<T>(out: seq<T>, six: seq<T>, four: seq<T>, n6: nat, n4: nat)
    requires n6 <= |six| && n4 <= |four|
  {
    multiset(out) == multiset(six[..n6]) + multiset(four[..n4])
  }

  lemma PlaceSix<T>(out: seq<T>, six: seq<T>, four: seq<T>, k: nat)
    requires k < |six| && Placed(out, six, four, k, Min(k, |four|))
    ensures Placed(out + [six[k]], six, four, k + 1, Min(k, |four|))
  {
  }

  lemma PlaceFour<T>(out: seq<T>, six: seq<T>, four: seq<T>, k: nat)
    requires k < |four| && Placed(out, six, four, Min(k + 1, |six|), k)
    ensures Placed(out + [four[k]], six, four, Min(k + 1, |six|), k + 1)
  {
  }

  lemma HoldSix<T>(out: seq<T>, six: seq<T>, four: seq<T>, k: nat, n4: nat)
    requires k < |six| && n4 <= |four| && Holds(out, six, four, k, n4)
    ensures Holds(out + [six[k]], six, four, k + 1, n4)
  {
    assert six[..k + 1] == six[..k] + [six[k]];
  }

  lemma HoldFour<T>(out: seq<T>, six: seq<T>, four: seq<T>, n6: nat, k: nat)
    requires k < |four| && n6 <= |six| && Holds(out, six, four, n6, k)
    ensures Holds(out + [four[k]], six, four, n6, k + 1)
  {
    assert four[..k + 1] == four[..k] + [four[k]];
  }

  /** The state of the loop between two rounds, and between the two pushes of a round. */
  ghost predicate Woven<T>(out: seq<T>, six: seq<T>, four: seq<T>, n6: nat, n4: nat) {
    Placed(out, six, four, n6, n4) && Holds(out, six, four, n6, n4)
  }

  lemma AfterSix<T>(out: seq<T>, six: seq<T>, four: seq<T>, k: nat)
    requires Woven(out, six, four, Min(k, |six|), Min(k, |four|))
    ensures Woven(if k < |six| then out + [six[k]] else out, six, four, Min(k + 1, |six|), Min(k, |four|))
  {
    if k < |six| {
      PlaceSix(out, six, four, k);
      HoldSix(out, six, four, k, Min(k, |four|));
    }
  }

  lemma AfterFour<T>(out: seq<T>, six: seq<T>, four: seq<T>, k: nat)
    requires Woven(out, six, four, Min(k + 1, |six|), Min(k, |four|))
    ensures Woven(if k < |four| then out + [four[k]] else out, six, four, Min(k + 1, |six|), Min(k + 1, |four|))
  {
    if k < |four| {
      PlaceFour(out, six, four, k);
      HoldFour(out, six, four, Min(k + 1, |six|), k);
    }
  }

  lemma AllWoven<T>(out: seq<T>, six: seq<T>, four: seq<T>)
    requires Woven(out, six, four, |six|, |four|)
    ensures Interleaved(out, six, four) && multiset(out) == multiset(six) + multiset(four)
  {
    assert six[..|six|] == six && four[..|four|] == four;
  }

  /** The loop of `merge_dual`: one address from each iterator per round, IPv6 first. */
  method Weave<T>(six: seq<T>, four: seq<T>) returns (out: seq<T>)
    ensures Interleaved(out, six, four) && multiset(out) == multiset(six) + multiset(four)
  {
    out := [];
    var k := 0;
    while k < |six| || k < |four|
      invariant 0 <= k <= Max(|six|, |four|)
      invariant Woven(out, six, four, Min(k, |six|), Min(k, |four|))
      decreases Max(|six|, |four|) - k
    {
      AfterSix(out, six, four, k);
      if k < |six| {
        out := out + [six[k]];
      }
      AfterFour(out, six, four, k);
      if k < |four| {
        out := out + [four[k]];
      }
      k := k + 1;
    }
    AllWoven(out, six, four);
  }

  method MergeDual(v6: Option<seq<IpAddr>>, v4: Option<seq<IpAddr>>, port: u16, host: string)
    returns (r: Result<seq<SocketAddr>, CandidateError>)
    ensures var six := Sockets(OfFamily(if v6.Some? then v6.value else [], true), port);
            var four := Sockets(OfFamily(if v4.Some? then v4.value else [], false), port);
            && (r.Ok? <==> six + four != [])
            && (r.Ok? ==> Interleaved(r.value, six, four))
            && (r.Ok? ==> multiset(r.value) == multiset(six) + multiset(four))
            && (r.Err? ==> r.error == NoRecords(host))
  {
    var out := Weave(Sockets(OfFamily(Unwrap(v6), true), port), Sockets(OfFamily(Unwrap(v4), false), port));
    if out == [] {
      return Err(NoRecords(host));
    }
    return Ok(out);
  }

  /** Those positions are all different and fill the list, so `Interleaved` fixes the result. */
  lemma InterleavingIsUnique<T>(a: seq<T>, b: seq<T>, six: seq<T>, four: seq<T>)
    requires Interleaved(a, six, four) && Interleaved(b, six, four)
    ensures a == b
  {
    forall i | 0 <= i < |a| ensures a[i] == b[i] {
      var m := Min(|six|, |four|);
      if i < 2 * m {
        if i % 2 == 0 {
          assert a[SixAt(i / 2, |four|)] == six[i / 2] == b[SixAt(i / 2, |four|)];
        } else {
          assert a[FourAt(i / 2, |six|)] == four[i / 2] == b[FourAt(i / 2, |six|)];
        }
      } else if |six| > m {
        assert a[SixAt(i - m, |four|)] == six[i - m] == b[SixAt(i - m, |four|)];
      } else {
        assert a[FourAt(i - m, |six|)] == four[i - m] == b[FourAt(i - m, |six|)];
      }
    }
  }

  /** `at` are all the positions of one family in `ips`, in order. */
  ghost predicate FamilyAt(ips: seq<IpAddr>, v6: bool, at: seq<nat>) {
    && (forall i, j :: 0 <= i < j < |at| ==> at[i] < at[j])
    && (forall i :: 0 <= i < |at| ==> at[i] < |ips| && ips[at[i]].V6? == v6)
    && (forall j :: 0 <= j < |ips| && ips[j].V6? == v6 ==> j in at)
  }

  ghost function Members(ips: seq<IpAddr>, v6: bool): seq<Option<IpAddr>> {
    seq(|ips|, i requires 0 <= i < |ips| => if ips[i].V6? == v6 then Some(ips[i]) else None)
  }

  lemma {:induction false} OfFamilyIsSomes(ips: seq<IpAddr>, v6: bool)
    ensures OfFamily(ips, v6) == Somes(Members(ips, v6))
  {
    if ips != [] {
      OfFamilyIsSomes(ips[..|ips| - 1], v6);
      assert Members(ips, v6)[..|ips| - 1] == Members(ips[..|ips| - 1], v6);
    }
  }

  lemma OfFamilySpec(ips: seq<IpAddr>, v6: bool) returns (at: seq<nat>)
    ensures FamilyAt(ips, v6, at) && |at| == |OfFamily(ips, v6)|
    ensures forall i :: 0 <= i < |at| ==> OfFamily(ips, v6)[i] == ips[at[i]]
  {
    OfFamilyIsSomes(ips, v6);
    var os := Members(ips, v6);
    at := SomesPicks(os);
    forall j | 0 <= j < |ips| && ips[j].V6? == v6 ensures j in at {
      assert os[j].Some?;
    }
    forall i | 0 <= i < |at| ensures ips[at[i]].V6? == v6 && OfFamily(ips, v6)[i] == ips[at[i]] {
      assert os[at[i]] == Some(OfFamily(ips, v6)[i]);
    }
  }

  /** The merged list in terms of the two record sets: it alternates between the IPv6 addresses of the
      first and the IPv4 addresses of the second, each in the order of its records, IPv6 first, until
      one side runs out; every entry has the asked port. */
  lemma MergedOrder(v6: seq<IpAddr>, v4: seq<IpAddr>, port: u16, out: seq<SocketAddr>) returns (at6: seq<nat>, at4: seq<nat>)
    requires Interleaved(out, Sockets(OfFamily(v6, true), port), Sockets(OfFamily(v4, false), port))
    ensures FamilyAt(v6, true, at6) && FamilyAt(v4, false, at4) && |out| == |at6| + |at4|
    ensures forall k: nat :: k < |at6| ==> var i := k + (if k < |at4| then k else |at4|); out[i] == SocketAddr(v6[at6[k]], port)
    ensures forall k: nat :: k < |at4| ==> var i := k + (if k < |at6| then k + 1 else |at6|); out[i] == SocketAddr(v4[at4[k]], port)
  {
    at6 := OfFamilySpec(v6, true);
    at4 := OfFamilySpec(v4, false);
    var six, four := Sockets(OfFamily(v6, true), port), Sockets(OfFamily(v4, false), port);
    forall k: nat | k < |at6| ensures var i := k + (if k < |at4| then k else |at4|); out[i] == SocketAddr(v6[at6[k]], port) {
      assert out[SixAt(k, |four|)] == six[k];
    }
    forall k: nat | k < |at4| ensures var i := k + (if k < |at6| then k + 1 else |at6|); out[i] == SocketAddr(v4[at4[k]], port) {
      assert out[FourAt(k, |six|)] == four[k];
    }
  }

  // ----- The dialled list

  function Filter4(s: seq<SocketAddr>): seq<SocketAddr> {
    if s == [] then [] else Filter4(s[..|s| - 1]) + if IsV6(s[|s| - 1]) then [] else [s[|s| - 1]]
  }

  function Usable(candidates: seq<SocketAddr>, hasV6: bool): seq<SocketAddr> {
    if hasV6 then candidates else Filter4(candidates)
  }

  method SelectCandidates(candidates: seq<SocketAddr>, hasV6: bool, maxCandidates: nat)
    returns (r: Result<seq<SocketAddr>, CandidateError>)
    ensures r.Ok? <==> Usable(candidates, hasV6) != []
    ensures r.Ok? ==> var d := Distinct(Usable(candidates, hasV6)); r.value == d[..Min(maxCandidates, |d|)]
    ensures r.Err? ==> r.error == if candidates == [] then NoCandidates else OnlyIpv6
  {
    if candidates == [] {
      return Err(NoCandidates);
    }
    var usable := candidates;
    if !hasV6 {
      usable := [];
      for i := 0 to |candidates|
        invariant usable == Filter4(candidates[..i])
      {
        assert candidates[..i + 1][..i] == candidates[..i];
        if !IsV6(candidates[i]) {
          usable := usable + [candidates[i]];
        }
      }
      assert candidates[..|candidates|] == candidates;
      if usable == [] {
        return Err(OnlyIpv6);
      }
    }
    var seen: set<SocketAddr>, kept: seq<SocketAddr> := {}, [];
    for i := 0 to |usable|
      invariant kept == Distinct(usable[..i])
      invariant forall a :: a in seen <==> a in kept
    {
      assert usable[..i + 1][..i] == usable[..i];
      if usable[i] !in seen {
        seen, kept := seen + {usable[i]}, kept + [usable[i]];
      }
    }
    assert usable[..|usable|] == usable;
    return Ok(kept[..Min(maxCandidates, |kept|)]);
  }

  ghost function Routable(candidates: seq<SocketAddr>, hasV6: bool): seq<Option<SocketAddr>> {
    seq(|candidates|, i requires 0 <= i < |candidates| =>
      if hasV6 || candidates[i].ip.V4? then Some(candidates[i]) else None)
  }

  lemma {:induction false} UsableIsSomes(candidates: seq<SocketAddr>, hasV6: bool)
    ensures Usable(candidates, hasV6) == Somes(Routable(candidates, hasV6))
  {
    if candidates != [] {
      var front := candidates[..|candidates| - 1];
      UsableIsSomes(front, hasV6);
      assert Routable(candidates, hasV6)[..|front|] == Routable(front, hasV6);
      assert candidates == front + [candidates[|front|]];
    }
  }

  /** `d` is what is dialled: the first `max` distinct usable candidates, each where it first occurs.
      Whatever usable candidate is not in it comes after `max` others. */
  ghost predicate FirstUsable(candidates: seq<SocketAddr>, hasV6: bool, max: nat, d: seq<SocketAddr>, at: seq<nat>) {
    && |at| == |d| <= max
    && (forall i, j :: 0 <= i < j < |at| ==> at[i] < at[j])
    && (forall i :: 0 <= i < |d| ==> at[i] < |candidates| && candidates[at[i]] == d[i] && (hasV6 || d[i].ip.V4?))
    && (forall i, j :: 0 <= i < |d| && 0 <= j < at[i] < |candidates| ==> candidates[j] != d[i])
    && (forall j :: 0 <= j < |candidates| && (hasV6 || candidates[j].ip.V4?) ==>
          candidates[j] in d || (|d| == max && forall i :: 0 <= i < |at| ==> at[i] < j))
  }

  lemma TakeFirst(candidates: seq<SocketAddr>, hasV6: bool, max: nat, u: seq<SocketAddr>, all: seq<nat>)
    requires FirstPicks(Routable(candidates, hasV6), u, all)
    ensures FirstUsable(candidates, hasV6, max, u[..Min(max, |u|)], all[..Min(max, |u|)])
  {
    var os, n := Routable(candidates, hasV6), Min(max, |u|);
    var d, at := u[..n], all[..n];
    forall i | 0 <= i < n ensures at[i] < |candidates| && candidates[at[i]] == d[i] && (hasV6 || d[i].ip.V4?) {
      assert os[all[i]] == Some(u[i]);
    }
    forall i, j | 0 <= i < n && 0 <= j < at[i] < |candidates| ensures candidates[j] != d[i] {
      assert os[j] != Some(u[i]) && os[all[i]] == Some(u[i]);
    }
    forall j | 0 <= j < |candidates| && (hasV6 || candidates[j].ip.V4?)
      ensures candidates[j] in d || (n == max && forall i :: 0 <= i < |at| ==> at[i] < j)
    {
      LaterOnlyIfFull(os, u, all, n, j);
    }
  }

  lemma LaterOnlyIfFull<T>(os: seq<Option<T>>, u: seq<T>, all: seq<nat>, n: nat, j: nat)
    requires FirstPicks(os, u, all) && n <= |u| && j < |os| && os[j].Some?
    ensures os[j].value in u[..n] || (n < |u| && forall i :: 0 <= i < n ==> all[i] < j)
  {
    var m :| 0 <= m < |u| && u[m] == os[j].value;
    assert all[m] <= j;
    if m < n {
      assert u[..n][m] == os[j].value;
    }
  }

  lemma {:induction false} DistinctSize<T>(s: seq<T>)
    ensures |Distinct(s)| == |set x | x in s|
  {
    if s != [] {
      var front, x := s[..|s| - 1], s[|s| - 1];
      DistinctSize(front);
      var at := DistinctIsFirstOccurrences(front);
      assert s == front + [x];
      assert (set y | y in s) == (set y | y in front) + {x};
    }
  }

  /** The dialled list is the first `maxCandidates` distinct usable addresses in their order, IPv4-only
      without an IPv6 route; it is shorter only if there are no more. */
  lemma DialledList(candidates: seq<SocketAddr>, hasV6: bool, maxCandidates: nat) returns (at: seq<nat>)
    ensures var u := Distinct(Usable(candidates, hasV6));
            var d := u[..Min(maxCandidates, |u|)];
            && NoDuplicates(d) && FirstUsable(candidates, hasV6, maxCandidates, d, at)
  {
    UsableIsSomes(candidates, hasV6);
    var u := Distinct(Usable(candidates, hasV6));
    var all := DistinctSomes(Routable(candidates, hasV6));
    TakeFirst(candidates, hasV6, maxCandidates, u, all);
    at := all[..Min(maxCandidates, |u|)];
    var first := DistinctIsFirstOccurrences(Usable(candidates, hasV6));
  }

  function UsableSet(candidates: seq<SocketAddr>, hasV6: bool): set<SocketAddr> {
    set a | a in candidates && (hasV6 || a.ip.V4?)
  }

  /** Its length is the lesser of the limit and the number of distinct usable addresses. */
  lemma DialledCount(candidates: seq<SocketAddr>, hasV6: bool)
    ensures |Distinct(Usable(candidates, hasV6))| == |UsableSet(candidates, hasV6)|
  {
    var u := Usable(candidates, hasV6);
    DistinctSize(u);
    SameMembers(candidates, hasV6);
    assert UsableSet(candidates, hasV6) == set x | x in u;
  }

  lemma SameMembers(candidates: seq<SocketAddr>, hasV6: bool)
    ensures forall a :: a in UsableSet(candidates, hasV6) <==> a in Usable(candidates, hasV6)
  {
    UsableIsSomes(candidates, hasV6);
    var pos := SomesPicks(Routable(candidates, hasV6));
    forall a ensures a in UsableSet(candidates, hasV6) <==> a in Usable(candidates, hasV6) {
      UsableMembers(candidates, hasV6, Usable(candidates, hasV6), pos, a);
    }
  }

  lemma UsableMembers(candidates: seq<SocketAddr>, hasV6: bool, u: seq<SocketAddr>, pos: seq<nat>, a: SocketAddr)
    requires Picks(Routable(candidates, hasV6), u, pos)
    ensures a in candidates && (hasV6 || a.ip.V4?) <==> a in u
  {
    var os := Routable(candidates, hasV6);
    if a in candidates && (hasV6 || a.ip.V4?) {
      var j :| 0 <= j < |candidates| && candidates[j] == a;
      assert os[j] == Some(a);
      var i :| 0 <= i < |pos| && pos[i] == j;
      assert u[i] == a;
    }
    if a in u {
      var i :| 0 <= i < |u| && u[i] == a;
      assert os[pos[i]] == Some(a);
      assert candidates[pos[i]] == a;
    }
  }
}
