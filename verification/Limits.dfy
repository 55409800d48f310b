/** The resource arithmetic of `src/config.rs`: the limit checks of `validate`, its saturating
    capacity estimate, and the memory-adaptive default. The ratio test `capacity / memory >= 0.8`
    is taken exactly, as `5 * capacity >= 4 * memory`. */
module Limits {
  import opened Common

  const KIB: nat := 1024
  const MIB: nat := 1024 * 1024
  const PORTS: nat := 32768

  /** Durations are milliseconds; `memory` is the machine's total in bytes, if it is known. */
  datatype Config = Config(
    tcpBuffer: nat, relayBuffer: nat,
    maxConcurrent: nat, maxPending: nat, maxCandidates: nat, maxParallel: nat,
    connectTimeout: nat, handshakeTimeout: nat, idleTimeout: nat, eyeballsDelay: nat,
    cacheEntries: nat, dnsTimeout: nat, memory: Option<nat>)

  datatype LimitError =
    | TcpBuffer | RelayBuffer | MaxConcurrent | MaxPending | ConnectTimeout | SessionTimeout
    | EyeballsDelay | MaxCandidates | MaxParallel | PortCapacity | CacheEntries | DnsTimeout | Memory

  function DialPorts(c: Config): nat { SaturatingMul(c.maxPending, SaturatingSub(c.maxParallel, 1)) }

  /** Bytes of buffers at full load, as `validate` computes it. */
  function Capacity(c: Config): nat {
    var established := SaturatingMul(
      SaturatingAdd(SaturatingMul(c.tcpBuffer, 2), SaturatingMul(c.relayBuffer, 2)), c.maxConcurrent);
    var extraDials := SaturatingMul(
      SaturatingMul(SaturatingMul(c.tcpBuffer, 2), SaturatingSub(c.maxParallel, 1)), c.maxPending);
    SaturatingAdd(established, extraDials)
  }

  function Validate(c: Config): Result<(), LimitError> {
    if c.tcpBuffer < 65535 || c.tcpBuffer > 8 * MIB then Err(TcpBuffer)
    else if c.relayBuffer < 4096 || c.relayBuffer > MIB then Err(RelayBuffer)
    else if !(1 <= c.maxConcurrent <= 16384) then Err(MaxConcurrent)
    else if c.maxPending == 0 || c.maxPending > c.maxConcurrent then Err(MaxPending)
    else if c.connectTimeout == 0 then Err(ConnectTimeout)
    else if c.handshakeTimeout == 0 || c.idleTimeout == 0 then Err(SessionTimeout)
    else if c.eyeballsDelay == 0 then Err(EyeballsDelay)
    else if !(1 <= c.maxCandidates <= 32) then Err(MaxCandidates)
    else if !(1 <= c.maxParallel <= 4) then Err(MaxParallel)
    else if SaturatingAdd(c.maxConcurrent, DialPorts(c)) > PORTS then Err(PortCapacity)
    else if c.cacheEntries == 0 || c.cacheEntries > 1000000 then Err(CacheEntries)
    else if c.dnsTimeout == 0 then Err(DnsTimeout)
    else match c.memory
      case Some(total) => if 5 * Capacity(c) >= 4 * total then Err(Memory) else Ok(())
      case None => Ok(())
  }

  // ----- What validation promises, in unbounded arithmetic

  function PerConnection(c: Config): nat { 2 * c.tcpBuffer + 2 * c.relayBuffer }

  function PerExtraDial(c: Config): nat { 2 * c.tcpBuffer }

  lemma MulBound(a: nat, b: nat, x: nat, y: nat)
    requires a <= x && b <= y
    ensures 0 <= a * b <= x * y
  {
    assert a * b <= x * b;
    assert x * b <= x * y;
  }

  /** Nothing saturates on a validated configuration, so the estimate is the true product; the port
      bound is the true sum; and a known memory exceeds the estimate by a quarter. */
  lemma ValidatedIsExact(c: Config)
    requires Validate(c).Ok?
    ensures c.maxParallel >= 1
    ensures c.maxConcurrent + c.maxPending * (c.maxParallel - 1) <= PORTS
    ensures Capacity(c) == PerConnection(c) * c.maxConcurrent
                           + PerExtraDial(c) * (c.maxParallel - 1) * c.maxPending
    ensures c.memory.Some? ==> 5 * Capacity(c) < 4 * c.memory.value
  {
    NothingSaturates(c);
  }

  /** What each check objects to, on its own and in unbounded arithmetic. */
  predicate Faulty(c: Config, e: LimitError) {
    match e
    case TcpBuffer => !(65535 <= c.tcpBuffer <= 8388608)
    case RelayBuffer => !(4096 <= c.relayBuffer <= 1048576)
    case MaxConcurrent => !(1 <= c.maxConcurrent <= 16384)
    case MaxPending => !(1 <= c.maxPending <= c.maxConcurrent)
    case ConnectTimeout => c.connectTimeout == 0
    case SessionTimeout => c.handshakeTimeout == 0 || c.idleTimeout == 0
    case EyeballsDelay => c.eyeballsDelay == 0
    case MaxCandidates => !(1 <= c.maxCandidates <= 32)
    case MaxParallel => !(1 <= c.maxParallel <= 4)
    case PortCapacity => c.maxConcurrent + c.maxPending * (c.maxParallel - 1) > 32768
    case CacheEntries => !(1 <= c.cacheEntries <= 1000000)
    case DnsTimeout => c.dnsTimeout == 0
    case Memory =>
      c.memory.Some? &&
      5 * ((2 * c.tcpBuffer + 2 * c.relayBuffer) * c.maxConcurrent
           + 2 * c.tcpBuffer * (c.maxParallel - 1) * c.maxPending) >= 4 * c.memory.value
  }

  /** The order in which faults are reported. */
  function Rank(e: LimitError): nat {
    match e
    case TcpBuffer => 0 case RelayBuffer => 1 case MaxConcurrent => 2 case MaxPending => 3
    case ConnectTimeout => 4 case SessionTimeout => 5 case EyeballsDelay => 6 case MaxCandidates => 7
    case MaxParallel => 8 case PortCapacity => 9 case CacheEntries => 10 case DnsTimeout => 11 case Memory => 12
  }

  predicate FieldsInRange(c: Config) {
    && 65535 <= c.tcpBuffer <= 8388608 && 4096 <= c.relayBuffer <= 1048576
    && 1 <= c.maxConcurrent <= 16384 && 1 <= c.maxPending <= c.maxConcurrent
    && 1 <= c.maxParallel <= 4
  }

  /** With every field in its range no saturating operation saturates. */
  lemma NothingSaturates(c: Config)
    requires FieldsInRange(c)
    ensures SaturatingAdd(c.maxConcurrent, DialPorts(c)) == c.maxConcurrent + c.maxPending * (c.maxParallel - 1)
    ensures Capacity(c) == (2 * c.tcpBuffer + 2 * c.relayBuffer) * c.maxConcurrent
                           + 2 * c.tcpBuffer * (c.maxParallel - 1) * c.maxPending
  {
    var p := c.maxParallel - 1;
    MulBound(c.maxPending, p, 16384, 3);
    MulBound(2 * c.tcpBuffer + 2 * c.relayBuffer, c.maxConcurrent, 18 * MIB, 16384);
    MulBound(2 * c.tcpBuffer, p, 16 * MIB, 3);
    MulBound(2 * c.tcpBuffer * p, c.maxPending, 48 * MIB, 16384);
  }

  lemma ReportedIsFirst(c: Config, d: LimitError)
    ensures Validate(c).Ok? ==> !Faulty(c, d)
    ensures Validate(c).Err? ==> Faulty(c, Validate(c).error)
    ensures Validate(c).Err? && Rank(d) < Rank(Validate(c).error) ==> !Faulty(c, d)
  {
    if FieldsInRange(c) {
      NothingSaturates(c);
    }
  }

  /** The first fault present is the one reported, and nothing else is refused. */
  lemma ReportsFirstFault(c: Config, e: LimitError)
    ensures Validate(c) == Err(e) <==> Faulty(c, e) && forall d :: Rank(d) < Rank(e) ==> !Faulty(c, d)
    ensures Validate(c).Ok? <==> forall d :: !Faulty(c, d)
  {
    forall d
      ensures Validate(c).Ok? ==> !Faulty(c, d)
      ensures Validate(c).Err? ==> Faulty(c, Validate(c).error)
      ensures Validate(c).Err? && Rank(d) < Rank(Validate(c).error) ==> !Faulty(c, d)
    {
      ReportedIsFirst(c, d);
    }
    ReportedIsFirst(c, e);
    if Validate(c).Err? && Rank(e) == Rank(Validate(c).error) {
      RankIsInjective(e, Validate(c).error);
    }
  }

  lemma RankIsInjective(d: LimitError, e: LimitError)
    requires Rank(d) == Rank(e)
    ensures d == e
  {
  }

  /** Acceptance, field by field: each limit in its range, the ports within the ephemeral range, and
      the buffers at full load below four fifths of a known memory. */
  lemma ValidateAcceptsIff(c: Config)
    ensures Validate(c).Ok? <==>
              && 65535 <= c.tcpBuffer <= 8388608 && 4096 <= c.relayBuffer <= 1048576
              && 1 <= c.maxConcurrent <= 16384 && 1 <= c.maxPending <= c.maxConcurrent
              && c.connectTimeout > 0 && c.handshakeTimeout > 0 && c.idleTimeout > 0 && c.eyeballsDelay > 0
              && 1 <= c.maxCandidates <= 32 && 1 <= c.maxParallel <= 4
              && c.maxConcurrent + c.maxPending * (c.maxParallel - 1) <= 32768
              && 1 <= c.cacheEntries <= 1000000 && c.dnsTimeout > 0
              && (c.memory.Some? ==>
                    5 * ((2 * c.tcpBuffer + 2 * c.relayBuffer) * c.maxConcurrent
                         + 2 * c.tcpBuffer * (c.maxParallel - 1) * c.maxPending) < 4 * c.memory.value)
  {
    if FieldsInRange(c) {
      NothingSaturates(c);
    }
  }

  // ----- The adaptive default

  const DEFAULT_PER_CONNECTION: nat := 320 * KIB

  function DefaultMaxConcurrent(memory: Option<nat>): nat {
    match memory
    case Some(total) => Min(Max(total / 2 / DEFAULT_PER_CONNECTION, 1024), 16384)
    case None => 2048
  }

  function DefaultConfig(memory: Option<nat>): Config {
    Config(128 * KIB, 32 * KIB, DefaultMaxConcurrent(memory), 512, 8, 2,
           8000, 10000, 300000, 200, 4096, 3000, memory)
  }

  lemma DefaultCapacity(memory: Option<nat>)
    ensures Capacity(DefaultConfig(memory)) ==
            DEFAULT_PER_CONNECTION * DefaultMaxConcurrent(memory) + 128 * MIB
  {
    var n := DefaultMaxConcurrent(memory);
    assert SaturatingMul(DEFAULT_PER_CONNECTION, n) == DEFAULT_PER_CONNECTION * n;
  }

  /** The default against the program's own guard: the limit always lies in 1024..=16384 and meets
      every check but one, and the memory guard accepts it exactly above 560 MiB. */
  lemma DefaultPassesGuardAbove560MiB(total: nat)
    ensures 1024 <= DefaultMaxConcurrent(Some(total)) <= 16384
    ensures Validate(DefaultConfig(Some(total))).Ok? <==> total > 560 * MIB
    ensures total <= 560 * MIB ==> Validate(DefaultConfig(Some(total))) == Err(Memory)
    ensures Validate(DefaultConfig(None)).Ok?
  {
    DefaultCapacity(Some(total));
    var n := DefaultMaxConcurrent(Some(total));
    var q := total / 2 / DEFAULT_PER_CONNECTION;
    assert DEFAULT_PER_CONNECTION * q <= total / 2;
    if q <= 1024 {
      assert n == 1024;
    } else {
      assert n <= q;
      assert DEFAULT_PER_CONNECTION * n <= total / 2;
    }
  }

  /** The test suite's claim that a default configuration always passes its own guard fails on a
      512 MiB machine. */
  lemma DefaultRejectedAt512MiB()
    ensures Validate(DefaultConfig(Some(512 * MIB))) == Err(Memory)
  {
    DefaultPassesGuardAbove560MiB(512 * MIB);
  }

  /** The adaptive default exactly: half the memory in units of 320 KiB, between its two bounds. */
  lemma DefaultMaxConcurrentExact(total: nat)
    ensures var n := DefaultMaxConcurrent(Some(total));
            && (n == 1024 <==> total < 1025 * 655360)
            && (n == 16384 <==> total >= 16384 * 655360)
            && (1024 < n < 16384 ==> n * 655360 <= total < (n + 1) * 655360)
    ensures DefaultMaxConcurrent(None) == 2048
  {
    assert total / 2 / DEFAULT_PER_CONNECTION == total / 655360;
  }

  /** The documented table of defaults, from 1 GiB to 16 GiB and more. */
  lemma DefaultMaxConcurrentTable(total: nat)
    ensures DefaultMaxConcurrent(Some(1 * 1073741824)) == 1638
    ensures DefaultMaxConcurrent(Some(2 * 1073741824)) == 3276
    ensures DefaultMaxConcurrent(Some(4 * 1073741824)) == 6553
    ensures DefaultMaxConcurrent(Some(8 * 1073741824)) == 13107
    ensures total >= 16 * 1073741824 ==> DefaultMaxConcurrent(Some(total)) == 16384
  {
    DefaultMaxConcurrentExact(total);
  }
}
