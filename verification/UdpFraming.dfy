/** SOCKS5 UDP framing (`src/proxy/udp.rs`, section 7 of RFC 1928): the request parser and the reply
    wrapper against one definition of a frame. */
module UdpFraming {
  import opened Common

  datatype Target = Address(addr: SocketAddr) | Domain(host: seq<byte>, port: u16)

  datatype Datagram = Datagram(target: Target, payload: seq<byte>)

  datatype UdpError =
    | TooShort | ReservedNotZero | Fragmented | HeaderTruncated | EmptyDomain | DomainNotUtf8 | PortZero
    | UnknownAddressType(atyp: byte)

  function Port(t: Target): u16 { match t case Address(a) => a.port case Domain(_, p) => p }

  /** Targets that have a representation on the wire. */
  predicate WellFormed(t: Target, utf8: seq<byte> -> bool) {
    match t
    case Address(a) => |a.ip.octets| == if a.ip.V4? then 4 else 16
    case Domain(h, _) => 1 <= |h| <= 255 && utf8(h)
  }

  function AddressType(t: Target): byte { if t.Domain? then 3 else if t.addr.ip.V4? then 1 else 4 }

  function Destination(t: Target): seq<byte>
    requires t.Domain? ==> |t.host| <= 255
  {
    match t
    case Address(a) => a.ip.octets + ToBe(a.port)
    case Domain(h, port) => var len: byte := |h|; [len] + h + ToBe(port)
  }

  /** Two reserved bytes, fragment number zero, the address type, the destination, the data. */
  function Frame(d: Datagram): seq<byte>
    requires d.target.Domain? ==> |d.target.host| <= 255
  {
    [0, 0, 0, AddressType(d.target)] + (Destination(d.target) + d.payload)
  }

  /** The address form: `n` octets, a port, the payload. */
  function ParseAddress(rest: seq<byte>, v6: bool): Result<Datagram, UdpError> {
    var n := if v6 then 16 else 4;
    if |rest| < n + 2 then Err(HeaderTruncated)
    else
      var port := FromBe(rest[n], rest[n + 1]);
      if port == 0 then Err(PortZero)
      else Ok(Datagram(Address(SocketAddr(if v6 then V6(rest[..n]) else V4(rest[..n]), port)), rest[n + 2..]))
  }

  function ParseDomain(rest: seq<byte>, utf8: seq<byte> -> bool): Result<Datagram, UdpError> {
    if rest == [] then Err(HeaderTruncated)
    else
      var n: nat := rest[0];
      if n == 0 then Err(EmptyDomain)
      else if |rest| < 1 + n + 2 then Err(HeaderTruncated)
      else if !utf8(rest[1..1 + n]) then Err(DomainNotUtf8)
      else
        var port := FromBe(rest[1 + n], rest[1 + n + 1]);
        if port == 0 then Err(PortZero) else Ok(Datagram(Domain(rest[1..1 + n], port), rest[1 + n + 2..]))
  }

  function Parse(buf: seq<byte>, utf8: seq<byte> -> bool): Result<Datagram, UdpError> {
    if |buf| < 4 then Err(TooShort)
    else if buf[0] != 0 || buf[1] != 0 then Err(ReservedNotZero)
    else if buf[2] != 0 then Err(Fragmented)
    else if buf[3] == 1 then ParseAddress(buf[4..], false)
    else if buf[3] == 3 then ParseDomain(buf[4..], utf8)
    else if buf[3] == 4 then ParseAddress(buf[4..], true)
    else Err(UnknownAddressType(buf[3]))
  }

  lemma AddressParts(o: seq<byte>, port: u16, payload: seq<byte>, v6: bool)
    requires |o| == if v6 then 16 else 4
    ensures var ip := if v6 then V6(o) else V4(o);
            ParseAddress(o + ToBe(port) + payload, v6) ==
            if port == 0 then Err(PortZero) else Ok(Datagram(Address(SocketAddr(ip, port)), payload))
  {
    var rest, n := o + ToBe(port) + payload, |o|;
    assert rest[..n] == o && rest[n + 2..] == payload;
    assert FromBe(rest[n], rest[n + 1]) == port;
  }

  lemma DomainParts(h: seq<byte>, port: u16, payload: seq<byte>, utf8: seq<byte> -> bool)
    requires 1 <= |h| <= 255 && utf8(h)
    ensures var len: byte := |h|;
            ParseDomain([len] + h + ToBe(port) + payload, utf8) ==
            if port == 0 then Err(PortZero) else Ok(Datagram(Domain(h, port), payload))
  {
    var len: byte, n := |h|, |h|;
    var rest := [len] + h + ToBe(port) + payload;
    assert rest[1..1 + n] == h && rest[1 + n + 2..] == payload;
    assert FromBe(rest[1 + n], rest[1 + n + 1]) == port;
  }

  /** Every frame parses back to its datagram, unless its port is zero, which is refused. */
  lemma ParseInvertsFrame(d: Datagram, utf8: seq<byte> -> bool)
    requires WellFormed(d.target, utf8)
    ensures Parse(Frame(d), utf8) == if Port(d.target) == 0 then Err(PortZero) else Ok(d)
  {
    var kind, rest := AddressType(d.target), Destination(d.target) + d.payload;
    FramePrefix(kind, rest);
    match d.target
    case Address(a) => AddressParts(a.ip.octets, a.port, d.payload, a.ip.V6?);
    case Domain(h, port) => DomainParts(h, port, d.payload, utf8);
  }

  lemma FramePrefix(kind: byte, rest: seq<byte>)
    ensures var buf := [0, 0, 0, kind] + rest;
            |buf| >= 4 && buf[0] == 0 && buf[1] == 0 && buf[2] == 0 && buf[3] == kind && buf[4..] == rest
  {
  }

  lemma ReassemblePort(rest: seq<byte>, n: nat)
    requires n + 2 <= |rest|
    ensures rest == rest[..n] + ToBe(FromBe(rest[n], rest[n + 1])) + rest[n + 2..]
  {
    assert ToBe(FromBe(rest[n], rest[n + 1])) == [rest[n], rest[n + 1]];
    assert rest == rest[..n] + [rest[n], rest[n + 1]] + rest[n + 2..];
  }

  lemma AcceptedAddress(rest: seq<byte>, v6: bool)
    requires ParseAddress(rest, v6).Ok?
    ensures var d := ParseAddress(rest, v6).value;
            && d.target.Address? && d.target.addr.ip.V6? == v6 && d.target.addr.port != 0
            && |d.target.addr.ip.octets| == (if v6 then 16 else 4)
            && rest == d.target.addr.ip.octets + ToBe(d.target.addr.port) + d.payload
  {
    ReassemblePort(rest, if v6 then 16 else 4);
  }

  lemma AcceptedDomain(rest: seq<byte>, utf8: seq<byte> -> bool)
    requires ParseDomain(rest, utf8).Ok?
    ensures var d := ParseDomain(rest, utf8).value;
            && d.target.Domain? && 1 <= |d.target.host| <= 255 && utf8(d.target.host) && d.target.port != 0
            && (var len: byte := |d.target.host|; rest == [len] + d.target.host + ToBe(d.target.port) + d.payload)
  {
    var n: nat, len: byte := rest[0], rest[0];
    ReassemblePort(rest, 1 + n);
    assert rest[..1 + n] == [len] + rest[1..1 + n];
  }

  /** Nothing but a frame of a well-formed target with a nonzero port is accepted. */
  lemma AcceptedIsFrame(buf: seq<byte>, utf8: seq<byte> -> bool)
    requires Parse(buf, utf8).Ok?
    ensures var d := Parse(buf, utf8).value;
            WellFormed(d.target, utf8) && Port(d.target) != 0 && Frame(d) == buf
  {
    var rest, d := buf[4..], Parse(buf, utf8).value;
    var kind := buf[3];
    assert buf == [0, 0, 0, kind] + rest;
    if kind == 3 {
      AcceptedDomain(rest, utf8);
    } else {
      AcceptedAddress(rest, kind == 4);
    }
    assert Frame(d) == [0, 0, 0, kind] + rest;
  }

  /** Every byte of a frame, by kind of address. */
  lemma FrameLayout(octets: seq<byte>, host: seq<byte>, port: u16, payload: seq<byte>)
    requires |host| <= 255
    ensures Frame(Datagram(Address(SocketAddr(V4(octets), port)), payload)) ==
            [0, 0, 0, 1] + octets + [port / 256, port % 256] + payload
    ensures Frame(Datagram(Address(SocketAddr(V6(octets), port)), payload)) ==
            [0, 0, 0, 4] + octets + [port / 256, port % 256] + payload
    ensures Frame(Datagram(Domain(host, port), payload)) ==
            [0, 0, 0, 3, |host|] + host + [port / 256, port % 256] + payload
  {
  }

  /** The header is there, unfragmented, and starts with an address of type `kind`. */
  predicate Headed(buf: seq<byte>, kind: nat) {
    |buf| >= 4 && buf[0] == 0 && buf[1] == 0 && buf[2] == 0 && buf[3] == kind
  }

  /** Why a datagram is refused, by its bytes; `n` is the length byte of a domain. */
  lemma Refusals(buf: seq<byte>, utf8: seq<byte> -> bool, n: nat)
    requires n == if |buf| > 4 then buf[4] else 0
    ensures var r := Parse(buf, utf8);
            && (r == Err(TooShort) <==> |buf| < 4)
            && (r == Err(ReservedNotZero) <==> |buf| >= 4 && (buf[0] != 0 || buf[1] != 0))
            && (r == Err(Fragmented) <==> |buf| >= 4 && buf[0] == 0 && buf[1] == 0 && buf[2] != 0)
            && (forall t: byte :: r == Err(UnknownAddressType(t)) <==> Headed(buf, t) && t != 1 && t != 3 && t != 4)
            && (r == Err(HeaderTruncated) <==>
                  || (Headed(buf, 1) && |buf| < 10) || (Headed(buf, 4) && |buf| < 22)
                  || (Headed(buf, 3) && (|buf| == 4 || (n != 0 && |buf| < 7 + n))))
            && (r == Err(EmptyDomain) <==> Headed(buf, 3) && |buf| > 4 && n == 0)
            && (r == Err(DomainNotUtf8) <==> Headed(buf, 3) && n != 0 && |buf| >= 7 + n && !utf8(buf[5..5 + n]))
            && (r == Err(PortZero) <==>
                  || (Headed(buf, 1) && |buf| >= 10 && buf[8] == 0 && buf[9] == 0)
                  || (Headed(buf, 4) && |buf| >= 22 && buf[20] == 0 && buf[21] == 0)
                  || (Headed(buf, 3) && n != 0 && |buf| >= 7 + n && utf8(buf[5..5 + n])
                      && buf[5 + n] == 0 && buf[6 + n] == 0))
  {
    if Headed(buf, 3) && n != 0 && |buf| >= 7 + n {
      assert buf[4..][1..1 + n] == buf[5..5 + n];
      assert buf[4..][1 + n] == buf[5 + n] && buf[4..][2 + n] == buf[6 + n];
    }
  }

  /** The reply buffer is reused between datagrams; nothing of its old content survives. */
  class Framer {
    var out: seq<byte>

    method Wrap(src: SocketAddr, payload: seq<byte>)
      modifies this
      ensures out == Frame(Datagram(Address(src), payload))
      ensures out == [0, 0, 0, if src.ip.V4? then 1 else 4] + src.ip.octets + [src.port / 256, src.port % 256] + payload
    {
      out := [];
      match src.ip {
        case V4(octets) =>
          out := out + [0, 0, 0, 1];
          out := out + octets;
        case V6(octets) =>
          out := out + [0, 0, 0, 4];
          out := out + octets;
      }
      out := out + ToBe(src.port);
      out := out + payload;
    }
  }
}
