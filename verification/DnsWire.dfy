/** The hand-written RFC 1035 codec of `src/dns.rs`: name skipping, query building and
    answer parsing. The loops are methods; each is tied to a function, and the functions
    are tied to an independent grammar of messages (`Encode`). */
module DnsWire {
  import opened Common

  datatype DnsError =
    | ReplyTooShort | IdMismatch | NotAResponse | TruncatedFlag | ResponseCode(rcode: nat)
    | NoAnswer | NameOutOfBounds | PointerTruncated | BadLabelTag | AnswerTruncated
    | RdataTruncated | NoUsableRecord | BadHost | BadLabelLength | NameTooLong

  const QTYPE_A: u16 := 1
  const QTYPE_AAAA: u16 := 28
  const CLASS_IN: u16 := 1

  // ----- Grammar of names (sections 3.1 and 4.1.4 of RFC 1035)

  datatype NameEnd = Root | Pointer(hi: byte, lo: byte)

  datatype WireName = WireName(labels: seq<seq<byte>>, end: NameEnd)

  predicate ValidLabel(l: seq<byte>) { 1 <= |l| <= 63 }

  predicate ValidName(n: WireName) {
    && (forall i :: 0 <= i < |n.labels| ==> ValidLabel(n.labels[i]))
    && (n.end.Pointer? ==> n.end.hi >= 0xC0)
  }

  function EncodeLabel(l: seq<byte>): seq<byte>
    requires ValidLabel(l)
  {
    var len: byte := |l|;
    [len] + l
  }

  function EncodeLabels(ls: seq<seq<byte>>): seq<byte>
    requires forall i :: 0 <= i < |ls| ==> ValidLabel(ls[i])
  {
    if ls == [] then [] else EncodeLabel(ls[0]) + EncodeLabels(ls[1..])
  }

  function EncodeName(n: WireName): seq<byte>
    requires ValidName(n)
  {
    EncodeLabels(n.labels) + match n.end { case Root => [0] case Pointer(hi, lo) => [hi, lo] }
  }

  /** The bytes `b` stand in `buf` at `off`. */
  predicate At(buf: seq<byte>, off: nat, b: seq<byte>) {
    off + |b| <= |buf| && buf[off..off + |b|] == b
  }

  lemma AtSplit(buf: seq<byte>, off: nat, a: seq<byte>, b: seq<byte>)
    ensures At(buf, off, a + b) <==> At(buf, off, a) && At(buf, off + |a|, b)
  {
    if off + |a| + |b| <= |buf| {
      assert buf[off..off + |a + b|] == buf[off..off + |a|] + buf[off + |a|..off + |a| + |b|];
      if At(buf, off, a + b) {
        assert (a + b)[..|a|] == a && (a + b)[|a|..] == b;
      }
    }
  }

  lemma AtLabel(buf: seq<byte>, off: nat, l: seq<byte>, rest: seq<byte>)
    requires ValidLabel(l)
    ensures At(buf, off, EncodeLabel(l) + rest) <==>
              && off + 1 + |l| <= |buf| && buf[off] == |l|
              && buf[off + 1..off + 1 + |l|] == l && At(buf, off + 1 + |l|, rest)
  {
    AtSplit(buf, off, EncodeLabel(l), rest);
    if off + 1 + |l| <= |buf| {
      var len: byte := buf[off];
      assert buf[off..off + 1 + |l|] == [len] + buf[off + 1..off + 1 + |l|];
    }
  }

  /** The first label of a name and the rest of it. */
  lemma EncodeNameHead(n: WireName)
    requires ValidName(n) && n.labels != []
    ensures ValidName(WireName(n.labels[1..], n.end))
    ensures EncodeName(n) == EncodeLabel(n.labels[0]) + EncodeName(WireName(n.labels[1..], n.end))
  {
  }

  lemma AtByte(buf: seq<byte>, off: nat, b: byte)
    ensures At(buf, off, [b]) <==> off < |buf| && buf[off] == b
  {
    if off < |buf| {
      assert buf[off..off + 1] == [buf[off]];
    }
  }

  // ----- skip_name

  /** Offset just after the name at `off`. The tag tests are those of the source:
      `b & 0xc0 == 0xc0` is `b >= 0xC0`, and `b & 0xc0 != 0` is `b >= 0x40`. */
  function NameEndAt(buf: seq<byte>, off: nat): Result<nat, DnsError>
    decreases |buf| - off
  {
    if off >= |buf| then Err(NameOutOfBounds)
    else if buf[off] == 0 then Ok(off + 1)
    else if buf[off] >= 0xC0 then if off + 2 > |buf| then Err(PointerTruncated) else Ok(off + 2)
    else if buf[off] >= 0x40 then Err(BadLabelTag)
    else NameEndAt(buf, off + 1 + buf[off])
  }

  method SkipName(buf: seq<byte>, start: nat) returns (r: Result<nat, DnsError>)
    ensures r == NameEndAt(buf, start)
    ensures r.Ok? ==> start < r.value <= |buf|
  {
    var off := start;
    while true
      invariant NameEndAt(buf, off) == NameEndAt(buf, start) && off >= start
      decreases |buf| - off
    {
      if off >= |buf| {
        return Err(NameOutOfBounds);
      }
      var b := buf[off];
      if b == 0 {
        return Ok(off + 1);
      }
      if b >= 0xC0 {
        var end := off + 2;
        if end > |buf| {
          return Err(PointerTruncated);
        }
        return Ok(end);
      }
      if b >= 0x40 {
        return Err(BadLabelTag);
      }
      off := off + 1 + b;
    }
  }

  /** A well-formed name is skipped exactly, wherever it stands and whatever follows it. */
  lemma {:induction false} SkipsEncodedName(buf: seq<byte>, off: nat, n: WireName)
    requires ValidName(n) && At(buf, off, EncodeName(n))
    ensures NameEndAt(buf, off) == Ok(off + |EncodeName(n)|)
    decreases |n.labels|
  {
    if n.labels == [] {
      assert EncodeName(n) == match n.end { case Root => [0] case Pointer(hi, lo) => [hi, lo] };
      assert buf[off] == buf[off..off + |EncodeName(n)|][0];
    } else {
      var l, rest := n.labels[0], WireName(n.labels[1..], n.end);
      EncodeNameHead(n);
      AtLabel(buf, off, l, EncodeName(rest));
      SkipsEncodedName(buf, off + 1 + |l|, rest);
    }
  }

  /** Conversely, whatever is skipped was a well-formed name. */
  lemma {:induction false} SkippedIsEncodedName(buf: seq<byte>, off: nat) returns (n: WireName)
    requires NameEndAt(buf, off).Ok?
    ensures ValidName(n) && At(buf, off, EncodeName(n))
    ensures NameEndAt(buf, off).value == off + |EncodeName(n)|
    decreases |buf| - off
  {
    var b := buf[off];
    if b == 0 {
      n := WireName([], Root);
      AtByte(buf, off, 0);
      assert EncodeName(n) == [0];
    } else if b >= 0xC0 {
      n := WireName([], Pointer(b, buf[off + 1]));
      assert buf[off..off + 2] == [b, buf[off + 1]];
      assert EncodeName(n) == [b, buf[off + 1]];
    } else {
      var rest := SkippedIsEncodedName(buf, off + 1 + b);
      n := ConsLabel(buf, off, rest);
    }
  }

  lemma ConsLabel(buf: seq<byte>, off: nat, rest: WireName) returns (n: WireName)
    requires off < |buf| && 1 <= buf[off] <= 63 && ValidName(rest) && At(buf, off + 1 + buf[off], EncodeName(rest))
    ensures ValidName(n) && At(buf, off, EncodeName(n)) && |EncodeName(n)| == 1 + buf[off] + |EncodeName(rest)|
  {
    var l := buf[off + 1..off + 1 + buf[off]];
    n := WireName([l] + rest.labels, rest.end);
    EncodeNameCons(l, rest);
    AtLabel(buf, off, l, EncodeName(rest));
  }

  lemma EncodeNameCons(l: seq<byte>, rest: WireName)
    requires ValidLabel(l) && ValidName(rest)
    ensures var n := WireName([l] + rest.labels, rest.end);
            ValidName(n) && EncodeName(n) == EncodeLabel(l) + EncodeName(rest)
  {
    var n := WireName([l] + rest.labels, rest.end);
    assert n.labels[1..] == rest.labels;
    EncodeNameHead(n);
  }

  /** At most one well-formed name stands at an offset. */
  lemma {:induction false} NameIsUnique(buf: seq<byte>, off: nat, a: WireName, b: WireName)
    requires ValidName(a) && At(buf, off, EncodeName(a))
    requires ValidName(b) && At(buf, off, EncodeName(b))
    ensures a == b
    decreases |a.labels|
  {
    FirstByte(buf, off, a);
    FirstByte(buf, off, b);
    if a.labels == [] {
      if a.end.Pointer? {
        assert EncodeName(a)[1] == EncodeName(b)[1];
      }
    } else {
      var restA, restB := WireName(a.labels[1..], a.end), WireName(b.labels[1..], b.end);
      NameIsUnique(buf, off + 1 + buf[off], restA, restB);
      assert a.labels == [a.labels[0]] + restA.labels;
      assert b.labels == [b.labels[0]] + restB.labels;
    }
  }

  lemma FirstByte(buf: seq<byte>, off: nat, n: WireName)
    requires ValidName(n) && At(buf, off, EncodeName(n))
    ensures off < |buf|
    ensures n.labels == [] && n.end.Root? ==> buf[off] == 0
    ensures n.labels == [] && n.end.Pointer? ==>
              off + 2 <= |buf| && buf[off] == n.end.hi >= 0xC0 && buf[off + 1] == n.end.lo
    ensures n.labels != [] ==>
              && 1 <= buf[off] == |n.labels[0]| <= 63
              && off + 1 + buf[off] <= |buf| && n.labels[0] == buf[off + 1..off + 1 + buf[off]]
              && At(buf, off + 1 + buf[off], EncodeName(WireName(n.labels[1..], n.end)))
  {
    if n.labels == [] {
      assert EncodeName(n) == match n.end { case Root => [0] case Pointer(hi, lo) => [hi, lo] };
      assert buf[off] == buf[off..off + |EncodeName(n)|][0];
      if n.end.Pointer? {
        assert buf[off + 1] == buf[off..off + |EncodeName(n)|][1];
      }
    } else {
      var l, rest := n.labels[0], WireName(n.labels[1..], n.end);
      EncodeNameHead(n);
      AtLabel(buf, off, l, EncodeName(rest));
    }
  }
}
