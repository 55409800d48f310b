/** `build_dns_query` of `src/dns.rs`: which hosts are accepted, and what the query says. */
module DnsQuery {
  import opened Common
  import opened DnsWire

  function StripDot(host: string): string {
    if host != "" && host[|host| - 1] == '.' then host[..|host| - 1] else host
  }

  predicate IsAscii(s: string) { forall i :: 0 <= i < |s| ==> s[i] < 128 as char }

  /** `str::split('.')`: never empty, and pieces contain no dot. */
  function Split(s: string): (pieces: seq<string>)
    ensures |pieces| >= 1
  {
    if s == "" then [""]
    else
      var rest := Split(s[1..]);
      if s[0] == '.' then [""] + rest else [[s[0]] + rest[0]] + rest[1..]
  }

  function Join(pieces: seq<string>): string
    requires pieces != []
  {
    if |pieces| == 1 then pieces[0] else pieces[0] + "." + Join(pieces[1..])
  }

  function Bytes(s: string): seq<byte>
    requires IsAscii(s)
  {
    seq(|s|, i requires 0 <= i < |s| => s[i] as int)
  }

  predicate LabelLengthsOk(pieces: seq<string>) {
    forall i :: 0 <= i < |pieces| ==> 1 <= |pieces[i]| <= 63
  }

  /** The hosts a query can be built for (section 2.3.4 of RFC 1035): 253 characters once the
      trailing dot is gone are 255 bytes on the wire. */
  predicate Accepts(host: string) {
    var h := StripDot(host);
    1 <= |h| <= 253 && IsAscii(h) && LabelLengthsOk(Split(h))
  }

  function WireLabels(pieces: seq<string>): seq<seq<byte>>
    requires forall i :: 0 <= i < |pieces| ==> IsAscii(pieces[i])
  {
    seq(|pieces|, i requires 0 <= i < |pieces| => Bytes(pieces[i]))
  }

  function Header(id: u16): seq<byte> {
    ToBe(id) + ToBe(0x0100) + ToBe(1) + ToBe(0) + ToBe(0) + ToBe(0)
  }

  // ----- Splitting and joining

  lemma JoinHead(c: char, pieces: seq<string>)
    requires pieces != []
    ensures Join([[c] + pieces[0]] + pieces[1..]) == [c] + Join(pieces)
  {
    var longer := [[c] + pieces[0]] + pieces[1..];
    assert longer[1..] == pieces[1..];
    if |pieces| > 1 {
      assert [c] + pieces[0] + "." + Join(pieces[1..]) == [c] + (pieces[0] + "." + Join(pieces[1..]));
    }
  }

  lemma {:induction false} JoinSplit(s: string)
    ensures Join(Split(s)) == s
    ensures IsAscii(s) ==> forall i :: 0 <= i < |Split(s)| ==> IsAscii(Split(s)[i])
    ensures forall i :: 0 <= i < |Split(s)| ==> '.' !in Split(s)[i]
  {
    if s != "" {
      JoinSplit(s[1..]);
      var rest := Split(s[1..]);
      assert IsAscii(s) ==> IsAscii(s[1..]);
      if s[0] == '.' {
        assert ([""] + rest)[1..] == rest;
      } else {
        var joined := [[s[0]] + rest[0]] + rest[1..];
        assert joined[1..] == rest[1..];
        assert forall i :: 1 <= i < |joined| ==> joined[i] == rest[i];
        assert IsAscii(s) ==> IsAscii(joined[0]);
        JoinHead(s[0], rest);
      }
      assert [s[0]] + s[1..] == s;
    }
  }

  /** The pieces are the only ones: whatever dot-free pieces are joined, splitting gives them back. */
  lemma {:induction false} SplitJoin(pieces: seq<string>)
    requires pieces != [] && forall i :: 0 <= i < |pieces| ==> '.' !in pieces[i]
    ensures Split(Join(pieces)) == pieces
    decreases |Join(pieces)|
  {
    var p, rest := pieces[0], pieces[1..];
    assert pieces == [p] + rest;
    if p == "" {
      if rest != [] {
        assert Join(pieces) == "." + Join(rest);
        assert Join(pieces)[1..] == Join(rest);
        SplitJoin(rest);
      }
    } else {
      var shorter := [p[1..]] + rest;
      assert shorter[1..] == rest;
      assert p == [p[0]] + p[1..];
      JoinHead(p[0], shorter);
      assert Join(pieces)[1..] == Join(shorter);
      assert '.' !in shorter[0] by {
        forall i | 0 <= i < |shorter[0]| ensures shorter[0][i] != '.' {
          assert shorter[0][i] == p[i + 1];
        }
      }
      SplitJoin(shorter);
    }
  }

  /** One trailing dot is dropped, and nothing else. */
  lemma StripDotSpec(h: string)
    ensures StripDot(h + ".") == h
    ensures h == "" || h[|h| - 1] != '.' ==> StripDot(h) == h
  {
    assert (h + ".")[..|h|] == h;
  }

  /** Bytes the first `n` pieces take on the wire. */
  function WireLength(pieces: seq<string>): nat {
    if pieces == [] then 0 else WireLength(pieces[..|pieces| - 1]) + 1 + |pieces[|pieces| - 1]|
  }

  lemma {:induction false} WireLengthGrows(pieces: seq<string>, n: nat)
    requires n <= |pieces|
    ensures WireLength(pieces[..n]) <= WireLength(pieces)
    decreases |pieces|
  {
    if n < |pieces| {
      var front := pieces[..|pieces| - 1];
      assert front[..n] == pieces[..n];
      WireLengthGrows(front, n);
    } else {
      assert pieces[..n] == pieces;
    }
  }

  lemma {:induction false} WireLengthConcat(a: seq<string>, b: seq<string>)
    ensures WireLength(a + b) == WireLength(a) + WireLength(b)
    decreases |b|
  {
    if b == [] {
      assert a + b == a;
    } else {
      assert (a + b)[..|a + b| - 1] == a + b[..|b| - 1];
      WireLengthConcat(a, b[..|b| - 1]);
    }
  }

  lemma {:induction false} WireLengthOfJoin(pieces: seq<string>)
    requires pieces != []
    ensures WireLength(pieces) == |Join(pieces)| + 1
    decreases |pieces|
  {
    if |pieces| == 1 {
      assert pieces[..0] == [];
    } else {
      WireLengthOfJoin(pieces[1..]);
      WireLengthConcat(pieces[..1], pieces[1..]);
      assert pieces == pieces[..1] + pieces[1..];
      assert pieces[..1][..0] == [];
    }
  }

  lemma {:induction false} EncodeLabelsSnoc(ls: seq<seq<byte>>, l: seq<byte>)
    requires ValidLabel(l) && forall i :: 0 <= i < |ls| ==> ValidLabel(ls[i])
    ensures forall i :: 0 <= i < |ls + [l]| ==> ValidLabel((ls + [l])[i])
    ensures EncodeLabels(ls + [l]) == EncodeLabels(ls) + EncodeLabel(l)
    decreases |ls|
  {
    if ls == [] {
      assert ls + [l] == [l];
      assert [l][1..] == [];
    } else {
      assert (ls + [l])[1..] == ls[1..] + [l];
      EncodeLabelsSnoc(ls[1..], l);
    }
  }

  // ----- build_dns_query

  method BuildDnsQuery(host: string, qtype: u16, id: u16) returns (r: Result<seq<byte>, DnsError>)
    ensures r.Ok? <==> Accepts(host)
    ensures r == Err(BadHost) <==> StripDot(host) == "" || !IsAscii(StripDot(host))
    ensures r.Ok? ==>
              exists n :: ValidName(n) && n.end.Root? && IsQueryFor(r.value, n, StripDot(host), qtype, id)
  {
    var h := StripDot(host);
    if h == "" || !IsAscii(h) {
      return Err(BadHost);
    }
    var pieces := Split(h);
    JoinSplit(h);
    WireLengthOfJoin(pieces);
    var name := AppendLabels(Header(id), pieces);
    if name.Err? {
      return Err(name.error);
    }
    var buf := name.value + [0] + ToBe(qtype) + ToBe(1);
    ghost var n := WireName(WireLabels(pieces), Root);
    assert buf == Header(id) + (EncodeLabels(n.labels) + [0]) + ToBe(qtype) + ToBe(1);
    assert IsQueryFor(buf, n, h, qtype, id);
    return Ok(buf);
  }

  ghost predicate ValidUpTo(all: seq<seq<byte>>, n: nat)
    requires n <= |all|
  {
    forall j :: 0 <= j < n ==> ValidLabel(all[j])
  }

  /** One more label in the buffer. */
  lemma AppendOne(buf: seq<byte>, header: seq<byte>, pieces: seq<string>, i: nat)
    requires i < |pieces| && (forall j :: 0 <= j < |pieces| ==> IsAscii(pieces[j])) && 1 <= |pieces[i]| <= 63
    requires ValidUpTo(WireLabels(pieces), i) && buf == header + EncodeLabels(WireLabels(pieces)[..i])
    ensures ValidUpTo(WireLabels(pieces), i + 1)
    ensures var len: byte := |pieces[i]|;
            buf + ([len] + Bytes(pieces[i])) == header + EncodeLabels(WireLabels(pieces)[..i + 1])
    ensures WireLength(pieces[..i + 1]) == WireLength(pieces[..i]) + 1 + |pieces[i]|
  {
    var all := WireLabels(pieces);
    assert all[i] == Bytes(pieces[i]);
    assert all[..i + 1] == all[..i] + [Bytes(pieces[i])];
    EncodeLabelsSnoc(all[..i], Bytes(pieces[i]));
    assert pieces[..i + 1][..i] == pieces[..i];
  }

  lemma AllValid(pieces: seq<string>)
    requires (forall j :: 0 <= j < |pieces| ==> IsAscii(pieces[j])) && ValidUpTo(WireLabels(pieces), |pieces|)
    ensures LabelLengthsOk(pieces) && WireLabels(pieces)[..|pieces|] == WireLabels(pieces) && pieces[..|pieces|] == pieces
  {
    assert forall i :: 0 <= i < |pieces| ==> |pieces[i]| == |WireLabels(pieces)[i]|;
  }

  /** The labels up to the i-th fit one by one, but not together within 255 bytes. */
  predicate TooLongAt(pieces: seq<string>, i: nat)
    requires i < |pieces|
  {
    LabelLengthsOk(pieces[..i + 1]) && WireLength(pieces[..i + 1]) + 1 > 255
  }

  ghost predicate TooLong(pieces: seq<string>) { exists i :: 0 <= i < |pieces| && TooLongAt(pieces, i) }

  lemma NotTooLongBefore(pieces: seq<string>, n: nat)
    requires n <= |pieces| && WireLength(pieces[..n]) + 1 <= 255
    requires n == |pieces| || !(1 <= |pieces[n]| <= 63)
    ensures !TooLong(pieces)
  {
    forall i | 0 <= i < |pieces| ensures !TooLongAt(pieces, i) {
      if i < n {
        assert pieces[..n][..i + 1] == pieces[..i + 1];
        WireLengthGrows(pieces[..n], i + 1);
      } else {
        assert pieces[..i + 1][n] == pieces[n];
      }
    }
  }

  lemma TooLongHere(pieces: seq<string>, all: seq<seq<byte>>, i: nat)
    requires i < |pieces| == |all| && WireLength(pieces[..i + 1]) + 1 > 255
    requires forall j :: 0 <= j < |pieces| ==> |all[j]| == |pieces[j]|
    requires forall j :: 0 <= j <= i ==> ValidLabel(all[j])
    ensures TooLong(pieces)
  {
    assert TooLongAt(pieces, i);
  }

  /** The label loop: every label is length-checked, and the name so far must leave room for its
      root byte within 255. */
  method AppendLabels(header: seq<byte>, pieces: seq<string>) returns (r: Result<seq<byte>, DnsError>)
    requires |header| == 12 && pieces != [] && forall i :: 0 <= i < |pieces| ==> IsAscii(pieces[i])
    ensures r.Ok? <==> LabelLengthsOk(pieces) && WireLength(pieces) + 1 <= 255
    ensures r.Ok? ==> && (forall j :: 0 <= j < |WireLabels(pieces)| ==> ValidLabel(WireLabels(pieces)[j]))
                      && r.value == header + EncodeLabels(WireLabels(pieces))
    ensures r == Err(NameTooLong) <==> TooLong(pieces)
    ensures r.Err? ==> r.error == NameTooLong || r.error == BadLabelLength
  {
    var buf := header;
    for i := 0 to |pieces|
      invariant ValidUpTo(WireLabels(pieces), i)
      invariant buf == header + EncodeLabels(WireLabels(pieces)[..i])
      invariant |buf| == 12 + WireLength(pieces[..i])
      invariant i > 0 ==> WireLength(pieces[..i]) + 1 <= 255
    {
      var piece := pieces[i];
      if |piece| == 0 || |piece| > 63 {
        NotTooLongBefore(pieces, i);
        return Err(BadLabelLength);
      }
      AppendOne(buf, header, pieces, i);
      var len: byte := |piece|;
      buf := buf + ([len] + Bytes(piece));
      if |buf| - 12 + 1 > 255 {
        WireLengthGrows(pieces, i + 1);
        TooLongHere(pieces, WireLabels(pieces), i);
        return Err(NameTooLong);
      }
    }
    AllValid(pieces);
    NotTooLongBefore(pieces, |pieces|);
    return Ok(buf);
  }

  /** `query` asks for `qtype` of the name `n`, whose labels are the pieces of `h`. */
  ghost predicate IsQueryFor(query: seq<byte>, n: WireName, h: string, qtype: u16, id: u16)
    requires ValidName(n)
  {
    && IsAscii(h)
    && (forall i :: 0 <= i < |Split(h)| ==> IsAscii(Split(h)[i]))
    && n.labels == WireLabels(Split(h))
    && query == Header(id) + EncodeName(n) + ToBe(qtype) + ToBe(1)
  }

  /** The label's bytes are the piece's characters. */
  predicate Spells(l: seq<byte>, piece: string) {
    |l| == |piece| && forall j :: 0 <= j < |l| ==> l[j] == piece[j] as int
  }

  lemma QueryLayout(header: seq<byte>, name: seq<byte>, qtype: seq<byte>, class_: seq<byte>)
    requires |header| == 12 && |qtype| == 2 && |class_| == 2
    ensures var query := header + name + qtype + class_;
            && query[..12] == header && At(query, 12, name)
            && |query| == 12 + |name| + 4 && query[|query| - 4..] == qtype + class_
  {
  }

  /** Whatever name a reader finds at offset 12 of a built query, its labels spell the host;
      `skip_name` stops exactly on QTYPE; and the question is for the asked type, class IN. */
  lemma QueryReadsBack(query: seq<byte>, n: WireName, h: string, qtype: u16, id: u16, found: WireName)
    requires ValidName(n) && IsQueryFor(query, n, h, qtype, id)
    requires ValidName(found) && At(query, 12, EncodeName(found))
    ensures found == n && |found.labels| == |Split(h)|
    ensures forall i :: 0 <= i < |found.labels| ==> Spells(found.labels[i], Split(h)[i])
    ensures Join(Split(h)) == h
    ensures NameEndAt(query, 12) == Ok(|query| - 4)
    ensures query[|query| - 4..] == ToBe(qtype) + [0, CLASS_IN]
  {
    QueryLayout(Header(id), EncodeName(n), ToBe(qtype), ToBe(1));
    NameIsUnique(query, 12, n, found);
    SkipsEncodedName(query, 12, n);
    JoinSplit(h);
    LabelsSpell(Split(h), n.labels);
  }

  lemma LabelsSpell(pieces: seq<string>, labels: seq<seq<byte>>)
    requires (forall i :: 0 <= i < |pieces| ==> IsAscii(pieces[i])) && labels == WireLabels(pieces)
    ensures |labels| == |pieces| && forall i :: 0 <= i < |labels| ==> Spells(labels[i], pieces[i])
  {
    forall i | 0 <= i < |labels| ensures Spells(labels[i], pieces[i]) {
      assert IsAscii(pieces[i]) && labels[i] == Bytes(pieces[i]);
    }
  }

  /** The fixed bytes of a query: its id, recursion desired, one question and nothing else; then,
      after the name, the type and class IN. */
  lemma QueryBytes(query: seq<byte>, n: WireName, h: string, qtype: u16, id: u16)
    requires ValidName(n) && IsQueryFor(query, n, h, qtype, id)
    ensures |query| >= 16
    ensures query[..12] == [id / 256, id % 256, 1, 0, 0, 1, 0, 0, 0, 0, 0, 0]
    ensures query[|query| - 4..] == [qtype / 256, qtype % 256, 0, 1]
  {
    QueryLayout(Header(id), EncodeName(n), ToBe(qtype), ToBe(1));
  }
}
