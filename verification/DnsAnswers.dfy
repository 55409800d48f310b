/** `parse_dns_answers` of `src/dns.rs` against a grammar of DNS messages: the parser
    inverts `Encode` on every message, and accepts nothing that is not an encoding. */
module DnsAnswers {
  import opened Common
  import opened DnsWire

  // ----- Grammar of messages (sections 4.1.1 to 4.1.3 of RFC 1035)

  /** `fixed` is QTYPE and QCLASS, which the parser steps over. */
  datatype Question = Question(name: WireName, fixed: seq<byte>)

  datatype Record = Record(rtype: u16, rclass: u16, rdata: seq<byte>)

  datatype Answer = Answer(name: WireName, record: Record, ttl: seq<byte>)

  /** `counts` are NSCOUNT and ARCOUNT; `rest` is the authority and additional sections. */
  datatype Message = Message(id: u16, flags: u16, counts: seq<byte>,
                             questions: seq<Question>, answers: seq<Answer>, rest: seq<byte>)

  predicate ValidQuestion(q: Question) { ValidName(q.name) && |q.fixed| == 4 }

  predicate ValidAnswer(a: Answer) {
    ValidName(a.name) && |a.ttl| == 4 && |a.record.rdata| < 0x1_0000
  }

  predicate ValidQuestions(qs: seq<Question>) { forall i {:trigger qs[i]} :: 0 <= i < |qs| ==> ValidQuestion(qs[i]) }

  predicate ValidAnswers(xs: seq<Answer>) { forall i {:trigger xs[i]} :: 0 <= i < |xs| ==> ValidAnswer(xs[i]) }

  predicate ValidMessage(m: Message) {
    && |m.counts| == 4 && |m.questions| < 0x1_0000 && |m.answers| < 0x1_0000
    && ValidQuestions(m.questions) && ValidAnswers(m.answers)
  }

  function EncodeQuestions(qs: seq<Question>): seq<byte>
    requires ValidQuestions(qs)
  {
    if qs == [] then [] else EncodeName(qs[0].name) + (qs[0].fixed + EncodeQuestions(qs[1..]))
  }

  function EncodeFixed(a: Answer): seq<byte>
    requires ValidAnswer(a)
  {
    ToBe(a.record.rtype) + (ToBe(a.record.rclass) + (a.ttl + ToBe(|a.record.rdata|)))
  }

  function EncodeAnswer(a: Answer): seq<byte>
    requires ValidAnswer(a)
  {
    EncodeName(a.name) + (EncodeFixed(a) + a.record.rdata)
  }

  function EncodeAnswers(xs: seq<Answer>): seq<byte>
    requires ValidAnswers(xs)
  {
    if xs == [] then []
    else EncodeName(xs[0].name) + (EncodeFixed(xs[0]) + (xs[0].record.rdata + EncodeAnswers(xs[1..])))
  }

  function EncodeHeader(m: Message): seq<byte>
    requires ValidMessage(m)
  {
    ToBe(m.id) + (ToBe(m.flags) + (ToBe(|m.questions|) + (ToBe(|m.answers|) + m.counts)))
  }

  function Encode(m: Message): seq<byte>
    requires ValidMessage(m)
  {
    EncodeHeader(m) + (EncodeQuestions(m.questions) + (EncodeAnswers(m.answers) + m.rest))
  }

  // ----- What the records mean

  function ToIp(r: Record, qtype: u16): Option<IpAddr> {
    if r.rclass != CLASS_IN || r.rtype != qtype then None
    else if qtype == QTYPE_A && |r.rdata| == 4 then Some(V4(r.rdata))
    else if qtype == QTYPE_AAAA && |r.rdata| == 16 then Some(V6(r.rdata))
    else None
  }

  /** The addresses of class IN, the asked type and the right length, in message order. */
  function Usable(rs: seq<Record>, qtype: u16): seq<IpAddr> {
    if rs == [] then []
    else Usable(rs[..|rs| - 1], qtype) +
         match ToIp(rs[|rs| - 1], qtype) { case None => [] case Some(ip) => [ip] }
  }

  function Records(xs: seq<Answer>): seq<Record> {
    seq(|xs|, i requires 0 <= i < |xs| => xs[i].record)
  }

  predicate IsResponse(flags: u16) { flags / 0x8000 == 1 }

  predicate IsTruncated(flags: u16) { flags / 0x200 % 2 == 1 }

  function Answered(rs: seq<Record>, qtype: u16): Result<seq<IpAddr>, DnsError> {
    if Usable(rs, qtype) == [] then Err(NoUsableRecord) else Ok(Distinct(Usable(rs, qtype)))
  }

  /** The address a record offers to a question of type `qtype`: its data octet for octet, if the
      record is of class IN (1), of the asked type A (1) or AAAA (28), and of that type's length. */
  predicate Offers(r: Record, qtype: u16, ip: IpAddr) {
    && r.rclass == 1 && r.rtype == qtype
    && (|| (qtype == 1 && |r.rdata| == 4 && ip == V4(r.rdata))
        || (qtype == 28 && |r.rdata| == 16 && ip == V6(r.rdata)))
  }

  ghost predicate NoneOffers(rs: seq<Record>, qtype: u16) {
    forall j, ip :: 0 <= j < |rs| ==> !Offers(rs[j], qtype, ip)
  }

  /** `ips` are the offered addresses, all of them, each once, in the order `at` of the records
      that offer them first. */
  ghost predicate FirstOffers(rs: seq<Record>, qtype: u16, ips: seq<IpAddr>, at: seq<nat>) {
    && |at| == |ips|
    && (forall i, j :: 0 <= i < j < |at| ==> at[i] < at[j])
    && (forall i :: 0 <= i < |at| ==> at[i] < |rs| && Offers(rs[at[i]], qtype, ips[i]))
    && (forall i, j :: 0 <= i < |at| && 0 <= j < at[i] < |rs| ==> !Offers(rs[j], qtype, ips[i]))
    && (forall j, ip :: 0 <= j < |rs| && Offers(rs[j], qtype, ip) ==> ip in ips)
  }

  ghost function Ips(rs: seq<Record>, qtype: u16): seq<Option<IpAddr>> {
    seq(|rs|, i requires 0 <= i < |rs| => ToIp(rs[i], qtype))
  }

  lemma {:induction false} UsableIsSomes(rs: seq<Record>, qtype: u16)
    ensures Usable(rs, qtype) == Somes(Ips(rs, qtype))
  {
    if rs != [] {
      UsableIsSomes(rs[..|rs| - 1], qtype);
      assert Ips(rs, qtype)[..|rs| - 1] == Ips(rs[..|rs| - 1], qtype);
    }
  }

  lemma OfferedIsUsable(r: Record, qtype: u16)
    ensures forall ip :: Offers(r, qtype, ip) <==> ToIp(r, qtype) == Some(ip)
  {
  }

  /** The distinct usable addresses, without the recursions that compute them. */
  lemma DistinctUsableAreFirstOffers(rs: seq<Record>, qtype: u16) returns (at: seq<nat>)
    ensures FirstOffers(rs, qtype, Distinct(Usable(rs, qtype)), at)
    ensures Usable(rs, qtype) == [] <==> NoneOffers(rs, qtype)
  {
    UsableIsSomes(rs, qtype);
    at := DistinctSomes(Ips(rs, qtype));
    FirstPicksAreOffers(rs, qtype, Distinct(Usable(rs, qtype)), at);
    DistinctEmpty(Usable(rs, qtype));
    if Usable(rs, qtype) != [] {
      assert Offers(rs[at[0]], qtype, Distinct(Usable(rs, qtype))[0]);
    } else {
      forall j, ip | 0 <= j < |rs| ensures !Offers(rs[j], qtype, ip) {
        assert ip !in Distinct(Usable(rs, qtype));
      }
    }
  }

  lemma FirstPicksAreOffers(rs: seq<Record>, qtype: u16, ips: seq<IpAddr>, at: seq<nat>)
    requires FirstPicks(Ips(rs, qtype), ips, at)
    ensures FirstOffers(rs, qtype, ips, at)
  {
    var os := Ips(rs, qtype);
    forall j, ip | 0 <= j < |rs| ensures Offers(rs[j], qtype, ip) <==> os[j] == Some(ip) {
      OfferedIsUsable(rs[j], qtype);
    }
    forall j, ip | 0 <= j < |rs| && Offers(rs[j], qtype, ip) ensures ip in ips {
      assert os[j].Some?;
    }
  }

  /** `r` is what the records `rs` say: every offered address once, or that there is none. */
  ghost predicate IsReading(rs: seq<Record>, qtype: u16, r: Result<seq<IpAddr>, DnsError>) {
    && (r.Ok? ==> r.value != [] && NoDuplicates(r.value) && exists at :: FirstOffers(rs, qtype, r.value, at))
    && (r == Err(NoUsableRecord) <==> NoneOffers(rs, qtype))
    && (r.Err? ==> r == Err(NoUsableRecord))
  }

  lemma AnsweredIsReading(rs: seq<Record>, qtype: u16)
    ensures IsReading(rs, qtype, Answered(rs, qtype))
  {
    var at := DistinctUsableAreFirstOffers(rs, qtype);
    var first := DistinctIsFirstOccurrences(Usable(rs, qtype));
    DistinctEmpty(Usable(rs, qtype));
  }

  /** What a resolver should conclude from a message, in the order the faults are reported. */
  function Meaning(m: Message, qtype: u16, expectedId: u16): Result<seq<IpAddr>, DnsError> {
    if m.id != expectedId then Err(IdMismatch)
    else if !IsResponse(m.flags) then Err(NotAResponse)
    else if IsTruncated(m.flags) then Err(TruncatedFlag)
    else if m.flags % 16 != 0 then Err(ResponseCode(m.flags % 16))
    else if m.answers == [] then Err(NoAnswer)
    else Answered(Records(m.answers), qtype)
  }

  // ----- The parser

  function SkipQuestions(buf: seq<byte>, off: nat, n: nat): Result<nat, DnsError>
    decreases n
  {
    if n == 0 then Ok(off)
    else match NameEndAt(buf, off)
      case Err(e) => Err(e)
      case Ok(end) => SkipQuestions(buf, end + 4, n - 1)
  }

  /** The ten fixed bytes after the owner name, and the data they announce. */
  function ReadFixed(buf: seq<byte>, h: nat): Result<(Record, nat), DnsError> {
    if h + 10 > |buf| then Err(AnswerTruncated)
    else
      var rdlen := FromBe(buf[h + 8], buf[h + 9]);
      if h + 10 + rdlen > |buf| then Err(RdataTruncated)
      else Ok((Record(FromBe(buf[h], buf[h + 1]), FromBe(buf[h + 2], buf[h + 3]),
                      buf[h + 10..h + 10 + rdlen]), h + 10 + rdlen))
  }

  function ReadAnswer(buf: seq<byte>, off: nat): Result<(Record, nat), DnsError> {
    match NameEndAt(buf, off) case Err(e) => Err(e) case Ok(h) => ReadFixed(buf, h)
  }

  function ReadAnswers(buf: seq<byte>, off: nat, n: nat): Result<seq<Record>, DnsError>
    decreases n
  {
    if n == 0 then Ok([])
    else match ReadAnswer(buf, off)
      case Err(e) => Err(e)
      case Ok((r, end)) => Prepend([r], ReadAnswers(buf, end, n - 1))
  }

  function Prepend(done: seq<Record>, r: Result<seq<Record>, DnsError>): Result<seq<Record>, DnsError> {
    match r case Err(e) => Err(e) case Ok(rs) => Ok(done + rs)
  }

  function ParseBody(reply: seq<byte>, qtype: u16, qd: nat, an: nat): Result<seq<IpAddr>, DnsError> {
    match SkipQuestions(reply, 12, qd)
    case Err(e) => Err(e)
    case Ok(off) =>
      match ReadAnswers(reply, off, an)
      case Err(e) => Err(e)
      case Ok(rs) => Answered(rs, qtype)
  }

  function ParseReply(reply: seq<byte>, qtype: u16, expectedId: u16): Result<seq<IpAddr>, DnsError> {
    if |reply| < 12 then Err(ReplyTooShort)
    else
      var flags := FromBe(reply[2], reply[3]);
      var an := FromBe(reply[6], reply[7]);
      if FromBe(reply[0], reply[1]) != expectedId then Err(IdMismatch)
      else if !IsResponse(flags) then Err(NotAResponse)
      else if IsTruncated(flags) then Err(TruncatedFlag)
      else if flags % 16 != 0 then Err(ResponseCode(flags % 16))
      else if an == 0 then Err(NoAnswer)
      else ParseBody(reply, qtype, FromBe(reply[4], reply[5]), an)
  }

  /** An error-free, untruncated response to the query `expectedId`, with answers. */
  predicate IsAnswerTo(m: Message, expectedId: u16) {
    && m.id == expectedId && m.answers != []
    && m.flags / 0x8000 % 2 == 1 && m.flags / 0x200 % 2 == 0 && m.flags % 16 == 0
  }

  predicate Answers(reply: seq<byte>, m: Message, expectedId: u16) {
    ValidMessage(m) && Encode(m) == reply && IsAnswerTo(m, expectedId)
  }

  /** The parser as written: two counted loops moving an offset, pushing new addresses. */
  method ParseDnsAnswers(reply: seq<byte>, qtype: u16, expectedId: u16)
    returns (r: Result<seq<IpAddr>, DnsError>)
    ensures r == ParseReply(reply, qtype, expectedId)
    ensures r.Ok? ==> exists m :: Answers(reply, m, expectedId) && IsReading(Records(m.answers), qtype, r)
  {
    if |reply| < 12 {
      return Err(ReplyTooShort);
    }
    if FromBe(reply[0], reply[1]) != expectedId {
      return Err(IdMismatch);
    }
    var flags := FromBe(reply[2], reply[3]);
    if flags / 0x8000 == 0 {
      return Err(NotAResponse);
    }
    if flags / 0x200 % 2 != 0 {
      return Err(TruncatedFlag);
    }
    var rcode := flags % 16;
    if rcode != 0 {
      return Err(ResponseCode(rcode));
    }
    var qd, an := FromBe(reply[4], reply[5]), FromBe(reply[6], reply[7]);
    if an == 0 {
      return Err(NoAnswer);
    }
    var questions := SkipQuestionSection(reply, qd);
    if questions.Err? {
      return Err(questions.error);
    }
    r := CollectAnswers(reply, qtype, questions.value, an);
    if r.Ok? {
      ghost var m := AcceptedRepliesAreEncodings(reply, qtype, expectedId);
    }
  }

  method SkipQuestionSection(reply: seq<byte>, qd: nat) returns (r: Result<nat, DnsError>)
    ensures r == SkipQuestions(reply, 12, qd)
  {
    var off: nat := 12;
    for i := 0 to qd
      invariant SkipQuestions(reply, off, qd - i) == SkipQuestions(reply, 12, qd)
    {
      var name := SkipName(reply, off);
      if name.Err? {
        return Err(name.error);
      }
      off := name.value + 4;
    }
    return Ok(off);
  }

  /** One answer, read with every bound checked (see `AnswersAreRead` for what it accepts). */
  method ReadOneAnswer(reply: seq<byte>, start: nat) returns (r: Result<(Record, nat), DnsError>)
    ensures r == ReadAnswer(reply, start)
    ensures r.Ok? ==> start + 10 + |r.value.0.rdata| < r.value.1 <= |reply|
  {
    var name := SkipName(reply, start);
    if name.Err? {
      return Err(name.error);
    }
    var off := name.value;
    if off + 10 > |reply| {
      return Err(AnswerTruncated);
    }
    var rtype, rclass := FromBe(reply[off], reply[off + 1]), FromBe(reply[off + 2], reply[off + 3]);
    var rdlen := FromBe(reply[off + 8], reply[off + 9]);
    off := off + 10;
    if off + rdlen > |reply| {
      return Err(RdataTruncated);
    }
    return Ok((Record(rtype, rclass, reply[off..off + rdlen]), off + rdlen));
  }

  /** The answer loop and the final emptiness test. */
  method CollectAnswers(reply: seq<byte>, qtype: u16, start: nat, an: nat)
    returns (r: Result<seq<IpAddr>, DnsError>)
    ensures r == match ReadAnswers(reply, start, an)
                 case Err(e) => Err(e)
                 case Ok(rs) => Answered(rs, qtype)
    ensures ReadAnswers(reply, start, an).Ok? ==> IsReading(ReadAnswers(reply, start, an).value, qtype, r)
  {
    var records := AnswerLoop(reply, qtype, start, an);
    if records.Err? {
      return Err(records.error);
    }
    ghost var read := ReadAnswers(reply, start, an).value;
    DistinctEmpty(Usable(read, qtype));
    AnsweredIsReading(read, qtype);
    return if records.value == [] then Err(NoUsableRecord) else records;
  }

  method AnswerLoop(reply: seq<byte>, qtype: u16, start: nat, an: nat)
    returns (r: Result<seq<IpAddr>, DnsError>)
    ensures ReadAnswers(reply, start, an).Err? ==> r == Err(ReadAnswers(reply, start, an).error)
    ensures ReadAnswers(reply, start, an).Ok? ==> r == Ok(Distinct(Usable(ReadAnswers(reply, start, an).value, qtype)))
  {
    var off, records: seq<IpAddr> := start, [];
    ghost var done: seq<Record> := [];
    PrependNothing(ReadAnswers(reply, start, an));
    for i := 0 to an
      invariant 0 <= off
      invariant Prepend(done, ReadAnswers(reply, off, an - i)) == ReadAnswers(reply, start, an)
      invariant records == Distinct(Usable(done, qtype))
    {
      StepRead(reply, off, an - i, done);
      var next := ReadOneAnswer(reply, off);
      if next.Err? {
        return Err(next.error);
      }
      records := PushRecord(records, next.value.0, qtype, done);
      off := next.value.1;
      done := done + [next.value.0];
    }
    assert done + [] == done;
    return Ok(records);
  }

  /** The loop body's match: an address of the asked kind is pushed unless it is known. */
  method PushRecord(known: seq<IpAddr>, record: Record, qtype: u16, ghost done: seq<Record>) returns (records: seq<IpAddr>)
    requires known == Distinct(Usable(done, qtype))
    ensures records == Distinct(Usable(done + [record], qtype))
  {
    StepUsable(done, record, qtype);
    records := known;
    if record.rclass == CLASS_IN && record.rtype == qtype {
      if qtype == QTYPE_A && |record.rdata| == 4 {
        records := PushNew(records, V4(record.rdata));
      } else if qtype == QTYPE_AAAA && |record.rdata| == 16 {
        records := PushNew(records, V6(record.rdata));
      }
    }
  }

  lemma StepUsable(done: seq<Record>, r: Record, qtype: u16)
    ensures Distinct(Usable(done + [r], qtype)) ==
            match ToIp(r, qtype)
            case None => Distinct(Usable(done, qtype))
            case Some(ip) => PushNew(Distinct(Usable(done, qtype)), ip)
  {
    assert (done + [r])[..|done|] == done;
    var u := Usable(done, qtype);
    match ToIp(r, qtype)
    case None => assert u + [] == u;
    case Some(ip) => assert (u + [ip])[..|u|] == u;
  }

  lemma PrependNothing(r: Result<seq<Record>, DnsError>)
    ensures Prepend([], r) == r
  {
    if r.Ok? {
      assert [] + r.value == r.value;
    }
  }

  lemma StepRead(buf: seq<byte>, off: nat, n: nat, done: seq<Record>)
    requires n > 0
    ensures Prepend(done, ReadAnswers(buf, off, n)) ==
            match ReadAnswer(buf, off)
            case Err(e) => Err(e)
            case Ok((r, end)) => Prepend(done + [r], ReadAnswers(buf, end, n - 1))
  {
    if ReadAnswer(buf, off).Ok? {
      var (r, end) := ReadAnswer(buf, off).value;
      var tail := ReadAnswers(buf, end, n - 1);
      if tail.Ok? {
        assert done + ([r] + tail.value) == done + [r] + tail.value;
      }
    }
  }

  lemma DistinctEmpty<T>(s: seq<T>)
    ensures Distinct(s) == [] <==> s == []
  {
    var at := DistinctIsFirstOccurrences(s);
    if s != [] {
      assert s[0] in Distinct(s);
    }
  }

  // ----- Parsing inverts encoding

  lemma {:induction false} SkipsEncodedQuestions(buf: seq<byte>, off: nat, qs: seq<Question>)
    requires ValidQuestions(qs)
    requires At(buf, off, EncodeQuestions(qs))
    ensures SkipQuestions(buf, off, |qs|) == Ok(off + |EncodeQuestions(qs)|)
    decreases |qs|
  {
    if qs != [] {
      var name, tail := EncodeName(qs[0].name), EncodeQuestions(qs[1..]);
      AtSplit(buf, off, name, qs[0].fixed + tail);
      AtSplit(buf, off + |name|, qs[0].fixed, tail);
      SkipsEncodedName(buf, off, qs[0].name);
      SkipsEncodedQuestions(buf, off + |name| + 4, qs[1..]);
    }
  }

  lemma AtBe(buf: seq<byte>, off: nat, x: u16)
    ensures At(buf, off, ToBe(x)) <==> off + 2 <= |buf| && FromBe(buf[off], buf[off + 1]) == x
  {
    if off + 2 <= |buf| {
      assert buf[off..off + 2] == [buf[off], buf[off + 1]];
    }
  }

  lemma FixedFields(buf: seq<byte>, h: nat, a: Answer)
    requires ValidAnswer(a)
    ensures At(buf, h, EncodeFixed(a)) <==>
              && h + 10 <= |buf|
              && FromBe(buf[h], buf[h + 1]) == a.record.rtype
              && FromBe(buf[h + 2], buf[h + 3]) == a.record.rclass
              && buf[h + 4..h + 8] == a.ttl
              && FromBe(buf[h + 8], buf[h + 9]) == |a.record.rdata|
  {
    var t, c, n := ToBe(a.record.rtype), ToBe(a.record.rclass), ToBe(|a.record.rdata|);
    AtSplit(buf, h, t, c + (a.ttl + n));
    AtSplit(buf, h + 2, c, a.ttl + n);
    AtSplit(buf, h + 4, a.ttl, n);
    AtBe(buf, h, a.record.rtype);
    AtBe(buf, h + 2, a.record.rclass);
    AtBe(buf, h + 8, |a.record.rdata|);
  }

  lemma ReadsEncodedFixed(buf: seq<byte>, h: nat, a: Answer)
    requires ValidAnswer(a) && At(buf, h, EncodeFixed(a)) && At(buf, h + 10, a.record.rdata)
    ensures ReadFixed(buf, h) == Ok((a.record, h + 10 + |a.record.rdata|))
  {
    FixedFields(buf, h, a);
  }

  lemma ReadsEncodedAnswer(buf: seq<byte>, off: nat, a: Answer, tail: seq<byte>)
    requires ValidAnswer(a)
    requires At(buf, off, EncodeName(a.name) + (EncodeFixed(a) + (a.record.rdata + tail)))
    ensures ReadAnswer(buf, off) == Ok((a.record, off + |EncodeName(a.name)| + 10 + |a.record.rdata|))
    ensures At(buf, off + |EncodeName(a.name)| + 10 + |a.record.rdata|, tail)
  {
    AnswerParts(buf, off, a, tail);
    SkipsEncodedName(buf, off, a.name);
    ReadsEncodedFixed(buf, off + |EncodeName(a.name)|, a);
  }

  lemma AnswerParts(buf: seq<byte>, off: nat, a: Answer, tail: seq<byte>)
    requires ValidAnswer(a)
    ensures var h := off + |EncodeName(a.name)|;
            At(buf, off, EncodeName(a.name) + (EncodeFixed(a) + (a.record.rdata + tail))) <==>
              && At(buf, off, EncodeName(a.name)) && At(buf, h, EncodeFixed(a))
              && At(buf, h + 10, a.record.rdata) && At(buf, h + 10 + |a.record.rdata|, tail)
  {
    var name, fixed := EncodeName(a.name), EncodeFixed(a);
    AtSplit(buf, off + |name| + 10, a.record.rdata, tail);
    AtSplit(buf, off + |name|, fixed, a.record.rdata + tail);
    AtSplit(buf, off, name, fixed + (a.record.rdata + tail));
  }

  lemma JoinParts(buf: seq<byte>, off: nat, a: Answer, tail: seq<byte>)
    requires ValidAnswer(a)
    requires var h := off + |EncodeName(a.name)|;
             && At(buf, off, EncodeName(a.name)) && At(buf, h, EncodeFixed(a))
             && At(buf, h + 10, a.record.rdata) && At(buf, h + 10 + |a.record.rdata|, tail)
    ensures At(buf, off, EncodeName(a.name) + (EncodeFixed(a) + (a.record.rdata + tail)))
  {
    AnswerParts(buf, off, a, tail);
  }

  lemma ReadsOneMore(buf: seq<byte>, off: nat, r: Record, end: nat, rest: seq<Answer>)
    requires ReadAnswer(buf, off) == Ok((r, end)) && ReadAnswers(buf, end, |rest|) == Ok(Records(rest))
    ensures ReadAnswers(buf, off, |rest| + 1) == Ok([r] + Records(rest))
  {
  }

  lemma ReadsFirstAnswer(buf: seq<byte>, off: nat, a: Answer, rest: seq<Answer>) returns (end: nat)
    requires ValidAnswers([a] + rest) && At(buf, off, EncodeAnswers([a] + rest))
    ensures ValidAnswers(rest) && ReadAnswer(buf, off) == Ok((a.record, end)) && At(buf, end, EncodeAnswers(rest))
    ensures Records([a] + rest) == [a.record] + Records(rest)
  {
    var xs := [a] + rest;
    assert xs[0] == a && xs[1..] == rest;
    ConsAnswer(a, rest);
    end := off + |EncodeName(a.name)| + 10 + |a.record.rdata|;
    ReadsEncodedAnswer(buf, off, a, EncodeAnswers(rest));
  }

  lemma {:induction false} ReadsEncodedAnswers(buf: seq<byte>, off: nat, xs: seq<Answer>)
    requires ValidAnswers(xs) && At(buf, off, EncodeAnswers(xs))
    ensures ReadAnswers(buf, off, |xs|) == Ok(Records(xs))
    decreases |xs|
  {
    if xs != [] {
      var a, rest := xs[0], xs[1..];
      assert [a] + rest == xs;
      var end := ReadsFirstAnswer(buf, off, a, rest);
      ReadsEncodedAnswers(buf, end, rest);
      ReadsOneMore(buf, off, a.record, end, rest);
    } else {
      assert Records(xs) == [];
    }
  }

  lemma HeaderFields(buf: seq<byte>, m: Message)
    requires ValidMessage(m)
    ensures At(buf, 0, EncodeHeader(m)) <==>
              && 12 <= |buf|
              && FromBe(buf[0], buf[1]) == m.id && FromBe(buf[2], buf[3]) == m.flags
              && FromBe(buf[4], buf[5]) == |m.questions| && FromBe(buf[6], buf[7]) == |m.answers|
              && buf[8..12] == m.counts
  {
    var f, q, n := ToBe(m.flags), ToBe(|m.questions|), ToBe(|m.answers|);
    AtSplit(buf, 0, ToBe(m.id), f + (q + (n + m.counts)));
    AtSplit(buf, 2, f, q + (n + m.counts));
    AtSplit(buf, 4, q, n + m.counts);
    AtSplit(buf, 6, n, m.counts);
    AtBe(buf, 0, m.id);
    AtBe(buf, 2, m.flags);
    AtBe(buf, 4, |m.questions|);
    AtBe(buf, 6, |m.answers|);
  }

  lemma ParsesEncodedBody(buf: seq<byte>, m: Message, qtype: u16)
    requires ValidMessage(m) && At(buf, 12, EncodeQuestions(m.questions))
    requires At(buf, 12 + |EncodeQuestions(m.questions)|, EncodeAnswers(m.answers))
    ensures ParseBody(buf, qtype, |m.questions|, |m.answers|) == Answered(Records(m.answers), qtype)
  {
    SkipsEncodedQuestions(buf, 12, m.questions);
    ReadsEncodedAnswers(buf, 12 + |EncodeQuestions(m.questions)|, m.answers);
  }

  lemma ParsesToMeaning(m: Message, qtype: u16, expectedId: u16)
    requires ValidMessage(m)
    ensures ParseReply(Encode(m), qtype, expectedId) == Meaning(m, qtype, expectedId)
  {
    FourParts(Encode(m), EncodeHeader(m), EncodeQuestions(m.questions), EncodeAnswers(m.answers), m.rest);
    HeaderFields(Encode(m), m);
    ParsesEncodedBody(Encode(m), m, qtype);
  }

  /** Every well-formed message, with any number of questions and answers and any mix of plain
      and compressed names: an error-free response is read as exactly what its records offer,
      and anything else is refused for its header. */
  lemma ParseInvertsEncode(m: Message, qtype: u16, expectedId: u16)
    requires ValidMessage(m)
    ensures IsAnswerTo(m, expectedId) ==>
              IsReading(Records(m.answers), qtype, ParseReply(Encode(m), qtype, expectedId))
    ensures !IsAnswerTo(m, expectedId) ==>
              var r := ParseReply(Encode(m), qtype, expectedId);
              r.Err? && r != Err(NoUsableRecord)
  {
    ParsesToMeaning(m, qtype, expectedId);
    RefusedOrAnswered(m, qtype, expectedId);
    AnsweredIsReading(Records(m.answers), qtype);
  }

  lemma RefusedOrAnswered(m: Message, qtype: u16, expectedId: u16)
    ensures IsAnswerTo(m, expectedId) ==> Meaning(m, qtype, expectedId) == Answered(Records(m.answers), qtype)
    ensures !IsAnswerTo(m, expectedId) ==>
              Meaning(m, qtype, expectedId).Err? && Meaning(m, qtype, expectedId) != Err(NoUsableRecord)
  {
  }

  /** The faults of a header by the bits of its flags word: QR is the top bit, TC is bit 9, the
      response code is the low four bits, and the other bits never matter. Each fault is reported
      exactly when it is present and none of those before it is. */
  lemma HeaderFaults(m: Message, qtype: u16, expectedId: u16, qr: nat, a: nat, tc: nat, b: nat, rcode: nat)
    requires ValidMessage(m)
    requires qr < 2 && a < 32 && tc < 2 && b < 32 && rcode < 16
    requires m.flags == qr * 0x8000 + a * 0x400 + tc * 0x200 + b * 0x10 + rcode
    ensures var r := ParseReply(Encode(m), qtype, expectedId);
            && (r == Err(IdMismatch) <==> m.id != expectedId)
            && (r == Err(NotAResponse) <==> m.id == expectedId && qr == 0)
            && (r == Err(TruncatedFlag) <==> m.id == expectedId && qr == 1 && tc == 1)
            && (forall c :: r == Err(ResponseCode(c)) <==>
                  m.id == expectedId && qr == 1 && tc == 0 && c == rcode && rcode != 0)
            && (r == Err(NoAnswer) <==> m.id == expectedId && qr == 1 && tc == 0 && rcode == 0 && m.answers == [])
            && (r == Err(NoUsableRecord) || r.Ok? <==>
                  m.id == expectedId && qr == 1 && tc == 0 && rcode == 0 && m.answers != [])
  {
    FlagBits(m.flags, qr, a, tc, b, rcode);
    ParsesToMeaning(m, qtype, expectedId);
  }

  lemma FlagBits(flags: u16, qr: nat, a: nat, tc: nat, b: nat, rcode: nat)
    requires qr < 2 && a < 32 && tc < 2 && b < 32 && rcode < 16
    requires flags == qr * 0x8000 + a * 0x400 + tc * 0x200 + b * 0x10 + rcode
    ensures IsResponse(flags) <==> qr == 1
    ensures IsTruncated(flags) <==> tc == 1
    ensures flags % 16 == rcode
  {
    assert flags / 0x200 == (qr * 32 + a) * 2 + tc;
  }

  /** Where every byte of a message stands: all 16-bit fields are big-endian. */
  lemma MessageLayout(m: Message)
    requires ValidMessage(m)
    ensures EncodeHeader(m) == [m.id / 256, m.id % 256, m.flags / 256, m.flags % 256,
                                |m.questions| / 256, |m.questions| % 256,
                                |m.answers| / 256, |m.answers| % 256] + m.counts
    ensures Encode(m)[..12] == EncodeHeader(m)
    ensures forall i :: 0 <= i < |m.answers| ==>
              var a := m.answers[i];
              EncodeAnswer(a) == EncodeName(a.name)
                                 + [a.record.rtype / 256, a.record.rtype % 256,
                                    a.record.rclass / 256, a.record.rclass % 256]
                                 + a.ttl + [|a.record.rdata| / 256, |a.record.rdata| % 256] + a.record.rdata
  {
  }

  // ----- Nothing else is accepted

  lemma ConsQuestion(q: Question, qs: seq<Question>)
    requires ValidQuestion(q) && ValidQuestions(qs)
    ensures ValidQuestions([q] + qs)
    ensures EncodeQuestions([q] + qs) == EncodeName(q.name) + (q.fixed + EncodeQuestions(qs))
  {
    assert ([q] + qs)[1..] == qs;
  }

  lemma ConsAnswer(a: Answer, xs: seq<Answer>)
    requires ValidAnswer(a) && ValidAnswers(xs)
    ensures ValidAnswers([a] + xs) && Records([a] + xs) == [a.record] + Records(xs)
    ensures EncodeAnswers([a] + xs) == EncodeName(a.name) + (EncodeFixed(a) + (a.record.rdata + EncodeAnswers(xs)))
  {
    assert ([a] + xs)[1..] == xs;
    assert Records([a] + xs) == [a.record] + Records(xs);
  }

  lemma ThreeParts(buf: seq<byte>, off: nat, a: seq<byte>, b: seq<byte>, c: seq<byte>)
    ensures At(buf, off, a + (b + c)) <==> At(buf, off, a) && At(buf, off + |a|, b) && At(buf, off + |a| + |b|, c)
  {
    AtSplit(buf, off, a, b + c);
    AtSplit(buf, off + |a|, b, c);
  }

  lemma {:induction false} SkippedAreEncodedQuestions(buf: seq<byte>, off: nat, n: nat)
    returns (qs: seq<Question>)
    requires SkipQuestions(buf, off, n).Ok? && SkipQuestions(buf, off, n).value <= |buf|
    ensures |qs| == n && ValidQuestions(qs)
    ensures At(buf, off, EncodeQuestions(qs))
    ensures SkipQuestions(buf, off, n).value == off + |EncodeQuestions(qs)|
    decreases n
  {
    if n == 0 {
      qs := [];
    } else {
      var name := SkippedIsEncodedName(buf, off);
      var next := off + |EncodeName(name)| + 4;
      SkipQuestionsGrows(buf, next, n - 1);
      var tail := SkippedAreEncodedQuestions(buf, next, n - 1);
      qs := AssembleQuestion(buf, off, name, tail);
    }
  }

  lemma AssembleQuestion(buf: seq<byte>, off: nat, name: WireName, tail: seq<Question>) returns (qs: seq<Question>)
    requires ValidName(name) && ValidQuestions(tail) && At(buf, off, EncodeName(name))
    requires At(buf, off + |EncodeName(name)| + 4, EncodeQuestions(tail))
    ensures |qs| == |tail| + 1 && ValidQuestions(qs) && At(buf, off, EncodeQuestions(qs))
    ensures |EncodeQuestions(qs)| == |EncodeName(name)| + 4 + |EncodeQuestions(tail)|
  {
    var end := off + |EncodeName(name)|;
    var q := Question(name, buf[end..end + 4]);
    qs := [q] + tail;
    ConsQuestion(q, tail);
    ThreeParts(buf, off, EncodeName(name), q.fixed, EncodeQuestions(tail));
  }

  lemma {:induction false} SkipQuestionsGrows(buf: seq<byte>, off: nat, n: nat)
    ensures SkipQuestions(buf, off, n).Ok? ==> SkipQuestions(buf, off, n).value >= off
    decreases n
  {
    if n != 0 && NameEndAt(buf, off).Ok? {
      var name := SkippedIsEncodedName(buf, off);
      SkipQuestionsGrows(buf, NameEndAt(buf, off).value + 4, n - 1);
    }
  }

  lemma FixedIsEncoded(buf: seq<byte>, h: nat, name: WireName) returns (a: Answer)
    requires ValidName(name) && ReadFixed(buf, h).Ok?
    ensures ValidAnswer(a) && a.name == name && a.record == ReadFixed(buf, h).value.0
    ensures At(buf, h, EncodeFixed(a)) && At(buf, h + 10, a.record.rdata)
    ensures ReadFixed(buf, h).value.1 == h + 10 + |a.record.rdata|
  {
    a := Answer(name, ReadFixed(buf, h).value.0, buf[h + 4..h + 8]);
    FixedFields(buf, h, a);
  }

  lemma ReadIsEncodedAnswer(buf: seq<byte>, off: nat, tail: seq<byte>) returns (a: Answer)
    requires ReadAnswer(buf, off).Ok? && At(buf, ReadAnswer(buf, off).value.1, tail)
    ensures ValidAnswer(a) && a.record == ReadAnswer(buf, off).value.0
    ensures At(buf, off, EncodeName(a.name) + (EncodeFixed(a) + (a.record.rdata + tail)))
  {
    var name := SkippedIsEncodedName(buf, off);
    var h := off + |EncodeName(name)|;
    assert ReadAnswer(buf, off) == ReadFixed(buf, h);
    a := FixedIsEncoded(buf, h, name);
    JoinParts(buf, off, a, tail);
  }

  /** Reading one answer succeeds exactly where the encoding of a well-formed answer stands, returns
      that answer's record, and stops right behind it. */
  lemma AnswersAreRead(buf: seq<byte>, off: nat)
    ensures ReadAnswer(buf, off).Ok? <==> exists a :: ValidAnswer(a) && At(buf, off, EncodeAnswer(a))
    ensures forall a :: ValidAnswer(a) && At(buf, off, EncodeAnswer(a)) ==>
              ReadAnswer(buf, off) == Ok((a.record, off + |EncodeAnswer(a)|))
  {
    forall a | ValidAnswer(a) && At(buf, off, EncodeAnswer(a))
      ensures ReadAnswer(buf, off) == Ok((a.record, off + |EncodeAnswer(a)|))
    {
      ReadsOneAnswer(buf, off, a);
    }
    if ReadAnswer(buf, off).Ok? {
      var a := ReadIsOneAnswer(buf, off);
    }
  }

  lemma ReadsOneAnswer(buf: seq<byte>, off: nat, a: Answer)
    requires ValidAnswer(a) && At(buf, off, EncodeAnswer(a))
    ensures ReadAnswer(buf, off) == Ok((a.record, off + |EncodeAnswer(a)|))
  {
    assert a.record.rdata + [] == a.record.rdata;
    ReadsEncodedAnswer(buf, off, a, []);
  }

  lemma ReadIsOneAnswer(buf: seq<byte>, off: nat) returns (a: Answer)
    requires ReadAnswer(buf, off).Ok?
    ensures ValidAnswer(a) && At(buf, off, EncodeAnswer(a))
  {
    a := ReadIsEncodedAnswer(buf, off, []);
    assert a.record.rdata + [] == a.record.rdata;
  }

  lemma {:induction false} ReadAreEncodedAnswers(buf: seq<byte>, off: nat, n: nat)
    returns (xs: seq<Answer>)
    requires off <= |buf| && ReadAnswers(buf, off, n).Ok?
    ensures |xs| == n && ValidAnswers(xs)
    ensures At(buf, off, EncodeAnswers(xs)) && Records(xs) == ReadAnswers(buf, off, n).value
    decreases n
  {
    if n == 0 {
      xs := [];
    } else {
      var tail := ReadAreEncodedAnswers(buf, ReadAnswer(buf, off).value.1, n - 1);
      var a := ReadIsEncodedAnswer(buf, off, EncodeAnswers(tail));
      xs := [a] + tail;
      ConsAnswer(a, tail);
    }
  }

  lemma AssembleMessage(buf: seq<byte>, m: Message)
    requires ValidMessage(m) && At(buf, 0, EncodeHeader(m)) && At(buf, 12, EncodeQuestions(m.questions))
    requires var off := 12 + |EncodeQuestions(m.questions)|;
             var end := off + |EncodeAnswers(m.answers)|;
             At(buf, off, EncodeAnswers(m.answers)) && end <= |buf| && m.rest == buf[end..]
    ensures Encode(m) == buf
  {
    HeaderLength(m);
    JoinFour(buf, EncodeHeader(m), EncodeQuestions(m.questions), EncodeAnswers(m.answers), m.rest);
  }

  lemma HeaderLength(m: Message)
    requires ValidMessage(m)
    ensures |EncodeHeader(m)| == 12
  {
  }

  lemma JoinFour(buf: seq<byte>, a: seq<byte>, b: seq<byte>, c: seq<byte>, d: seq<byte>)
    requires At(buf, 0, a) && At(buf, |a|, b) && At(buf, |a| + |b|, c)
    requires |a| + |b| + |c| <= |buf| && d == buf[|a| + |b| + |c|..]
    ensures buf == a + (b + (c + d))
  {
    var end := |a| + |b| + |c|;
    assert buf[end..end + |d|] == d;
    FourParts(buf, a, b, c, d);
  }

  lemma FourParts(buf: seq<byte>, a: seq<byte>, b: seq<byte>, c: seq<byte>, d: seq<byte>)
    ensures buf == a + (b + (c + d)) <==>
              && At(buf, 0, a) && At(buf, |a|, b) && At(buf, |a| + |b|, c)
              && At(buf, |a| + |b| + |c|, d) && |buf| == |a| + |b| + |c| + |d|
  {
    AtSplit(buf, |a| + |b|, c, d);
    AtSplit(buf, |a|, b, c + d);
    AtSplit(buf, 0, a, b + (c + d));
    assert buf[0..|buf|] == buf;
  }

  lemma AcceptedBody(reply: seq<byte>, qtype: u16, qd: nat, an: nat) returns (qs: seq<Question>, xs: seq<Answer>)
    requires an > 0 && ParseBody(reply, qtype, qd, an).Ok?
    ensures |qs| == qd && ValidQuestions(qs) && |xs| == an && ValidAnswers(xs)
    ensures At(reply, 12, EncodeQuestions(qs)) && At(reply, 12 + |EncodeQuestions(qs)|, EncodeAnswers(xs))
  {
    var off := SkipQuestions(reply, 12, qd).value;
    var first := SkippedIsEncodedName(reply, off);
    qs := SkippedAreEncodedQuestions(reply, 12, qd);
    xs := ReadAreEncodedAnswers(reply, off, an);
  }

  lemma AcceptedIsEncoding(reply: seq<byte>, qtype: u16, expectedId: u16) returns (m: Message)
    requires ParseReply(reply, qtype, expectedId).Ok?
    ensures ValidMessage(m) && Encode(m) == reply
  {
    var qd, an := FromBe(reply[4], reply[5]), FromBe(reply[6], reply[7]);
    var qs, xs := AcceptedBody(reply, qtype, qd, an);
    m := MessageFrom(reply, qs, xs);
  }

  lemma MessageFrom(reply: seq<byte>, qs: seq<Question>, xs: seq<Answer>) returns (m: Message)
    requires ValidQuestions(qs) && ValidAnswers(xs) && |reply| >= 12
    requires |qs| == FromBe(reply[4], reply[5]) && |xs| == FromBe(reply[6], reply[7])
    requires At(reply, 12, EncodeQuestions(qs)) && At(reply, 12 + |EncodeQuestions(qs)|, EncodeAnswers(xs))
    ensures ValidMessage(m) && Encode(m) == reply
  {
    var end := 12 + |EncodeQuestions(qs)| + |EncodeAnswers(xs)|;
    m := Message(FromBe(reply[0], reply[1]), FromBe(reply[2], reply[3]), reply[8..12], qs, xs, reply[end..]);
    HeaderFields(reply, m);
    AssembleMessage(reply, m);
  }

  /** Whenever the parser returns addresses, the reply was the encoding of a well-formed,
      untruncated, error-free response to this query, and the addresses are exactly those its
      records offer. */
  lemma AcceptedRepliesAreEncodings(reply: seq<byte>, qtype: u16, expectedId: u16) returns (m: Message)
    requires ParseReply(reply, qtype, expectedId).Ok?
    ensures Answers(reply, m, expectedId)
    ensures IsReading(Records(m.answers), qtype, ParseReply(reply, qtype, expectedId))
  {
    m := AcceptedIsEncoding(reply, qtype, expectedId);
    ParseInvertsEncode(m, qtype, expectedId);
  }
}
