/** `run_relay` of `src/proxy/udp.rs`: a receiver that pins its client and never blocks, a forwarder
    behind a bounded queue, and a reply path, as three tasks whose steps interleave. */
module UdpAssociation {
  import opened Common

  const QUEUE_DEPTH: nat := 64
  const MAX_DATAGRAM: nat := 8 * 1024 + 64

  type Packet = seq<byte>

  /** `received` logs the datagrams that passed the source test, with their sources, and `kept` the
      positions in it of those that entered the queue; `handled` are those the forwarder is done with, each with whether
      it was sent; `replies` logs the destination of every reply. */
  datatype State = State(
    pinned: Option<SocketAddr>,
    queue: seq<Packet>, inProgress: Option<Packet>, handled: seq<(Packet, bool)>,
    received: seq<(SocketAddr, Packet)>, kept: seq<nat>, oversized: nat, queueFull: nat,
    replies: seq<SocketAddr>)

  datatype Action =
    | Receive(src: SocketAddr, packet: Packet)
    | Take
    | Finish(sent: bool)
    | Reply

  function Initial(): State { State(None, [], None, [], [], [], 0, 0, []) }

  predicate Accepts(allowed: IpAddr, s: State, src: SocketAddr) {
    src.ip == allowed && (s.pinned.Some? ==> s.pinned.value == src)
  }

  predicate Enabled(s: State, a: Action) {
    match a
    case Take => s.inProgress.None? && s.queue != []
    case Finish(_) => s.inProgress.Some?
    case _ => true
  }

  function Apply(allowed: IpAddr, s: State, a: Action): State
    requires Enabled(s, a)
  {
    match a
    case Receive(src, packet) =>
      if !Accepts(allowed, s, src) then s
      else
        var s' := s.(pinned := Some(src), received := s.received + [(src, packet)]);
        if |packet| > MAX_DATAGRAM then s'.(oversized := s.oversized + 1)
        else if |s.queue| >= QUEUE_DEPTH then s'.(queueFull := s.queueFull + 1)
        else s'.(queue := s.queue + [packet], kept := s.kept + [|s.received|])
    case Take => s.(queue := s.queue[1..], inProgress := Some(s.queue[0]))
    case Finish(sent) => s.(inProgress := None, handled := s.handled + [(s.inProgress.value, sent)])
    case Reply => if s.pinned.Some? then s.(replies := s.replies + [s.pinned.value]) else s
  }

  // ----- Invariant

  function Packets(handled: seq<(Packet, bool)>): seq<Packet> {
    seq(|handled|, i requires 0 <= i < |handled| => handled[i].0)
  }

  function Held(p: Option<Packet>): seq<Packet> { match p case None => [] case Some(x) => [x] }

  /** Everything that entered the queue, oldest first. */
  function Admitted(s: State): seq<Packet> { Packets(s.handled) + Held(s.inProgress) + s.queue }

  ghost predicate InOrder(admitted: seq<Packet>, received: seq<(SocketAddr, Packet)>, kept: seq<nat>) {
    && |kept| == |admitted|
    && (forall i :: 0 <= i < |kept| ==> kept[i] < |received| && received[kept[i]].1 == admitted[i])
    && (forall i, j :: 0 <= i < j < |kept| ==> kept[i] < kept[j])
  }

  /** The pin is the source of the first datagram received, and of every later one. */
  ghost predicate FromPinned(s: State) {
    && (s.pinned.Some? <==> s.received != [])
    && (forall i :: 0 <= i < |s.received| ==> Some(s.received[i].0) == s.pinned)
  }

  ghost predicate Inv(allowed: IpAddr, s: State) {
    && InOrder(Admitted(s), s.received, s.kept)
    && |s.received| == |s.kept| + s.oversized + s.queueFull
    && |s.queue| <= QUEUE_DEPTH
    && (forall i :: 0 <= i < |s.queue| ==> |s.queue[i]| <= MAX_DATAGRAM)
    && (forall i :: 0 <= i < |s.replies| ==> s.pinned == Some(s.replies[i]))
    && (s.pinned.Some? ==> s.pinned.value.ip == allowed)
    && FromPinned(s)
  }

  lemma AdmittedLength(s: State)
    ensures |Admitted(s)| == |s.handled| + |Held(s.inProgress)| + |s.queue|
  {
  }

  lemma ForwardingKeepsAdmitted(allowed: IpAddr, s: State, a: Action)
    requires Enabled(s, a) && !a.Receive?
    ensures Admitted(Apply(allowed, s, a)) == Admitted(s)
  {
    match a
    case Take => assert s.queue == [s.queue[0]] + s.queue[1..];
    case Finish(sent) => assert Packets(Apply(allowed, s, a).handled) == Packets(s.handled) + Held(s.inProgress);
    case Reply =>
  }

  lemma AppendInOrder(admitted: seq<Packet>, received: seq<(SocketAddr, Packet)>, kept: seq<nat>, src: SocketAddr, packet: Packet)
    requires InOrder(admitted, received, kept)
    ensures InOrder(admitted, received + [(src, packet)], kept)
    ensures InOrder(admitted + [packet], received + [(src, packet)], kept + [|received|])
  {
  }

  lemma EnqueueAdmits(s: State, s': State, packet: Packet)
    requires s'.handled == s.handled && s'.inProgress == s.inProgress
    ensures s'.queue == s.queue ==> Admitted(s') == Admitted(s)
    ensures s'.queue == s.queue + [packet] ==> Admitted(s') == Admitted(s) + [packet]
  {
  }

  /** A datagram that passes the source test is logged, and queued or counted as dropped. */
  lemma ReceiveKeepsInv(allowed: IpAddr, s: State, src: SocketAddr, packet: Packet)
    requires Inv(allowed, s) && Accepts(allowed, s, src)
    ensures Inv(allowed, Apply(allowed, s, Receive(src, packet)))
  {
    ReceiveKeepsOrder(allowed, s, src, packet);
    ReceiveKeepsPin(allowed, s, src, packet);
  }

  lemma ReceiveKeepsOrder(allowed: IpAddr, s: State, src: SocketAddr, packet: Packet)
    requires InOrder(Admitted(s), s.received, s.kept) && Accepts(allowed, s, src)
    ensures var s' := Apply(allowed, s, Receive(src, packet)); InOrder(Admitted(s'), s'.received, s'.kept)
  {
    AppendInOrder(Admitted(s), s.received, s.kept, src, packet);
    EnqueueAdmits(s, Apply(allowed, s, Receive(src, packet)), packet);
  }

  lemma ReceiveKeepsPin(allowed: IpAddr, s: State, src: SocketAddr, packet: Packet)
    requires FromPinned(s) && Accepts(allowed, s, src)
    ensures FromPinned(Apply(allowed, s, Receive(src, packet)))
  {
    var s' := Apply(allowed, s, Receive(src, packet));
    forall i | 0 <= i < |s'.received| ensures Some(s'.received[i].0) == s'.pinned {
      if i < |s.received| {
        assert s'.received[i] == s.received[i];
      }
    }
  }

  lemma StepKeepsInv(allowed: IpAddr, s: State, a: Action)
    requires Inv(allowed, s) && Enabled(s, a)
    ensures Inv(allowed, Apply(allowed, s, a))
  {
    if a.Receive? {
      if Accepts(allowed, s, a.src) {
        ReceiveKeepsInv(allowed, s, a.src, a.packet);
      }
    } else {
      ForwardingKeepsAdmitted(allowed, s, a);
    }
  }

  // ----- Runs

  predicate ValidRun(allowed: IpAddr, s: State, run: seq<Action>)
    decreases |run|
  {
    run == [] || (Enabled(s, run[0]) && ValidRun(allowed, Apply(allowed, s, run[0]), run[1..]))
  }

  function Final(allowed: IpAddr, s: State, run: seq<Action>): State
    requires ValidRun(allowed, s, run)
    decreases |run|
  {
    if run == [] then s else Final(allowed, Apply(allowed, s, run[0]), run[1..])
  }

  lemma {:induction false} RunKeepsInv(allowed: IpAddr, s: State, run: seq<Action>)
    requires Inv(allowed, s) && ValidRun(allowed, s, run)
    ensures Inv(allowed, Final(allowed, s, run))
    decreases |run|
  {
    if run != [] {
      StepKeepsInv(allowed, s, run[0]);
      RunKeepsInv(allowed, Apply(allowed, s, run[0]), run[1..]);
    }
  }

  /** Once pinned, a client stays pinned, whoever else sends and whatever happens. */
  lemma {:induction false} PinNeverMoves(allowed: IpAddr, s: State, run: seq<Action>)
    requires ValidRun(allowed, s, run) && s.pinned.Some?
    ensures Final(allowed, s, run).pinned == s.pinned
    decreases |run|
  {
    if run != [] {
      PinNeverMoves(allowed, Apply(allowed, s, run[0]), run[1..]);
    }
  }

  /** In every reachable state: the pin is the source of the first datagram received; every datagram
      received, and so every one queued or forwarded, is from the pinned client, which is on the allowed
      address, and replies have gone to it only; handled, in-progress and queued datagrams are, in this order, an in-order selection of
      those received; and every received datagram is in exactly one of those places or counted as
      dropped. The queue never holds more than 64 datagrams of 8256 bytes. */
  lemma AssociationIsAccounted(allowed: IpAddr, run: seq<Action>)
    requires ValidRun(allowed, Initial(), run)
    ensures var s := Final(allowed, Initial(), run);
            && (s.received != [] ==> s.pinned == Some(s.received[0].0))
            && (forall i :: 0 <= i < |s.received| ==> s.pinned == Some(s.received[i].0) && s.received[i].0.ip == allowed)
            && (forall i :: 0 <= i < |s.replies| ==> s.pinned == Some(s.replies[i]) && s.replies[i].ip == allowed)
            && InOrder(Admitted(s), s.received, s.kept)
            && |s.received| == |s.handled| + |Held(s.inProgress)| + |s.queue| + s.oversized + s.queueFull
            && |s.queue| <= 64 && forall i :: 0 <= i < |s.queue| ==> |s.queue[i]| <= 8256
  {
    RunKeepsInv(allowed, Initial(), run);
    AccountedByInv(allowed, Final(allowed, Initial(), run));
  }

  lemma AccountedByInv(allowed: IpAddr, s: State)
    requires Inv(allowed, s)
    ensures s.received != [] ==> s.pinned == Some(s.received[0].0)
    ensures forall i :: 0 <= i < |s.received| ==> s.pinned == Some(s.received[i].0) && s.received[i].0.ip == allowed
    ensures forall i :: 0 <= i < |s.replies| ==> s.pinned == Some(s.replies[i]) && s.replies[i].ip == allowed
    ensures |s.received| == |s.handled| + |Held(s.inProgress)| + |s.queue| + s.oversized + s.queueFull
  {
    AdmittedLength(s);
  }

  lemma ReceiveCases(allowed: IpAddr, s: State, src: SocketAddr, packet: Packet)
    requires |s.queue| <= 64
    ensures var s' := Apply(allowed, s, Receive(src, packet));
            if src.ip != allowed || (s.pinned.Some? && src != s.pinned.value) then s' == s
            else
              && s'.pinned == Some(src) && s'.received == s.received + [(src, packet)]
              && s'.inProgress == s.inProgress && s'.handled == s.handled && s'.replies == s.replies
              && s'.oversized == s.oversized + (if |packet| > 8256 then 1 else 0)
              && s'.queueFull == s.queueFull + (if |packet| <= 8256 && |s.queue| == 64 then 1 else 0)
              && s'.queue == if |packet| <= 8256 && |s.queue| < 64 then s.queue + [packet] else s.queue
  {
  }

  lemma PinIsFirstSource(allowed: IpAddr, run: seq<Action>)
    requires ValidRun(allowed, Initial(), run)
    ensures var s := Final(allowed, Initial(), run);
            |s.queue| <= 64 && s.pinned == if s.received == [] then None else Some(s.received[0].0)
  {
    RunKeepsInv(allowed, Initial(), run);
    var s := Final(allowed, Initial(), run);
    assert s.received != [] ==> Some(s.received[0].0) == s.pinned;
  }

  /** What happens to a datagram, in every reachable state. One from another address, or from another
      source than the first one, changes nothing. Any other is counted as oversized above 8256 bytes,
      queued while the queue holds fewer than 64, and counted as overflow otherwise. */
  lemma DatagramFate(allowed: IpAddr, run: seq<Action>, src: SocketAddr, packet: Packet)
    requires ValidRun(allowed, Initial(), run)
    ensures var s := Final(allowed, Initial(), run);
            var s' := Apply(allowed, s, Receive(src, packet));
            if src.ip != allowed || (s.received != [] && src != s.received[0].0) then s' == s
            else
              && s'.pinned == Some(src) && s'.received == s.received + [(src, packet)]
              && s'.inProgress == s.inProgress && s'.handled == s.handled && s'.replies == s.replies
              && s'.oversized == s.oversized + (if |packet| > 8256 then 1 else 0)
              && s'.queueFull == s.queueFull + (if |packet| <= 8256 && |s.queue| == 64 then 1 else 0)
              && s'.queue == if |packet| <= 8256 && |s.queue| < 64 then s.queue + [packet] else s.queue
  {
    PinIsFirstSource(allowed, run);
    ReceiveCases(allowed, Final(allowed, Initial(), run), src, packet);
  }

  /** The forwarder takes the oldest datagram and keeps it until it is done with it, and a reply goes to
      the source of the first datagram, or nowhere before there was one. */
  lemma ForwardAndReply(allowed: IpAddr, run: seq<Action>, sent: bool)
    requires ValidRun(allowed, Initial(), run)
    ensures var s := Final(allowed, Initial(), run);
            && (s.queue != [] && s.inProgress == None ==>
                  Apply(allowed, s, Take) == s.(queue := s.queue[1..], inProgress := Some(s.queue[0])))
            && (forall x :: s.inProgress == Some(x) ==>
                  Apply(allowed, s, Finish(sent)) == s.(inProgress := None, handled := s.handled + [(x, sent)]))
            && Apply(allowed, s, Reply) ==
               if s.received == [] then s else s.(replies := s.replies + [s.received[0].0])
  {
    PinIsFirstSource(allowed, run);
  }
}
