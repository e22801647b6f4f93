/**
 * The data phase of a TCP connection: a sender that keeps one segment outstanding, a
 * receiver that takes segments in order, and a network that loses, delays and reorders.
 */
module TcpSpec {
  import opened Words

  datatype State = Established | WaitAck | Closed

  // A segment with the ACK flag; an acknowledgement has no data.
  datatype Segment = Segment(seqNo: Word, ackNo: Word, data: seq<Byte>, rst: bool)

  datatype Socket = Socket(state: State, sequence: Word, acknowledgement: Word, received: seq<Byte>)

  const MAX_COPIES: nat := 4      // a segment is sent once and repeated three times

  // Sequence numbers are 32 bits wide.
  function Plus(n: Word, k: nat): Word {
    ToWord(n + k)
  }

  // What a socket does with an incoming segment, and what it sends back.
  function Input(s: Socket, g: Segment): (Socket, seq<Segment>) {
    if s.state == WaitAck then
      if g.rst then (s.(state := Closed), [])
      else if s.sequence > g.ackNo then (s, [])
      else if s.sequence == g.ackNo then (s.(acknowledgement := g.seqNo, state := Established), [])
      else (s, [])
    else if s.state == Established then
      if g.rst then (s.(state := Closed), [])
      else if s.acknowledgement != g.seqNo then (s, [])
      else
        var next := Plus(g.seqNo, |g.data|);
        (s.(sequence := g.ackNo, acknowledgement := next, received := s.received + g.data),
         [Segment(g.ackNo, next, [], false)])
    else (s, [])
  }

  // Sending: the segment, and the socket that waits for its acknowledgement.
  function Sending(s: Socket, data: seq<Byte>): (Socket, Segment) {
    (s.(state := WaitAck, sequence := Plus(s.sequence, |data|)), Segment(s.sequence, s.acknowledgement, data, false))
  }

  // ----- two sockets and the network between them -----

  // `sent` is what was given to the sender, `accepted` counts the segments the receiver took,
  // `sends` those that were sent; `last` is the outstanding one and `copies` its copies.
  datatype System = System(sender: Socket, receiver: Socket, toReceiver: multiset<Segment>, toSender: multiset<Segment>,
                           sent: seq<Byte>, last: Segment, copies: nat, sends: nat, accepted: nat)

  datatype Event =
    | Send(data: seq<Byte>)
    | Resend
    | Arrive(g: Segment)         // at the receiver
    | Answer(g: Segment)         // at the sender
    | LoseData(g: Segment)
    | LoseAnswer(g: Segment)

  predicate Enabled(s: System, e: Event) {
    match e
    case Send(data) => s.sender.state == Established && |s.sent| + |data| < WORD_LIMIT
    case Resend => s.sender.state == WaitAck && 0 < s.copies < MAX_COPIES
    case Arrive(g) => g in s.toReceiver
    case Answer(g) => g in s.toSender
    case LoseData(g) => g in s.toReceiver
    case LoseAnswer(g) => g in s.toSender
  }

  function Next(s: System, e: Event): System
    requires Enabled(s, e)
  {
    match e
    case Send(data) =>
      var (k, g) := Sending(s.sender, data);
      s.(sender := k, toReceiver := s.toReceiver + multiset{g}, sent := s.sent + data,
         last := g, copies := 1, sends := s.sends + 1)
    case Resend => s.(toReceiver := s.toReceiver + multiset{s.last}, copies := s.copies + 1)
    case Arrive(g) =>
      var (k, answers) := Input(s.receiver, g);
      s.(receiver := k, toReceiver := s.toReceiver - multiset{g}, toSender := s.toSender + multiset(answers),
         accepted := s.accepted + |answers|)
    case Answer(g) =>
      var (k, answers) := Input(s.sender, g);
      s.(sender := k, toSender := s.toSender - multiset{g}, toReceiver := s.toReceiver + multiset(answers))
    case LoseData(g) => s.(toReceiver := s.toReceiver - multiset{g})
    case LoseAnswer(g) => s.(toSender := s.toSender - multiset{g})
  }

  predicate Step(s: System, e: Event, s': System) {
    Enabled(s, e) && s' == Next(s, e)
  }

  predicate Run(ss: seq<System>, es: seq<Event>) {
    |ss| == |es| + 1 && forall i :: 0 <= i < |es| ==> Step(ss[i], es[i], ss[i + 1])
  }

  // Both sides agree on the first sequence number, and nothing is under way.
  predicate Start(s: System, first: Word) {
    && s.sender.state == Established && s.receiver.state == Established
    && s.sender.sequence == first && s.receiver.acknowledgement == first && s.receiver.received == []
    && s.toReceiver == multiset{} && s.toSender == multiset{} && s.sent == [] && s.sends == 0 && s.accepted == 0
  }

  // ----- safety -----

  // A copy of a message that was sent: where it starts, and that it is not past `base`
  // unless it is the outstanding one.
  ghost predicate CopyAt(g: Segment, first: Word, sent: seq<Byte>, base: nat, q: nat) {
    && !g.rst && |g.data| > 0 && q + |g.data| <= |sent| && g.data == sent[q..q + |g.data|] && g.seqNo == Plus(first, q)
    && (q + |g.data| <= base || (q == base && q + |g.data| == |sent|))
  }

  ghost predicate IsCopy(g: Segment, first: Word, sent: seq<Byte>, base: nat) {
    exists q: nat :: CopyAt(g, first, sent, base, q)
  }

  ghost predicate IsAnswer(g: Segment, first: Word, sent: seq<Byte>) {
    !g.rst && g.data == [] && g.ackNo == Plus(first, |sent|)
  }

  // The outstanding message starts at `base`; the receiver has everything before it, and
  // the message itself or not.
  ghost predicate InvAt(s: System, first: Word, base: nat) {
    && base <= |s.sent| < WORD_LIMIT
    && s.receiver.state == Established && s.sender.state != Closed
    && s.sender.sequence == Plus(first, |s.sent|)
    && |s.receiver.received| <= |s.sent| && s.receiver.received == s.sent[..|s.receiver.received|]
    && s.receiver.acknowledgement == Plus(first, |s.receiver.received|)
    && (|s.receiver.received| == |s.sent| || |s.receiver.received| == base)
    && (s.sender.state == Established ==> |s.receiver.received| == |s.sent| && s.toSender == multiset{})
    && (s.sender.state == WaitAck ==> base < |s.sent| && CopyAt(s.last, first, s.sent, base, base))
    && (|s.receiver.received| < |s.sent| ==> s.toSender == multiset{})
    && |s.toSender| <= 1
    && (forall g :: g in s.toSender ==> IsAnswer(g, first, s.sent))
    && (forall g :: g in s.toReceiver ==> IsCopy(g, first, s.sent, base))
    && s.accepted == s.sends - if |s.receiver.received| < |s.sent| then 1 else 0
  }

  ghost predicate Inv(s: System, first: Word) {
    exists base: nat :: InvAt(s, first, base)
  }

  // Numbers less than 2^32 apart are told apart.
  lemma PlusIsInjective(first: Word, a: nat, b: nat)
    requires a < WORD_LIMIT && b < WORD_LIMIT && Plus(first, a) == Plus(first, b)
    ensures a == b
  {
  }

  lemma PlusPlus(first: Word, a: nat, b: nat)
    ensures Plus(Plus(first, a), b) == Plus(first, a + b)
  {
  }
}
