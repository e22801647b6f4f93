/**
 * Messages of length 0: which sequences of messages the protocol carries safely in every
 * run, and which it does not.
 *
 * A copy of an empty message is taken whenever it arrives, so one empty message may leave
 * many acknowledgements behind. A late one sets an idle sender back to the number it had
 * when it sent the empty message; the next message then goes unnoticed at the receiver, and
 * a late acknowledgement of another empty message can end the wait for it.
 */
module TcpEmpty {
  import opened Words
  import opened TcpSpec
  import T = TcpTheorems

  // ----- messages -----

  // The messages sent in a run.
  function Messages(es: seq<Event>): (ms: seq<seq<Byte>>) {
    if |es| == 0 then [] else
    var n := |es| - 1;
    Messages(es[..n]) + if es[n].Send? then [es[n].data] else []
  }

  function Total(ms: seq<seq<Byte>>): nat {
    if |ms| == 0 then 0 else Total(ms[..|ms| - 1]) + |ms[|ms| - 1]|
  }

  // No message is exactly as long as the bytes between two empty messages before it.
  predicate Harmless(ms: seq<seq<Byte>>) {
    forall i, j, k :: 0 <= i < j < k < |ms| && ms[i] == [] && ms[j] == [] && ms[k] != [] ==>
      Total(ms[..j]) != Total(ms[..i]) + |ms[k]|
  }

  // Where the stream was when empty messages were sent.
  ghost predicate Spot(ms: seq<seq<Byte>>, p: nat) {
    exists i :: 0 <= i < |ms| && ms[i] == [] && Total(ms[..i]) == p
  }

  lemma MessagesStep(es: seq<Event>, n: nat)
    requires n < |es|
    ensures Messages(es[..n + 1]) == Messages(es[..n]) + if es[n].Send? then [es[n].data] else []
  {
    assert es[..n + 1][..n] == es[..n];
  }

  lemma {:induction false} MessagesAppend(a: seq<Event>, b: seq<Event>)
    ensures Messages(a + b) == Messages(a) + Messages(b)
    decreases |b|
  {
    if |b| == 0 {
      assert a + b == a;
    } else {
      var n := |b| - 1;
      assert (a + b)[..|a| + n] == a + b[..n];
      MessagesAppend(a, b[..n]);
    }
  }

  lemma {:induction false} MessagesGrow(es: seq<Event>, n: nat)
    requires n <= |es|
    ensures Messages(es[..n]) <= Messages(es)
    decreases |es| - n
  {
    if n == |es| {
      assert es[..n] == es;
    } else {
      MessagesStep(es, n);
      MessagesGrow(es, n + 1);
    }
  }

  lemma {:induction false} TotalGrows(ms: seq<seq<Byte>>, i: nat, j: nat)
    requires i <= j <= |ms|
    ensures Total(ms[..i]) <= Total(ms[..j])
    decreases j
  {
    if i < j {
      assert ms[..j][..j - 1] == ms[..j - 1];
      TotalGrows(ms, i, j - 1);
    }
  }

  lemma TotalStep(ms: seq<seq<Byte>>, m: seq<Byte>)
    ensures Total(ms + [m]) == Total(ms) + |m|
  {
    assert (ms + [m])[..|ms|] == ms;
  }

  lemma HarmlessPrefix(ms: seq<seq<Byte>>, all: seq<seq<Byte>>)
    requires ms <= all && Harmless(all)
    ensures Harmless(ms)
  {
    forall i, j, k | 0 <= i < j < k < |ms| && ms[i] == [] && ms[j] == [] && ms[k] != []
      ensures Total(ms[..j]) != Total(ms[..i]) + |ms[k]|
    {
      assert ms[..i] == all[..i] && ms[..j] == all[..j];
      assert all[i] == [] && all[j] == [] && all[k] == ms[k];
    }
  }

  // Without two empty messages, and so without any, nothing can go wrong.
  lemma OneEmptyIsHarmless(ms: seq<seq<Byte>>)
    requires forall i, j :: 0 <= i < j < |ms| ==> ms[i] != [] || ms[j] != []
    ensures Harmless(ms)
  {
  }

  lemma {:induction false} SpotBound(ms: seq<seq<Byte>>, p: nat)
    requires Spot(ms, p)
    ensures p <= Total(ms)
  {
    var i :| 0 <= i < |ms| && ms[i] == [] && Total(ms[..i]) == p;
    TotalGrows(ms, i, |ms|);
    assert ms[..|ms|] == ms;
  }

  lemma SpotStep(ms: seq<seq<Byte>>, m: seq<Byte>, p: nat)
    ensures Spot(ms + [m], p) <==> Spot(ms, p) || (m == [] && p == Total(ms))
  {
    var ms' := ms + [m];
    assert ms'[..|ms|] == ms;
    if Spot(ms', p) {
      var i :| 0 <= i < |ms'| && ms'[i] == [] && Total(ms'[..i]) == p;
      if i < |ms| { assert ms'[..i] == ms[..i]; }
    }
    if Spot(ms, p) {
      var i :| 0 <= i < |ms| && ms[i] == [] && Total(ms[..i]) == p;
      assert ms'[i] == [] && ms'[..i] == ms[..i];
    }
    if m == [] && p == Total(ms) {
      assert ms'[|ms|] == [];
    }
  }

  // From one spot, a harmless message does not lead to another.
  lemma SpotsApart(ms: seq<seq<Byte>>, m: seq<Byte>, p: nat)
    requires Harmless(ms + [m]) && m != [] && Spot(ms, p)
    ensures !Spot(ms, p + |m|)
  {
    var i :| 0 <= i < |ms| && ms[i] == [] && Total(ms[..i]) == p;
    var all := ms + [m];
    forall j | 0 <= j < |ms| && ms[j] == []
      ensures Total(ms[..j]) != p + |m|
    {
      if j <= i {
        TotalGrows(ms, j, i);
      } else {
        assert all[i] == [] && all[j] == [] && all[|ms|] == m;
        assert all[..i] == ms[..i] && all[..j] == ms[..j];
      }
    }
  }

  // ----- safety -----

  // A number that the sender may be set back to.
  ghost predicate AtSpot(n: Word, first: Word, ms: seq<seq<Byte>>) {
    exists p: nat :: Spot(ms, p) && n == Plus(first, p)
  }

  ghost predicate LateAnswer(g: Segment, first: Word, ms: seq<seq<Byte>>) {
    !g.rst && g.data == [] && AtSpot(g.ackNo, first, ms)
  }

  // What a receiver with `r` bytes sends for a segment it takes.
  function Reply(g: Segment): Segment {
    Segment(g.ackNo, Plus(g.seqNo, |g.data|), [], false)
  }

  // A segment the receiver does not take any bytes from.
  ghost predicate OldCopy(g: Segment, first: Word, ms: seq<seq<Byte>>, r: nat) {
    !g.rst && if g.data == [] then AtSpot(g.seqNo, first, ms) else exists q: nat :: q < r && g.seqNo == Plus(first, q)
  }

  // The outstanding message was sent from `base`: from the end of the stream, or from a spot
  // to which the sender had been set back.
  ghost predicate Waiting(s: System, first: Word, ms: seq<seq<Byte>>, base: nat) {
    var n, r, m := |s.sent|, |s.receiver.received|, |s.last.data|;
    && base + m <= n && s.last.data == s.sent[n - m..] && !s.last.rst && s.last.seqNo == Plus(first, base)
    && s.sender.sequence == Plus(first, base + m)
    && (if m == 0 then r == n && Spot(ms, base)
        else if base + m == n then (r == n || r == base) && forall p: nat :: Spot(ms, p) ==> p <= base
        else r == n - m && !Spot(ms, base + m))
    && forall g :: g in s.toSender ==>
      LateAnswer(g, first, ms) || (m > 0 && base + m == n == r && g == Reply(s.last) && s.toSender[g] == 1)
  }

  ghost predicate Idle(s: System, first: Word, ms: seq<seq<Byte>>, base: nat) {
    && s.receiver.received == s.sent && s.sender.sequence == Plus(first, base)
    && (base == |s.sent| || Spot(ms, base)) && base <= |s.sent|
    && forall g :: g in s.toSender ==> LateAnswer(g, first, ms)
  }

  ghost predicate SafeAt(s: System, first: Word, ms: seq<seq<Byte>>, base: nat) {
    var r := |s.receiver.received|;
    && |s.sent| == Total(ms) < WORD_LIMIT && r <= |s.sent| && s.receiver.received == s.sent[..r]
    && s.receiver.state == Established && s.receiver.acknowledgement == Plus(first, r)
    && s.sender.state != Closed
    && (s.sender.state == Established ==> Idle(s, first, ms, base))
    && (s.sender.state == WaitAck ==> Waiting(s, first, ms, base))
    && forall g :: g in s.toReceiver ==>
      OldCopy(g, first, ms, r) || (s.sender.state == WaitAck && g == s.last && g.data != [] && base == r)
  }

  ghost predicate Safe(s: System, first: Word, ms: seq<seq<Byte>>) {
    exists base: nat :: SafeAt(s, first, ms, base)
  }

  lemma StartsSafe(s: System, first: Word)
    requires Start(s, first)
    ensures SafeAt(s, first, [], 0)
  {
    WordItself(first);
  }

  lemma LateStays(g: Segment, first: Word, ms: seq<seq<Byte>>, m: seq<Byte>, r: nat)
    ensures LateAnswer(g, first, ms) ==> LateAnswer(g, first, ms + [m])
    ensures OldCopy(g, first, ms, r) ==> OldCopy(g, first, ms + [m], r)
  {
    hide Plus, Spot;
    if AtSpot(g.ackNo, first, ms) {
      var p: nat :| Spot(ms, p) && g.ackNo == Plus(first, p);
      SpotStep(ms, m, p);
    }
    if AtSpot(g.seqNo, first, ms) {
      var p: nat :| Spot(ms, p) && g.seqNo == Plus(first, p);
      SpotStep(ms, m, p);
    }
  }

  lemma SendSafe(s: System, first: Word, ms: seq<seq<Byte>>, base: nat, data: seq<Byte>)
    requires SafeAt(s, first, ms, base) && Enabled(s, Send(data)) && Harmless(ms + [data])
    ensures SafeAt(Next(s, Send(data)), first, ms + [data], base)
  {
    hide Plus, Spot, LateAnswer, OldCopy, Harmless;
    var s', ms', n := Next(s, Send(data)), ms + [data], |s.sent|;
    TotalStep(ms, data);
    PlusPlus(first, base, |data|);
    assert s'.sent[n..n + |data|] == data;
    SpotStep(ms, data, base);
    if data != [] {
      forall p: nat | Spot(ms', p)
        ensures p <= n
      {
        SpotStep(ms, data, p);
        SpotBound(ms, p);
      }
      if base != n {
        SpotsApart(ms, data, base);
        SpotStep(ms, data, base + |data|);
      }
    }
    forall g | g in s'.toSender
      ensures LateAnswer(g, first, ms')
    {
      LateStays(g, first, ms, data, 0);
    }
    forall g | g in s'.toReceiver
      ensures OldCopy(g, first, ms', n) || (g == s'.last && data != [] && base == n)
    {
      if g == s'.last {
        SentCopy(g, first, ms', base, n);
      } else {
        LateStays(g, first, ms, data, n);
      }
    }
  }

  lemma SentCopy(g: Segment, first: Word, ms: seq<seq<Byte>>, base: nat, r: nat)
    requires !g.rst && g.seqNo == Plus(first, base)
    ensures g.data == [] && Spot(ms, base) ==> OldCopy(g, first, ms, r)
    ensures g.data != [] && base < r ==> OldCopy(g, first, ms, r)
  {
    hide Plus, Spot;
  }

  lemma ResendSafe(s: System, first: Word, ms: seq<seq<Byte>>, base: nat)
    requires SafeAt(s, first, ms, base) && Enabled(s, Resend)
    ensures SafeAt(Next(s, Resend), first, ms, base)
  {
    hide Plus, Spot, LateAnswer, OldCopy;
    SentCopy(s.last, first, ms, base, |s.receiver.received|);
  }

  // The receiver takes the outstanding message, or an empty one.
  lemma ArriveSafe(s: System, first: Word, ms: seq<seq<Byte>>, base: nat, g: Segment)
    requires SafeAt(s, first, ms, base) && Enabled(s, Arrive(g))
    ensures SafeAt(Next(s, Arrive(g)), first, ms, base)
  {
    hide Plus, Spot, LateAnswer, OldCopy, Waiting, Idle;
    if g.seqNo != s.receiver.acknowledgement {
      Dropped(s, first, ms, base, g);
    } else if g.data == [] {
      TakenEmpty(s, first, ms, base, g);
    } else {
      NotOld(s, first, ms, g);
      TakenMessage(s, first, ms, base, g);
    }
  }

  lemma Dropped(s: System, first: Word, ms: seq<seq<Byte>>, base: nat, g: Segment)
    requires SafeAt(s, first, ms, base) && Enabled(s, Arrive(g)) && g.seqNo != s.receiver.acknowledgement
    ensures SafeAt(Next(s, Arrive(g)), first, ms, base)
  {
    hide Plus, Spot, LateAnswer;
  }

  lemma NotOld(s: System, first: Word, ms: seq<seq<Byte>>, g: Segment)
    requires s.receiver.acknowledgement == g.seqNo == Plus(first, |s.receiver.received|)
    requires |s.receiver.received| < WORD_LIMIT && g.data != []
    ensures !OldCopy(g, first, ms, |s.receiver.received|)
  {
    var r := |s.receiver.received|;
    if OldCopy(g, first, ms, r) {
      var q: nat :| q < r && g.seqNo == Plus(first, q);
      PlusIsInjective(first, q, r);
    }
  }

  // One late answer more is under way.
  lemma MoreLate(s: System, s': System, a: Segment, first: Word, ms: seq<seq<Byte>>, base: nat)
    requires s'.sent == s.sent && s'.sender == s.sender && s'.receiver.received == s.receiver.received
    requires s'.last == s.last
    requires s'.toSender == s.toSender + multiset{a} && LateAnswer(a, first, ms)
    ensures Idle(s, first, ms, base) ==> Idle(s', first, ms, base)
    ensures Waiting(s, first, ms, base) ==> Waiting(s', first, ms, base)
  {
    hide Plus, Spot, LateAnswer;
  }

  lemma TakenEmpty(s: System, first: Word, ms: seq<seq<Byte>>, base: nat, g: Segment)
    requires SafeAt(s, first, ms, base) && Enabled(s, Arrive(g)) && g.data == []
    requires g.seqNo == s.receiver.acknowledgement
    ensures SafeAt(Next(s, Arrive(g)), first, ms, base)
  {
    hide Plus, Spot, AtSpot, Total, Idle, Waiting;
    var s', a := Next(s, Arrive(g)), Reply(g);
    PlusPlus(first, |s.receiver.received|, 0);
    assert s'.receiver.received == s.receiver.received;
    MoreLate(s, s', a, first, ms, base);
  }

  lemma TakenMessage(s: System, first: Word, ms: seq<seq<Byte>>, base: nat, g: Segment)
    requires SafeAt(s, first, ms, base) && Enabled(s, Arrive(g)) && g.data != []
    requires g == s.last && s.sender.state == WaitAck && base == |s.receiver.received|
    requires s.receiver.acknowledgement == g.seqNo
    ensures SafeAt(Next(s, Arrive(g)), first, ms, base)
  {
    hide Plus, Spot, LateAnswer;
    var s', n := Next(s, Arrive(g)), |s.sent|;
    PlusPlus(first, base, |g.data|);
    assert s.receiver.received + g.data == s.sent;
    forall h | h in s'.toReceiver
      ensures OldCopy(h, first, ms, n)
    {
      if h == g {
        SentCopy(h, first, ms, base, n);
      }
    }
  }

  // An idle sender is set back by a late answer.
  lemma LateIsTaken(s: System, first: Word, ms: seq<seq<Byte>>, base: nat, g: Segment) returns (base': nat)
    requires SafeAt(s, first, ms, base) && Enabled(s, Answer(g)) && s.sender.state == Established
    ensures SafeAt(Next(s, Answer(g)), first, ms, base')
  {
    hide Plus, Spot;
    base' := base;
    if s.sender.acknowledgement == g.seqNo {
      base' :| Spot(ms, base') && g.ackNo == Plus(first, base');
      SpotBound(ms, base');
      assert OldCopy(Reply(g), first, ms, |s.sent|);
      var s' := Next(s, Answer(g));
      assert s'.toReceiver == s.toReceiver + multiset{Reply(g)};
    }
  }

  // A waiting sender goes on only with the answer to the outstanding message.
  lemma AnswerIsTaken(s: System, first: Word, ms: seq<seq<Byte>>, base: nat, g: Segment)
    requires SafeAt(s, first, ms, base) && Enabled(s, Answer(g)) && s.sender.state == WaitAck
    requires s.sender.sequence == g.ackNo
    ensures SafeAt(Next(s, Answer(g)), first, ms, base + |s.last.data|) && s.receiver.received == s.sent
  {
    hide Plus, Spot, OldCopy, Total, LateAnswer;
    if LateAnswer(g, first, ms) {
      LateEndsAt(g, first, ms, base + |s.last.data|);
    }
  }

  // The spot of a late answer, by its number.
  lemma LateEndsAt(g: Segment, first: Word, ms: seq<seq<Byte>>, q: nat)
    requires LateAnswer(g, first, ms) && g.ackNo == Plus(first, q) && q < WORD_LIMIT && Total(ms) < WORD_LIMIT
    ensures Spot(ms, q) && !g.rst
  {
    hide Plus, Spot, Total;
    var p: nat :| Spot(ms, p) && g.ackNo == Plus(first, p);
    SpotBound(ms, p);
    PlusIsInjective(first, p, q);
  }

  lemma AnswerIsIgnored(s: System, first: Word, ms: seq<seq<Byte>>, base: nat, g: Segment)
    requires SafeAt(s, first, ms, base) && Enabled(s, Answer(g)) && s.sender.state == WaitAck
    requires s.sender.sequence != g.ackNo
    ensures SafeAt(Next(s, Answer(g)), first, ms, base) && Next(s, Answer(g)).sender.state == WaitAck
  {
    hide Plus, Spot, AtSpot, OldCopy;
    Fewer(s.toSender, g);
  }

  // Every step of a run with harmless messages.
  lemma StepSafe(s: System, e: Event, s': System, first: Word, ms: seq<seq<Byte>>)
    requires Safe(s, first, ms) && Step(s, e, s') && (e.Send? ==> Harmless(ms + [e.data]))
    ensures Safe(s', first, if e.Send? then ms + [e.data] else ms)
    ensures s.sender.state == WaitAck && s'.sender.state == Established ==> s.receiver.received == s.sent
  {
    hide SafeAt, Harmless;
    var base: nat :| SafeAt(s, first, ms, base);
    match e
    case Send(data) => SendSafe(s, first, ms, base, data);
    case Resend => ResendSafe(s, first, ms, base); StaysWaiting(s, e);
    case Arrive(g) => ArriveSafe(s, first, ms, base, g); StaysWaiting(s, e);
    case Answer(g) => var base' := AnswerSafe(s, first, ms, base, g);
    case LoseData(g) => LossSafe(s, first, ms, base, e);
    case LoseAnswer(g) => LossSafe(s, first, ms, base, e);
  }

  lemma StaysWaiting(s: System, e: Event)
    requires Enabled(s, e) && !e.Answer?
    ensures s.sender.state == WaitAck ==> Next(s, e).sender.state == WaitAck
  {
  }

  lemma LossSafe(s: System, first: Word, ms: seq<seq<Byte>>, base: nat, e: Event)
    requires SafeAt(s, first, ms, base) && Enabled(s, e) && (e.LoseData? || e.LoseAnswer?)
    ensures SafeAt(Next(s, e), first, ms, base) && Next(s, e).sender.state == s.sender.state
  {
    if e.LoseData? {
      LoseDataSafe(s, first, ms, base, e.g);
    } else {
      LoseAnswerSafe(s, first, ms, base, e.g);
    }
  }

  lemma LoseDataSafe(s: System, first: Word, ms: seq<seq<Byte>>, base: nat, g: Segment)
    requires SafeAt(s, first, ms, base) && Enabled(s, LoseData(g))
    ensures SafeAt(Next(s, LoseData(g)), first, ms, base) && Next(s, LoseData(g)).sender.state == s.sender.state
  {
    hide Plus, Spot, LateAnswer, OldCopy;
    Fewer(s.toReceiver, g);
  }

  lemma LoseAnswerSafe(s: System, first: Word, ms: seq<seq<Byte>>, base: nat, g: Segment)
    requires SafeAt(s, first, ms, base) && Enabled(s, LoseAnswer(g))
    ensures SafeAt(Next(s, LoseAnswer(g)), first, ms, base) && Next(s, LoseAnswer(g)).sender.state == s.sender.state
  {
    hide Plus, Spot, LateAnswer, OldCopy;
    Fewer(s.toSender, g);
  }

  lemma Fewer(m: multiset<Segment>, g: Segment)
    ensures forall h :: h in m - multiset{g} ==> h in m && 0 < (m - multiset{g})[h] <= m[h]
  {
  }

  lemma AnswerSafe(s: System, first: Word, ms: seq<seq<Byte>>, base: nat, g: Segment) returns (base': nat)
    requires SafeAt(s, first, ms, base) && Enabled(s, Answer(g))
    ensures SafeAt(Next(s, Answer(g)), first, ms, base')
    ensures s.sender.state == WaitAck && Next(s, Answer(g)).sender.state == Established ==>
      s.receiver.received == s.sent
  {
    hide SafeAt, Next, Input, Plus;
    NotClosed(s, first, ms, base);
    base' := base;
    if s.sender.state == Established {
      base' := LateIsTaken(s, first, ms, base, g);
    } else if s.sender.sequence == g.ackNo {
      AnswerIsTaken(s, first, ms, base, g);
      base' := base + |s.last.data|;
    } else {
      AnswerIsIgnored(s, first, ms, base, g);
    }
  }

  lemma NotClosed(s: System, first: Word, ms: seq<seq<Byte>>, base: nat)
    requires SafeAt(s, first, ms, base)
    ensures s.sender.state != Closed
  {
  }

  lemma {:induction false} RunSafe(ss: seq<System>, es: seq<Event>, first: Word, n: nat)
    requires Run(ss, es) && Start(ss[0], first) && n <= |es| && Harmless(Messages(es))
    ensures Safe(ss[n], first, Messages(es[..n]))
  {
    hide SafeAt, Step, Harmless;
    if n == 0 {
      StartsSafe(ss[0], first);
      assert es[..0] == [];
      assert SafeAt(ss[0], first, [], 0);
    } else {
      RunSafe(ss, es, first, n - 1);
      assert Step(ss[n - 1], es[n - 1], ss[n - 1 + 1]);
      MessagesStep(es, n - 1);
      MessagesGrow(es, n);
      HarmlessPrefix(Messages(es[..n]), Messages(es));
      assert Messages(es[..n - 1]) + [] == Messages(es[..n - 1]);
      StepSafe(ss[n - 1], es[n - 1], ss[n], first, Messages(es[..n - 1]));
    }
  }

  // What the protocol promises of a run: the bytes handed over are a prefix of those sent,
  // and the sender goes on only after the receiver has everything.
  ghost predicate Reliable(ss: seq<System>, es: seq<Event>)
    requires |ss| == |es| + 1
  {
    && (forall n :: 0 <= n <= |es| ==> ss[n].receiver.received <= ss[n].sent)
    && (forall n :: 0 <= n < |es| ==> !GoesOnEarly(ss[n], ss[n + 1]))
  }

  predicate GoesOnEarly(s: System, s': System) {
    s.sender.state == WaitAck && s'.sender.state == Established && s.receiver.received != s.sent
  }

  // With harmless messages, every run is reliable.
  lemma HarmlessIsReliable(ss: seq<System>, es: seq<Event>, first: Word)
    requires Run(ss, es) && Start(ss[0], first) && Harmless(Messages(es))
    ensures Reliable(ss, es)
  {
    hide Step, Harmless, Plus, Spot, LateAnswer, OldCopy, Waiting, Idle;
    forall n | 0 <= n <= |es|
      ensures ss[n].receiver.received <= ss[n].sent
    {
      RunSafe(ss, es, first, n);
    }
    hide Safe;
    forall n | 0 <= n < |es|
      ensures !GoesOnEarly(ss[n], ss[n + 1])
    {
      RunSafe(ss, es, first, n);
      assert Step(ss[n], es[n], ss[n + 1]);
      MessagesStep(es, n);
      MessagesGrow(es, n + 1);
      HarmlessPrefix(Messages(es[..n + 1]), Messages(es));
      StepSafe(ss[n], es[n], ss[n + 1], first, Messages(es[..n]));
    }
  }

  // ----- unreliable runs -----

  // The answer to an empty message sent from `p`, when the sender has acknowledged up to `k`.
  function Late(k: Word, first: Word, p: nat): Segment {
    Segment(k, Plus(first, p), [], false)
  }

  // Both sides are at `r`, and late answers for the spots in `held` are under way.
  ghost predicate Quiet(s: System, first: Word, r: nat, k: Word, held: set<nat>) {
    && s.sender.state == Established && s.receiver.state == Established
    && s.sender.sequence == Plus(first, r) && s.receiver.acknowledgement == Plus(first, r)
    && s.sender.acknowledgement == k
    && forall p :: p in held ==> Late(k, first, p) in s.toSender
  }

  // A run from one state to another in which the given messages are sent.
  ghost predicate Leads(ss: seq<System>, es: seq<Event>, s: System, t: System, ms: seq<seq<Byte>>) {
    Run(ss, es) && ss[0] == s && ss[|es|] == t && Messages(es) == ms
  }

  lemma LeadsThen(ss: seq<System>, es: seq<Event>, s: System, t: System, ms: seq<seq<Byte>>,
                  ss': seq<System>, es': seq<Event>, u: System, ms': seq<seq<Byte>>)
    requires Leads(ss, es, s, t, ms) && Leads(ss', es', t, u, ms')
    ensures |ss| == |es| + 1 && |ss'| == |es'| + 1 && Leads(ss + ss'[1..], es + es', s, u, ms + ms')
  {
    hide Step;
    MessagesAppend(es, es');
    var all, events := ss + ss'[1..], es + es';
    forall i | 0 <= i < |events|
      ensures Step(all[i], events[i], all[i + 1])
    {
      if i < |es| {
        assert Step(ss[i], es[i], ss[i + 1]);
      } else {
        assert Step(ss'[i - |es|], es'[i - |es|], ss'[i - |es| + 1]);
      }
    }
  }

  // ----- single steps -----

  lemma Sent(s: System, data: seq<Byte>) returns (t: System, g: Segment)
    requires s.sender.state == Established && |s.sent| + |data| < WORD_LIMIT
    ensures Step(s, Send(data), t) && g == Segment(s.sender.sequence, s.sender.acknowledgement, data, false)
    ensures t.sender == s.sender.(state := WaitAck, sequence := Plus(s.sender.sequence, |data|)) && t.last == g
    ensures t.copies == 1
    ensures t.toReceiver[g] == s.toReceiver[g] + 1 && t.toSender == s.toSender && t.receiver == s.receiver
    ensures t.sent == s.sent + data
  {
    hide Plus;
    t := Next(s, Send(data));
    g := t.last;
  }

  // The receiver takes the segment it expects.
  lemma Taken(s: System, g: Segment) returns (t: System)
    requires s.toReceiver[g] > 0 && !g.rst && s.receiver.state == Established && s.receiver.acknowledgement == g.seqNo
    ensures Step(s, Arrive(g), t) && t.toReceiver[g] == s.toReceiver[g] - 1
    ensures t.toSender == s.toSender + multiset{Reply(g)}
    ensures t.receiver.state == Established && t.receiver.acknowledgement == Plus(g.seqNo, |g.data|)
    ensures t.receiver.received == s.receiver.received + g.data && t.sender == s.sender && t.sent == s.sent
  {
    hide Plus;
    t := Next(s, Arrive(g));
  }

  // The awaited number ends the wait.
  lemma Answered(s: System, g: Segment) returns (t: System)
    requires g in s.toSender && !g.rst && s.sender.state == WaitAck && s.sender.sequence == g.ackNo
    ensures Step(s, Answer(g), t) && t.sender == s.sender.(state := Established, acknowledgement := g.seqNo)
    ensures t.receiver == s.receiver && t.sent == s.sent && t.toSender == s.toSender - multiset{g}
  {
    t := Next(s, Answer(g));
    assert t.toReceiver == s.toReceiver;
  }

  // A late answer sets an idle sender back.
  lemma SetBack(s: System, g: Segment) returns (t: System)
    requires g in s.toSender && !g.rst && g.data == [] && s.sender.state == Established
    requires s.sender.acknowledgement == g.seqNo
    ensures Step(s, Answer(g), t) && t.sender.state == Established && t.sender.sequence == g.ackNo
    ensures t.sender.acknowledgement == g.seqNo
    ensures t.receiver == s.receiver && t.sent == s.sent && t.toSender == s.toSender - multiset{g}
  {
    PlusNone(g.seqNo);
    hide Plus;
    t := Next(s, Answer(g));
  }

  lemma PlusNone(k: Word)
    ensures Plus(k, 0) == k
  {
  }

  // A message that is sent, taken and answered.
  lemma Deliver(s: System, first: Word, r: nat, k: Word, held: set<nat>, data: seq<Byte>)
    returns (ss: seq<System>, es: seq<Event>, t: System)
    requires Quiet(s, first, r, k, held) && data != [] && |s.sent| + |data| < WORD_LIMIT
    ensures Leads(ss, es, s, t, [data]) && Quiet(t, first, r + |data|, k, held)
    ensures t.sent == s.sent + data && t.receiver.received == s.receiver.received + data
  {
    hide Plus, Messages, Step;
    PlusPlus(first, r, |data|);
    var s1, g := Sent(s, data);
    var s2 := Taken(s1, g);
    t := Answered(s2, Reply(g));
    ss, es := [s, s1, s2, t], [Send(data), Arrive(g), Answer(Reply(g))];
    assert t.toSender == s.toSender;
    OneMessage(es, data);
  }

  lemma OneMessage(es: seq<Event>, data: seq<Byte>)
    requires |es| > 0 && es[0] == Send(data) && forall i :: 0 < i < |es| ==> !es[i].Send?
    ensures Messages(es) == [data]
    decreases |es|
  {
    if |es| == 1 {
      assert es[..0] == [];
    } else {
      OneMessage(es[..|es| - 1], data);
    }
  }

  // An empty message whose repetition is taken as well: one answer stays under way.
  lemma DeliverEmpty(s: System, first: Word, r: nat, k: Word, held: set<nat>)
    returns (ss: seq<System>, es: seq<Event>, t: System)
    requires Quiet(s, first, r, k, held) && |s.sent| < WORD_LIMIT
    ensures Leads(ss, es, s, t, [[]]) && Quiet(t, first, r, k, held + {r})
    ensures t.sent == s.sent && t.receiver.received == s.receiver.received
  {
    hide Plus, Messages, Step;
    PlusNone(Plus(first, r));
    var s1, g := Sent(s, []);
    var s2 := Repeated(s1, g);
    var s3 := Taken(s2, g);
    var s4 := Taken(s3, g);
    t := Answered(s4, Reply(g));
    ss, es := [s, s1, s2, s3, s4, t], [Send([]), Resend, Arrive(g), Arrive(g), Answer(Reply(g))];
    assert t.toSender == s.toSender + multiset{Reply(g)};
    FiveSteps(ss, es);
    OneMessage(es, []);
  }

  lemma Repeated(s: System, g: Segment) returns (t: System)
    requires s.sender.state == WaitAck && s.copies == 1 && s.last == g
    ensures Step(s, Resend, t) && t.toReceiver[g] == s.toReceiver[g] + 1
    ensures t.sender == s.sender && t.receiver == s.receiver && t.toSender == s.toSender && t.sent == s.sent
  {
    t := Next(s, Resend);
  }

  lemma FiveSteps(ss: seq<System>, es: seq<Event>)
    requires |es| == 5 && |ss| == 6
    requires Step(ss[0], es[0], ss[1]) && Step(ss[1], es[1], ss[2]) && Step(ss[2], es[2], ss[3])
    requires Step(ss[3], es[3], ss[4]) && Step(ss[4], es[4], ss[5])
    ensures Run(ss, es)
  {
    hide Step;
  }

  lemma {:induction false} DeliverAll(s: System, first: Word, r: nat, k: Word, ms: seq<seq<Byte>>, n: nat)
    returns (ss: seq<System>, es: seq<Event>, t: System, held: set<nat>)
    requires Quiet(s, first, r, k, {}) && n <= |ms| && |s.sent| + Total(ms) < WORD_LIMIT
    ensures Leads(ss, es, s, t, ms[..n]) && Quiet(t, first, r + Total(ms[..n]), k, held)
    ensures forall i :: 0 <= i < n && ms[i] == [] ==> r + Total(ms[..i]) in held
    ensures |t.sent| == |s.sent| + Total(ms[..n]) && |t.receiver.received| == |s.receiver.received| + Total(ms[..n])
  {
    hide *;
    if n == 0 {
      ss, es, t, held := [s], [], s, {};
      NothingSent(s, ms);
    } else {
      var ss1, es1, s1, held1 := DeliverAll(s, first, r, k, ms, n - 1);
      var m, ss2, es2 := ms[n - 1], [], [];
      assert ms[..n] == ms[..n - 1] + [m];
      TotalStep(ms[..n - 1], m);
      TotalGrows(ms, n, |ms|);
      assert ms[..|ms|] == ms;
      if m == [] {
        ss2, es2, t := DeliverEmpty(s1, first, r + Total(ms[..n - 1]), k, held1);
        held := held1 + {r + Total(ms[..n - 1])};
      } else {
        ss2, es2, t := Deliver(s1, first, r + Total(ms[..n - 1]), k, held1, m);
        held := held1;
      }
      LeadsThen(ss1, es1, s, s1, ms[..n - 1], ss2, es2, t, [m]);
      LeadsLength(ss2, es2, s1, t, [m]);
      ss, es := ss1 + ss2[1..], es1 + es2;
    }
  }

  lemma NothingSent(s: System, ms: seq<seq<Byte>>)
    ensures Leads([s], [], s, s, ms[..0]) && Total(ms[..0]) == 0
  {
    NoSteps(s);
    hide Run;
  }

  lemma LeadsLength(ss: seq<System>, es: seq<Event>, s: System, t: System, ms: seq<seq<Byte>>)
    requires Leads(ss, es, s, t, ms)
    ensures |ss| == |es| + 1
  {
  }

  lemma NoSteps(s: System)
    ensures Run([s], [])
  {
  }

  // The sender is set back to `p`, sends a message that nobody takes, and goes on with the
  // late answer for `q`.
  lemma Lose(s: System, first: Word, r: nat, k: Word, held: set<nat>, p: nat, q: nat, data: seq<Byte>)
    returns (ss: seq<System>, es: seq<Event>, t: System)
    requires Quiet(s, first, r, k, held) && p in held && q in held && q == p + |data| && data != []
    requires |s.sent| + |data| < WORD_LIMIT && |s.receiver.received| <= |s.sent| && q < WORD_LIMIT
    ensures Leads(ss, es, s, t, [data]) && |es| == 3 && GoesOnEarly(ss[2], ss[3])
    ensures t.sent == s.sent + data && t.receiver.received == s.receiver.received
    ensures q == r ==> Quiet(t, first, r, k, {})
  {
    PlusPlus(first, p, |data|);
    var g, h := Late(k, first, p), Late(k, first, q);
    if g == h { PlusIsInjective(first, p, q); }
    hide Plus, Messages, Step;
    var s1 := SetBack(s, g);
    var s2, message := Sent(s1, data);
    assert h in s2.toSender;
    t := Answered(s2, h);
    ss, es := [s, s1, s2, t], [Answer(g), Send(data), Answer(h)];
    SecondMessage(es, data);
  }

  lemma SecondMessage(es: seq<Event>, data: seq<Byte>)
    requires |es| == 3 && !es[0].Send? && es[1] == Send(data) && !es[2].Send?
    ensures Messages(es) == [data]
  {
    assert es == es[..1] + es[1..] && es[..1][..0] == [];
    MessagesAppend(es[..1], es[1..]);
    OneMessage(es[1..], data);
  }

  // Messages that are not harmless: some run in which only they are sent goes wrong.
  lemma HarmfulIsUnreliable(s: System, first: Word, ms: seq<seq<Byte>>) returns (ss: seq<System>, es: seq<Event>)
    requires Start(s, first) && Total(ms) < WORD_LIMIT && !Harmless(ms)
    ensures Run(ss, es) && ss[0] == s && Messages(es) <= ms && !Reliable(ss, es)
  {
    hide *;
    var i, j, k := Harmful(ms);
    StartIsQuiet(s, first);
    var ack := s.sender.acknowledgement;
    var ss1, es1, s1, held := DeliverAll(s, first, 0, ack, ms, k);
    assert ms[..k + 1] == ms[..k] + [ms[k]] && ms[..|ms|] == ms;
    TotalStep(ms[..k], ms[k]);
    TotalGrows(ms, k + 1, |ms|);
    TotalGrows(ms, j, k);
    var ss2, es2, t := Lose(s1, first, Total(ms[..k]), ack, held, Total(ms[..i]), Total(ms[..j]), ms[k]);
    LeadsLength(ss2, es2, s1, t, [ms[k]]);
    ss, es := ss1 + ss2[1..], es1 + es2;
    EarlyLater(ss1, es1, s, s1, ms[..k], ss2, es2, t, [ms[k]], 2);
  }

  // What goes wrong in a part of a run goes wrong in the run.
  lemma EarlyLater(ss: seq<System>, es: seq<Event>, s: System, t: System, ms: seq<seq<Byte>>,
                   ss': seq<System>, es': seq<Event>, u: System, ms': seq<seq<Byte>>, n: nat)
    requires Leads(ss, es, s, t, ms) && Leads(ss', es', t, u, ms') && n < |es'| && GoesOnEarly(ss'[n], ss'[n + 1])
    ensures Leads(ss + ss'[1..], es + es', s, u, ms + ms') && |ss + ss'[1..]| == |es + es'| + 1
    ensures (ss + ss'[1..])[0] == s && GoesOnEarly((ss + ss'[1..])[|es| + n], (ss + ss'[1..])[|es| + n + 1])
    ensures !Reliable(ss + ss'[1..], es + es') && Run(ss + ss'[1..], es + es') && Messages(es + es') == ms + ms'
  {
    hide Step, Messages;
    LeadsThen(ss, es, s, t, ms, ss', es', u, ms');
    var all := ss + ss'[1..];
    assert all[|es| + n] == ss'[n] && all[|es| + n + 1] == ss'[n + 1];
  }

  lemma StartIsQuiet(s: System, first: Word)
    requires Start(s, first)
    ensures Quiet(s, first, 0, s.sender.acknowledgement, {}) && |s.sent| == |s.receiver.received| == 0
  {
    WordItself(first);
  }

  lemma Harmful(ms: seq<seq<Byte>>) returns (i: nat, j: nat, k: nat)
    requires !Harmless(ms)
    ensures i < j < k < |ms| && ms[i] == [] && ms[j] == [] && ms[k] != [] && Total(ms[..j]) == Total(ms[..i]) + |ms[k]|
  {
    i, j, k :| 0 <= i < j < k < |ms| && ms[i] == [] && ms[j] == [] && ms[k] != [] && Total(ms[..j]) == Total(ms[..i]) + |ms[k]|;
  }

  // The exact condition: what is sent is carried reliably in every run if and only if it is
  // harmless.
  lemma ReliableExactly(s: System, first: Word, ms: seq<seq<Byte>>)
    requires Start(s, first) && Total(ms) < WORD_LIMIT
    ensures (forall ss, es :: Run(ss, es) && ss[0] == s && Messages(es) <= ms ==> Reliable(ss, es)) <==> Harmless(ms)
  {
    hide Start, Harmless, Reliable, Step;
    if Harmless(ms) {
      forall ss, es | Run(ss, es) && ss[0] == s && Messages(es) <= ms
        ensures Reliable(ss, es)
      {
        HarmlessPrefix(Messages(es), ms);
        HarmlessIsReliable(ss, es, first);
      }
    } else {
      var ss, es := HarmfulIsUnreliable(s, first, ms);
    }
  }

  // A byte is lost for good: from every state in which the sender is ready, after two empty
  // messages around a message of one byte, another byte goes unnoticed and a later one is
  // handed over in its place.
  lemma ByteIsLost(s: System, first: Word, a: Byte, b: Byte, c: Byte) returns (ss: seq<System>, es: seq<Event>)
    requires Inv(s, first) && s.sender.state == Established && |s.sent| + 3 < WORD_LIMIT && b != c
    ensures Run(ss, es) && ss[0] == s && |ss| == |es| + 1 && Messages(es) == [[], [a], [], [b], [c]]
    ensures exists n :: 0 <= n < |es| && GoesOnEarly(ss[n], ss[n + 1])
    ensures var t := ss[|es|];
      t.sent == s.sent + [a, b, c] && t.receiver.received == s.sent + [a, c] && !(t.receiver.received <= t.sent)
  {
    hide *;
    var n, k := |s.sent|, s.sender.acknowledgement;
    InvIsQuiet(s, first);
    var ss1, es1, t := TwoLate(s, first, n, k, a);
    var ss2, es2, u := Lose(t, first, n + 1, k, {n, n + 1}, n, n + 1, [b]);
    LeadsLength(ss2, es2, t, u, [[b]]);
    EarlyLater(ss1, es1, s, t, [[], [a], []], ss2, es2, u, [[b]], 2);
    var ss3, es3, v := Deliver(u, first, n + 1, k, {}, [c]);
    var ss4, es4 := ss1 + ss2[1..], es1 + es2;
    LeadsThen(ss4, es4, s, u, [[], [a], []] + [[b]], ss3, es3, v, [[c]]);
    ss, es := ss4 + ss3[1..], es4 + es3;
    var m := |es1| + 2;
    assert ss[m] == ss4[m] && ss[m + 1] == ss4[m + 1];
    assert [[], [a], []] + [[b]] + [[c]] == [[], [a], [], [b], [c]];
    LeadsParts(ss, es, s, v, [[], [a], [], [b], [c]]);
    InPlace(s.sent, a, b, c);
  }

  lemma InPlace(sent: seq<Byte>, a: Byte, b: Byte, c: Byte)
    ensures sent + [a] + [b] + [c] == sent + [a, b, c] && sent + [a] + [c] == sent + [a, c]
    ensures b != c ==> !(sent + [a, c] <= sent + [a, b, c])
  {
    assert (sent + [a, b, c])[|sent| + 1] == b && (sent + [a, c])[|sent| + 1] == c;
  }

  // A message of one byte between two empty ones leaves an answer for either.
  lemma TwoLate(s: System, first: Word, n: nat, k: Word, a: Byte) returns (ss: seq<System>, es: seq<Event>, t: System)
    requires Quiet(s, first, n, k, {}) && |s.sent| + 1 < WORD_LIMIT
    ensures Leads(ss, es, s, t, [[], [a], []]) && Quiet(t, first, n + 1, k, {n, n + 1})
    ensures t.sent == s.sent + [a] && t.receiver.received == s.receiver.received + [a]
  {
    hide *;
    var ss1, es1, s1 := DeliverEmpty(s, first, n, k, {});
    assert {} + {n} == {n};
    var ss2, es2, s2 := Deliver(s1, first, n, k, {n}, [a]);
    var ss3, es3, s3 := DeliverEmpty(s2, first, n + 1, k, {n});
    assert {n} + {n + 1} == {n, n + 1};
    LeadsThen(ss1, es1, s, s1, [[]], ss2, es2, s2, [[a]]);
    LeadsThen(ss1 + ss2[1..], es1 + es2, s, s2, [[]] + [[a]], ss3, es3, s3, [[]]);
    assert [[]] + [[a]] + [[]] == [[], [a], []];
    ss, es, t := ss1 + ss2[1..] + ss3[1..], es1 + es2 + es3, s3;
  }

  lemma LeadsParts(ss: seq<System>, es: seq<Event>, s: System, t: System, ms: seq<seq<Byte>>)
    requires Leads(ss, es, s, t, ms)
    ensures Run(ss, es) && |ss| == |es| + 1 && ss[0] == s && ss[|es|] == t && Messages(es) == ms
  {
  }

  lemma InvIsQuiet(s: System, first: Word)
    requires Inv(s, first) && s.sender.state == Established
    ensures Quiet(s, first, |s.sent|, s.sender.acknowledgement, {}) && s.receiver.received == s.sent
  {
    T.ReadyState(s, first);
    hide IsCopy, IsAnswer, CopyAt, Plus;
  }
}
