/** Safety of the data phase over every run in which no message is empty. */
module TcpTheorems {
  import opened Words
  import opened TcpSpec

  lemma StartsSafe(s: System, first: Word)
    requires Start(s, first)
    ensures Inv(s, first)
  {
    WordItself(first);
    assert InvAt(s, first, 0);
  }

  // A copy stays a copy when the outstanding message was taken and a new one follows.
  lemma CopyStays(g: Segment, first: Word, sent: seq<Byte>, base: nat, more: seq<Byte>)
    requires IsCopy(g, first, sent, base)
    ensures IsCopy(g, first, sent + more, |sent|)
  {
    var q: nat :| CopyAt(g, first, sent, base, q);
    assert (sent + more)[q..q + |g.data|] == sent[q..q + |g.data|];
    assert CopyAt(g, first, sent + more, |sent|, q);
  }

  lemma SendSafe(s: System, first: Word, base: nat, data: seq<Byte>)
    requires InvAt(s, first, base) && Enabled(s, Send(data)) && |data| > 0
    ensures InvAt(Next(s, Send(data)), first, |s.sent|)
  {
    var s' := Next(s, Send(data));
    var g := s'.last;
    PlusPlus(first, |s.sent|, |data|);
    hide ToWord, Plus;
    assert s'.sent[|s.sent|..|s.sent| + |data|] == data;
    assert CopyAt(g, first, s'.sent, |s.sent|, |s.sent|);
    forall h | h in s'.toReceiver
      ensures IsCopy(h, first, s'.sent, |s.sent|)
    {
      if h != g {
        CopyStays(h, first, s.sent, base, data);
      }
    }
    assert s'.receiver.received == s'.sent[..|s.receiver.received|];
  }

  // A segment the receiver takes is the outstanding one.
  lemma TakenIsOutstanding(s: System, first: Word, base: nat, g: Segment)
    requires InvAt(s, first, base) && g in s.toReceiver && s.receiver.acknowledgement == g.seqNo
    ensures !g.rst && |s.receiver.received| == base < |s.sent| && s.receiver.received + g.data == s.sent
    ensures Plus(g.seqNo, |g.data|) == Plus(first, |s.sent|)
  {
    var q: nat :| CopyAt(g, first, s.sent, base, q);
    hide IsCopy, IsAnswer;
    PlusIsInjective(first, |s.receiver.received|, q);
    PlusPlus(first, q, |g.data|);
    hide Plus;
    assert q == base && q + |g.data| == |s.sent|;
  }

  lemma ArriveSafe(s: System, first: Word, base: nat, g: Segment)
    requires InvAt(s, first, base) && Enabled(s, Arrive(g))
    ensures InvAt(Next(s, Arrive(g)), first, base)
  {
    hide Plus, CopyAt;
    NoReset(s, first, base, g);
    if s.receiver.acknowledgement == g.seqNo {
      TakenIsOutstanding(s, first, base, g);
      hide IsCopy;
      var s' := Next(s, Arrive(g));
      assert s'.toSender == multiset{Segment(g.ackNo, Plus(g.seqNo, |g.data|), [], false)};
      assert s'.receiver.received == s.sent && s.sent[..|s.sent|] == s.sent;
    }
  }

  lemma NoReset(s: System, first: Word, base: nat, g: Segment)
    requires InvAt(s, first, base) && g in s.toReceiver
    ensures !g.rst
  {
    hide Plus;
    assert IsCopy(g, first, s.sent, base);
  }

  lemma AnswerSafe(s: System, first: Word, base: nat, g: Segment)
    requires InvAt(s, first, base) && Enabled(s, Answer(g))
    ensures InvAt(Next(s, Answer(g)), first, base)
    ensures s.sender.state == WaitAck && Next(s, Answer(g)).sender.state == Established && s.receiver.received == s.sent
    ensures s.accepted == s.sends
  {
    hide ToWord, Plus;
    assert IsAnswer(g, first, s.sent);
    OneElement(s.toSender, g);
  }

  lemma OneElement(m: multiset<Segment>, g: Segment)
    requires |m| <= 1 && g in m
    ensures m - multiset{g} == multiset{}
  {
    assert |m - multiset{g}| == |m| - 1;
  }

  // Every step of a run in which no message is empty.
  lemma StepSafe(s: System, e: Event, s': System, first: Word)
    requires Inv(s, first) && Step(s, e, s') && (e.Send? ==> |e.data| > 0)
    ensures Inv(s', first)
    ensures s.sender.state == WaitAck && s'.sender.state == Established ==>
      s.receiver.received == s.sent && s.accepted == s.sends
  {
    hide InvAt, Plus, Input;
    var base: nat :| InvAt(s, first, base);
    match e
    case Send(data) => SendSafe(s, first, base, data);
    case Resend => ResendSafe(s, first, base);
    case Arrive(g) => ArriveSafe(s, first, base, g);
    case Answer(g) => AnswerSafe(s, first, base, g);
    case _ => LossSafe(s, first, base, e);
  }

  lemma ResendSafe(s: System, first: Word, base: nat)
    requires InvAt(s, first, base) && Enabled(s, Resend)
    ensures InvAt(Next(s, Resend), first, base)
  {
    hide Plus, CopyAt, IsAnswer;
    assert IsCopy(s.last, first, s.sent, base);
  }

  lemma LossSafe(s: System, first: Word, base: nat, e: Event)
    requires InvAt(s, first, base) && Enabled(s, e) && (e.LoseData? || e.LoseAnswer?)
    ensures InvAt(Next(s, e), first, base) && Next(s, e).sender == s.sender
  {
    hide Plus, CopyAt, IsCopy, IsAnswer;
  }

  predicate NoEmptyMessage(es: seq<Event>, n: nat)
    requires n <= |es|
  {
    forall i :: 0 <= i < n && es[i].Send? ==> |es[i].data| > 0
  }

  lemma {:induction false} RunSafe(ss: seq<System>, es: seq<Event>, first: Word, n: nat)
    requires Run(ss, es) && Start(ss[0], first) && n <= |es| && NoEmptyMessage(es, n)
    ensures Inv(ss[n], first)
  {
    hide Inv, Step;
    if n == 0 {
      StartsSafe(ss[0], first);
    } else {
      RunSafe(ss, es, first, n - 1);
      assert Step(ss[n - 1], es[n - 1], ss[n - 1 + 1]);
      StepSafe(ss[n - 1], es[n - 1], ss[n], first);
    }
  }

  // The bytes handed over at the receiver are always a prefix of the bytes given to the
  // sender, and the sender goes on only after the receiver took the outstanding message.
  lemma StopAndWait(ss: seq<System>, es: seq<Event>, first: Word, n: nat)
    requires Run(ss, es) && Start(ss[0], first) && n <= |es| && NoEmptyMessage(es, |es|)
    ensures ss[n].receiver.received <= ss[n].sent
    ensures n < |es| && ss[n].sender.state == WaitAck && ss[n + 1].sender.state == Established ==>
      ss[n].receiver.received == ss[n].sent && ss[n].accepted == ss[n].sends
  {
    RunSafe(ss, es, first, n);
    hide ToWord, Plus, IsCopy, IsAnswer, CopyAt;
    if n < |es| {
      assert Step(ss[n], es[n], ss[n + 1]);
      StepSafe(ss[n], es[n], ss[n + 1], first);
    }
  }

  // ----- the end of a wait -----

  // An answer is under way, or a segment that the receiver takes, or the message was not
  // taken and is repeated.
  ghost predicate CanEnd(s: System) {
    || s.toSender != multiset{}
    || (exists g :: g in s.toReceiver && g.seqNo == s.receiver.acknowledgement)
    || (s.receiver.received != s.sent && 0 < s.copies < MAX_COPIES)
  }

  // Otherwise the sender waits, whatever the network does.
  lemma WaitGoesOn(s: System, e: Event, s': System, first: Word)
    requires Inv(s, first) && s.sender.state == WaitAck && !CanEnd(s) && Step(s, e, s')
    ensures Inv(s', first) && s'.sender.state == WaitAck && !CanEnd(s')
  {
    StepSafe(s, e, s', first);
    hide Inv, Plus;
    if e.Resend? {
      LastIsTaken(s, first);
    }
  }

  // When all bytes were taken, the receiver does not expect the outstanding segment.
  lemma LastIsTaken(s: System, first: Word)
    requires Inv(s, first) && s.sender.state == WaitAck && s.receiver.received == s.sent
    ensures s.last.seqNo != s.receiver.acknowledgement
  {
    var base: nat :| InvAt(s, first, base);
    hide IsCopy, IsAnswer;
    if s.last.seqNo == s.receiver.acknowledgement {
      PlusIsInjective(first, base, |s.sent|);
    }
  }

  lemma {:induction false} WaitsForever(ss: seq<System>, es: seq<Event>, first: Word, n: nat)
    requires Run(ss, es) && n <= |es| && Inv(ss[0], first) && ss[0].sender.state == WaitAck && !CanEnd(ss[0])
    ensures Inv(ss[n], first) && ss[n].sender.state == WaitAck && !CanEnd(ss[n])
  {
    hide Inv, CanEnd, Step;
    if n > 0 {
      WaitsForever(ss, es, first, n - 1);
      assert Step(ss[n - 1], es[n - 1], ss[n - 1 + 1]);
      WaitGoesOn(ss[n - 1], es[n - 1], ss[n], first);
    }
  }

  // A waiting sender can go on in some run exactly when one of the three holds. A lost answer
  // leaves none of them.
  lemma WaitEndsExactly(s: System, first: Word)
    requires Inv(s, first) && s.sender.state == WaitAck
    ensures CanEnd(s) <==>
      exists ss: seq<System>, es: seq<Event> :: Run(ss, es) && ss[0] == s && ss[|es|].sender.state == Established
  {
    hide Inv, CanEnd, Step;
    if CanEnd(s) {
      var ss, es := WaitEnds(s, first);
    } else {
      forall ss: seq<System>, es: seq<Event> | Run(ss, es) && ss[0] == s
        ensures ss[|es|].sender.state == WaitAck
      {
        WaitsForever(ss, es, first, |es|);
      }
    }
  }

  lemma WaitEnds(s: System, first: Word) returns (ss: seq<System>, es: seq<Event>)
    requires Inv(s, first) && s.sender.state == WaitAck && CanEnd(s)
    ensures Run(ss, es) && ss[0] == s && ss[|es|].sender.state == Established
  {
    var base: nat :| InvAt(s, first, base);
    hide Inv, InvAt, Plus;
    if s.toSender != multiset{} {
      ss, es := AnsweredNow(s, first, base);
    } else if exists g :: g in s.toReceiver && g.seqNo == s.receiver.acknowledgement {
      var g :| g in s.toReceiver && g.seqNo == s.receiver.acknowledgement;
      ss, es := TakenThenAnswered(s, first, base, g);
    } else {
      ResendSafe(s, first, base);
      var s1 := Next(s, Resend);
      LastIsExpected(s, first, base);
      var ss1, es1 := TakenThenAnswered(s1, first, base, s.last);
      ss, es := Before(s, Resend, ss1, es1);
    }
  }

  lemma LastIsExpected(s: System, first: Word, base: nat)
    requires InvAt(s, first, base) && s.sender.state == WaitAck && s.receiver.received != s.sent
    ensures s.last.seqNo == s.receiver.acknowledgement
  {
    hide IsCopy, IsAnswer, Plus;
    assert s.sent[..|s.sent|] == s.sent;
  }

  lemma AnsweredNow(s: System, first: Word, base: nat) returns (ss: seq<System>, es: seq<Event>)
    requires InvAt(s, first, base) && s.sender.state == WaitAck && s.toSender != multiset{}
    ensures Run(ss, es) && ss[0] == s && ss[|es|].sender.state == Established
  {
    var g :| g in s.toSender;
    AnswerSafe(s, first, base, g);
    hide InvAt, Next;
    ss, es := [s, Next(s, Answer(g))], [Answer(g)];
  }

  lemma TakenThenAnswered(s: System, first: Word, base: nat, g: Segment) returns (ss: seq<System>, es: seq<Event>)
    requires InvAt(s, first, base) && s.sender.state == WaitAck
    requires g in s.toReceiver && g.seqNo == s.receiver.acknowledgement
    ensures Run(ss, es) && ss[0] == s && ss[|es|].sender.state == Established
  {
    ArriveSafe(s, first, base, g);
    AnswerFollows(s, first, base, g);
    hide InvAt, Next;
    var s1 := Next(s, Arrive(g));
    var ss1, es1 := AnsweredNow(s1, first, base);
    ss, es := Before(s, Arrive(g), ss1, es1);
  }

  lemma AnswerFollows(s: System, first: Word, base: nat, g: Segment)
    requires InvAt(s, first, base) && g in s.toReceiver && g.seqNo == s.receiver.acknowledgement
    ensures var s1 := Next(s, Arrive(g)); s1.toSender != multiset{} && s1.sender == s.sender
  {
    hide Plus, CopyAt, IsAnswer;
    NoReset(s, first, base, g);
    assert Segment(g.ackNo, Plus(g.seqNo, |g.data|), [], false) in Next(s, Arrive(g)).toSender;
  }

  // A step before a run.
  lemma Before(s: System, e: Event, ss: seq<System>, es: seq<Event>) returns (ss': seq<System>, es': seq<Event>)
    requires Run(ss, es) && Step(s, e, ss[0])
    ensures Run(ss', es') && ss'[0] == s && ss'[|es'|] == ss[|es|]
  {
    hide Step;
    ss', es' := [s] + ss, [e] + es;
    forall i | 0 <= i < |es'|
      ensures Step(ss'[i], es'[i], ss'[i + 1])
    {
      if i > 0 {
        assert Step(ss[i - 1], es[i - 1], ss[i - 1 + 1]);
      }
    }
  }

  // ----- empty messages -----

  // An empty message does not move the sequence numbers, so the receiver takes its repetition
  // as well. From every state in which the sender is ready, sending one leads to two answers
  // under way and more segments taken than sent.
  lemma EmptyMessageIsTakenTwice(s: System, first: Word) returns (ss: seq<System>, es: seq<Event>)
    requires Inv(s, first) && s.sender.state == Established
    ensures |es| == 4 && Run(ss, es) && ss[0] == s && es[0] == Send([])
    ensures var t := ss[4]; t.accepted == t.sends + 1 && |t.toSender| == 2
  {
    hide *;
    ReadyState(s, first);
    var s1, s2, g := EmptyIsSentTwice(s, first, |s.sent|);
    var s3 := EmptyIsTaken(s2, g, first, |s.sent|);
    assert g in s3.toReceiver;
    var s4 := EmptyIsTaken(s3, g, first, |s.sent|);
    es := [Send([]), Resend, Arrive(g), Arrive(g)];
    ss := [s, s1, s2, s3, s4];
    FourSteps(ss, es);
  }

  lemma FourSteps(ss: seq<System>, es: seq<Event>)
    requires |es| == 4 && |ss| == 5
    requires Step(ss[0], es[0], ss[1]) && Step(ss[1], es[1], ss[2]) && Step(ss[2], es[2], ss[3])
    requires Step(ss[3], es[3], ss[4])
    ensures Run(ss, es)
  {
    hide Step;
  }

  lemma EmptyIsSentTwice(s: System, first: Word, n: nat) returns (s1: System, s2: System, g: Segment)
    requires s.sender.state == Established && s.sender.sequence == Plus(first, n) && |s.sent| < WORD_LIMIT
    ensures Step(s, Send([]), s1) && Step(s1, Resend, s2)
    ensures g.data == [] && !g.rst && g.seqNo == Plus(first, n) && s2.toReceiver[g] >= 2
    ensures s2.receiver == s.receiver && s2.toSender == s.toSender && s2.accepted == s.accepted
    ensures s2.sends == s.sends + 1
  {
    hide Plus;
    g := Segment(s.sender.sequence, s.sender.acknowledgement, [], false);
    s1 := Next(s, Send([]));
    s2 := Next(s1, Resend);
  }

  lemma ReadyState(s: System, first: Word)
    requires Inv(s, first) && s.sender.state == Established
    ensures s.receiver.state == Established && s.sender.sequence == s.receiver.acknowledgement == Plus(first, |s.sent|)
    ensures s.toSender == multiset{} && s.accepted == s.sends && |s.sent| < WORD_LIMIT
  {
    hide IsCopy, IsAnswer, CopyAt;
  }

  // A receiver takes an empty segment that has the number it expects, and expects it again.
  lemma EmptyIsTaken(s: System, g: Segment, first: Word, n: nat) returns (s': System)
    requires g in s.toReceiver && g.data == [] && !g.rst && g.seqNo == Plus(first, n)
    requires s.receiver.state == Established && s.receiver.acknowledgement == g.seqNo
    ensures Step(s, Arrive(g), s') && s'.toReceiver[g] == s.toReceiver[g] - 1
    ensures s'.receiver.state == Established && s'.receiver.acknowledgement == g.seqNo
    ensures |s'.toSender| == |s.toSender| + 1 && s'.accepted == s.accepted + 1 && s'.sends == s.sends
  {
    PlusNothing(first, n);
    s' := Next(s, Arrive(g));
  }

  lemma PlusNothing(first: Word, n: nat)
    ensures Plus(Plus(first, n), 0) == Plus(first, n)
  {
  }
}
