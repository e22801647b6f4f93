/** A TCP socket in its data phase, against what it does on values. */
module Tcp {
  import opened Words
  import opened TcpSpec

  const MAX_MESSAGE: nat := 1400
  const MESSAGE_TOO_LONG: int := -13

  // The socket while it waits: segments that come in are handled until it is acknowledged.
  function Waited(s: Socket, gs: seq<Segment>): (t: Socket)
    decreases |gs|
  {
    if s.state != WaitAck || |gs| == 0 then s else Waited(Input(s, gs[0]).0, gs[1..])
  }

  // The waiting periods from number `k` on, each after one more copy of the segment; the
  // result counts the copies.
  function Periods(s: Socket, incoming: seq<seq<Segment>>, k: nat): (r: (Socket, nat))
    requires k < MAX_COPIES == |incoming|
    ensures 1 <= r.1 <= MAX_COPIES - k
    decreases MAX_COPIES - k
  {
    var t := Waited(s, incoming[k]);
    if t.state != WaitAck || k + 1 == MAX_COPIES then (t, 1)
    else var (u, n) := Periods(t, incoming, k + 1); (u, n + 1)
  }

  // The segment ends the wait for a number: it resets the connection, or acknowledges.
  predicate Decides(g: Segment, awaited: Word) {
    g.rst || g.ackNo == awaited
  }

  // Nothing in a waiting period ends the wait.
  ghost predicate Undecided(gs: seq<Segment>, awaited: Word) {
    forall j :: 0 <= j < |gs| ==> !Decides(gs[j], awaited)
  }

  // There are just as many copies as it takes to a period that ends the wait, and at most four;
  // the socket is connected again exactly when the first segment that decides is no reset.
  lemma {:induction false} CopiesStopWithAnswer(s: Socket, incoming: seq<seq<Segment>>, k: nat)
    requires k < MAX_COPIES == |incoming| && s.state == WaitAck
    ensures var (t, n) := Periods(s, incoming, k);
      && 1 <= n <= 4 - k && (forall i :: k <= i < k + n - 1 ==> Undecided(incoming[i], s.sequence))
      && (Undecided(incoming[k + n - 1], s.sequence) <==> t.state == WaitAck)
      && (t.state == WaitAck ==> n == 4 - k && t == s)
      && t.sequence == s.sequence && t.received == s.received
      && (t.state != WaitAck ==> DecidedBy(incoming[k + n - 1], s, t))
    decreases MAX_COPIES - k
  {
    WaitedForAnswer(s, incoming[k]);
    hide Undecided, DecidedBy, Waited;
    var t := Waited(s, incoming[k]);
    if t.state == WaitAck && k + 1 < MAX_COPIES {
      CopiesStopWithAnswer(t, incoming, k + 1);
    }
  }

  // The first segment that ends the wait closes the socket, or connects it again.
  ghost predicate DecidedBy(gs: seq<Segment>, s: Socket, t: Socket) {
    exists j :: 0 <= j < |gs| && Decides(gs[j], s.sequence) && Undecided(gs[..j], s.sequence)
      && t == if gs[j].rst then s.(state := Closed) else s.(state := Established, acknowledgement := gs[j].seqNo)
  }

  lemma {:induction false} WaitedForAnswer(s: Socket, gs: seq<Segment>)
    requires s.state == WaitAck
    ensures var t := Waited(s, gs);
      && t.sequence == s.sequence && t.received == s.received
      && (Undecided(gs, s.sequence) <==> t.state == WaitAck) && (t.state == WaitAck ==> t == s)
      && (t.state != WaitAck ==> DecidedBy(gs, s, t))
    decreases |gs|
  {
    if |gs| > 0 {
      var u, t := Input(s, gs[0]).0, Waited(s, gs);
      if u.state == WaitAck {
        WaitedForAnswer(s, gs[1..]);
        UndecidedFirst(gs, s.sequence);
        if t.state != WaitAck {
          DecidedLater(gs, s, t);
        }
      } else {
        assert Waited(u, gs[1..]) == u;
        assert t == u && Decides(gs[0], s.sequence) && Undecided(gs[..0], s.sequence);
      }
    }
  }

  lemma UndecidedFirst(gs: seq<Segment>, awaited: Word)
    requires |gs| > 0
    ensures Undecided(gs, awaited) <==> !Decides(gs[0], awaited) && Undecided(gs[1..], awaited)
  {
    hide Decides;
    if Undecided(gs[1..], awaited) {
      forall j | 0 < j < |gs|
        ensures !Decides(gs[j], awaited)
      {
        assert gs[j] == gs[1..][j - 1];
      }
    }
  }

  lemma DecidedLater(gs: seq<Segment>, s: Socket, t: Socket)
    requires |gs| > 0 && !Decides(gs[0], s.sequence) && DecidedBy(gs[1..], s, t)
    ensures DecidedBy(gs, s, t)
  {
    hide Decides;
    var j :| 0 <= j < |gs[1..]| && Decides(gs[1..][j], s.sequence) && Undecided(gs[1..][..j], s.sequence)
      && t == if gs[1..][j].rst then s.(state := Closed)
              else s.(state := Established, acknowledgement := gs[1..][j].seqNo);
    assert gs[1..][j] == gs[j + 1] && gs[..j + 1][1..] == gs[1..][..j];
    UndecidedFirst(gs[..j + 1], s.sequence);
  }

  class Connection {
    var state: State
    var sequence: Word
    var acknowledgement: Word
    var received: seq<Byte>       // handed over to the socket buffer
    var outbox: seq<Segment>      // handed over to the network

    ghost function Model(): Socket
      reads this
    {
      Socket(state, sequence, acknowledgement, received)
    }

    constructor (first: Word, expected: Word)
      ensures Model() == Socket(Established, first, expected, []) && outbox == []
    {
      state, sequence, acknowledgement, received, outbox := Established, first, expected, [], [];
    }

    method Transmit(g: Segment)
      modifies `outbox
      ensures outbox == old(outbox) + [g]
    {
      outbox := outbox + [g];
    }

    method SendAck(g: Segment, length: nat)
      modifies `sequence, `acknowledgement, `outbox
      ensures sequence == g.ackNo && acknowledgement == Plus(g.seqNo, length)
      ensures outbox == old(outbox) + [Segment(g.ackNo, Plus(g.seqNo, length), [], false)]
    {
      var answer := Segment(g.ackNo, ToWord(g.seqNo + length), [], false);
      sequence := g.ackNo;
      acknowledgement := ToWord(g.seqNo + length);
      Transmit(answer);
    }

    method RecvAck(g: Segment)
      modifies `state, `acknowledgement
      ensures acknowledgement == (if old(sequence) == g.ackNo then g.seqNo else old(acknowledgement))
      ensures state == (if old(sequence) == g.ackNo then Established else old(state))
    {
      if sequence == g.ackNo {
        acknowledgement := g.seqNo;
        state := Established;
      }
    }

    // An incoming segment; -1 if it is dropped for being out of order or unexpected.
    method StateMachine(g: Segment) returns (result: int)
      modifies this
      ensures Model() == Input(old(Model()), g).0 && outbox == old(outbox) + Input(old(Model()), g).1
      ensures g.rst && old(state) != Closed ==>
        state == Closed && unchanged(`sequence, `acknowledgement, `received, `outbox)
      ensures old(state) == WaitAck && !g.rst ==> (
        && unchanged(`sequence, `received, `outbox)
        && if g.ackNo == old(sequence) then state == Established && acknowledgement == g.seqNo
           else unchanged(`state, `acknowledgement))
      ensures old(state) == Established && !g.rst && g.seqNo == old(acknowledgement) ==> (
        var next := (g.seqNo + |g.data|) % 0x1_0000_0000;
        && unchanged(`state) && received == old(received) + g.data && sequence == g.ackNo && acknowledgement == next
        && outbox == old(outbox) + [Segment(g.ackNo, next, [], false)])
      ensures result == -1 ==> unchanged(this)
      ensures result == -1 <==> old(state) == Closed || (old(state) == Established && !g.rst && old(acknowledgement) != g.seqNo)
    {
      if state == WaitAck {
        if g.rst {
          state := Closed;
          return 0;
        }
        if sequence > g.ackNo {
          return 0;
        }
        RecvAck(g);
        return 0;
      } else if state == Established {
        if g.rst {
          state := Closed;
          return 0;
        }
        if acknowledgement != g.seqNo {
          return -1;
        }
        SendAck(g, |g.data|);
        received := received + g.data;
        return 0;
      }
      result := -1;
    }

    // Handle what comes in while the sender waits, until it is not waiting any more.
    method Wait(gs: seq<Segment>)
      modifies this
      ensures Model() == Waited(old(Model()), gs) && outbox == old(outbox)
    {
      var i := 0;
      while i < |gs| && state == WaitAck
        invariant 0 <= i <= |gs| && Waited(Model(), gs[i..]) == Waited(old(Model()), gs) && outbox == old(outbox)
        decreases |gs| - i
      {
        var _ := StateMachine(gs[i]);
        i := i + 1;
      }
    }

    // Send a segment and wait for its acknowledgement, up to four times. `incoming` is what
    // comes in during each waiting period.
    method SendSegment(data: seq<Byte>, incoming: seq<seq<Segment>>) returns (result: int)
      requires state == WaitAck && |incoming| == MAX_COPIES
      modifies this
      ensures var s := old(Model()).(sequence := Plus(old(sequence), |data|));
        var r := Periods(s, incoming, 0);
        && Model() == r.0
        && outbox == old(outbox) + Repeat(Segment(old(sequence), old(acknowledgement), data, false), r.1)
        && (result == 0 <==> state != WaitAck) && (result != 0 ==> result == -1 && r.1 == 4)
    {
      var g := Segment(sequence, acknowledgement, data, false);
      sequence := ToWord(sequence + |data|);
      ghost var s, k := Model(), 0;
      var retries := 0;
      ghost var before := outbox;
      while true
        invariant 0 <= retries < MAX_COPIES && state == WaitAck && outbox == before + Repeat(g, retries)
        invariant Periods(s, incoming, 0)
               == (Periods(Model(), incoming, retries).0, Periods(Model(), incoming, retries).1 + retries)
        decreases MAX_COPIES - retries
      {
        hide Waited;
        Transmit(g);
        assert outbox == before + Repeat(g, retries + 1);
        Wait(incoming[retries]);
        if state != WaitAck { return 0; }
        retries := retries + 1;
        if retries > 3 { break; }
      }
      result := -1;
    }

    // Send a message on an established connection. The number of bytes is returned also when
    // no acknowledgement came.
    method KernelSend(message: seq<Byte>, incoming: seq<seq<Segment>>) returns (result: int)
      requires state == Established && |incoming| == MAX_COPIES
      modifies this
      ensures |message| > 1400 ==> result == -13 && Model() == old(Model()) && outbox == old(outbox)
      ensures |message| <= MAX_MESSAGE ==> (
        var (s, g) := Sending(old(Model()), message);
        var r := Periods(s, incoming, 0);
        result == |message| && Model() == r.0 && outbox == old(outbox) + Repeat(g, r.1))
      ensures |message| <= 1400 ==> (
        var g := Segment(old(sequence), old(acknowledgement), message, false);
        && sequence == (old(sequence) + |message|) % 0x1_0000_0000 && received == old(received)
        && exists n :: 1 <= n <= 4 && outbox == old(outbox) + Repeat(g, n)
             && (forall i :: 0 <= i < n - 1 ==> Undecided(incoming[i], sequence))
             && (if Undecided(incoming[n - 1], sequence) then n == 4 && state == WaitAck && unchanged(`acknowledgement)
                 else DecidedBy(incoming[n - 1], old(Model()).(state := WaitAck, sequence := sequence), Model())))
    {
      if |message| > MAX_MESSAGE { return MESSAGE_TOO_LONG; }
      state := WaitAck;
      ghost var s := Model().(sequence := Plus(sequence, |message|));
      var _ := SendSegment(message, incoming);
      CopiesStopWithAnswer(s, incoming, 0);
      result := |message|;
    }
  }
}
