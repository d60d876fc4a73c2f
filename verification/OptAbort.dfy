/** When the receiver of the optimised mode can abort, or be left with a packet it will never acknowledge, and
    with it the exact condition under which a transfer can always complete. */
module OptAbort {
  import opened Words
  import opened Transfer
  import opened Protocol
  import opened Receiver
  import opened Sender
  import opened OptProtocol
  import opened OptProgress

  // ----- The receiver's abort ---------------------------------------------------------------------

  /** Whatever is ahead of a packet on the wire, or already at the receiver, was sent less than one sender
      window above it. */
  ghost predicate Ordered(c: Config, s: State) {
    && (forall i, j :: 0 <= i < j < |s.data| ==> s.data[i].seqNum < s.data[j].seqNum + c.ws)
    && (forall j :: 0 <= j < |s.data| ==> s.rcv.nxt <= s.data[j].seqNum + c.ws)
    && (forall j, h :: 0 <= j < |s.data| && h in s.rcv.held ==> h < s.data[j].seqNum + c.ws)
  }

  /** Packets of the window, or the one after it, join the end of the channel. */
  lemma OrderedJoin(c: Config, s: State, more: seq<Packet>, t: State)
    requires ConfigOk(c) && Inv(c, s) && Ordered(c, s)
    requires forall i :: 0 <= i < |more| ==> |s.snd.log| <= more[i].seqNum + c.ws
    requires forall i, j :: 0 <= i < j < |more| ==> more[i].seqNum < more[j].seqNum + c.ws
    requires t.data == s.data + more && t.rcv == s.rcv
    ensures Ordered(c, t)
  {
  }

  lemma OrderedSend(c: Config, s: State, a: Action)
    requires ConfigOk(c) && Inv(c, s) && Ordered(c, s) && Enabled(c, s, a) && (a.SendMore? || a.PollTimeout?)
    ensures Ordered(c, Next(c, s, a))
  {
    if a.SendMore? {
      OrderedJoin(c, s, FillOpt(s.snd, c.msg, c.ws).1, Next(c, s, a));
    } else {
      UnackedFrom(s.snd.log, s.snd.acked, s.snd.base);
      OrderedJoin(c, s, ResendOpt(s.snd), Next(c, s, a));
    }
  }

  /** Writing out: the last packet written was the one expected or one held. */
  lemma FlushBound(c: Config, w: Window, pkt: Packet, low: nat)
    requires ConfigOk(c) && Settled(w, c.wr) && pkt.seqNum == w.nxt < low + c.ws
    requires forall h :: h in w.held ==> h < low + c.ws
    ensures var f := Flush(Insert(w, pkt), c.wr);
      f.nxt <= low + c.ws && forall h :: h in f.held ==> h < low + c.ws
  {
    var v := Insert(w, pkt);
    FlushDelivers(v, c.wr);
    assert Flush(v, c.wr).nxt - 1 in v.held;
  }

  /** A packet of an ordered channel is not too old, and whatever the receiver makes of it, what it has then
      is still below one sender window above what follows on the wire. */
  lemma DeliveredBound(c: Config, w: Window, pkt: Packet, low: nat)
    requires ConfigOk(c) && Settled(w, c.wr) && pkt.seqNum < low + c.ws
    requires w.nxt <= low + c.ws && forall h :: h in w.held ==> h < low + c.ws
    ensures var r := ReceiveOpt(w, c.wr, pkt);
      r.Reply? ==> r.window.nxt <= low + c.ws && forall h :: h in r.window.held ==> h < low + c.ws
  {
    if pkt.seqNum == w.nxt {
      FlushBound(c, w, pkt, low);
    }
  }

  lemma OrderedDeliver(c: Config, s: State)
    requires ConfigOk(c) && c.ws <= c.wr && Inv(c, s) && Ordered(c, s) && Enabled(c, s, Deliver(0))
    ensures Ordered(c, Next(c, s, Deliver(0))) && Next(c, s, Deliver(0)).status == s.status
  {
    var r, t := ReceiveOpt(s.rcv, c.wr, s.data[0]), Next(c, s, Deliver(0));
    assert r.Reply? && t.rcv == r.window;
    forall j | 0 <= j < |t.data|
      ensures t.rcv.nxt <= t.data[j].seqNum + c.ws
      ensures forall h :: h in t.rcv.held ==> h < t.data[j].seqNum + c.ws
    {
      assert t.data[j] == s.data[j + 1];
      DeliveredBound(c, s.rcv, s.data[0], s.data[j + 1].seqNum);
    }
  }

  lemma OrderedLoss(c: Config, s: State, i: nat)
    requires Ordered(c, s) && Enabled(c, s, LoseData(i))
    ensures Ordered(c, Next(c, s, LoseData(i)))
  {
  }

  lemma OrderedStep(c: Config, s: State, a: Action)
    requires ConfigOk(c) && c.ws <= c.wr && Inv(c, s) && Ordered(c, s) && Enabled(c, s, a)
    requires !a.CopyData? && (a.Deliver? ==> a.i == 0)
    ensures Ordered(c, Next(c, s, a))
    ensures s.status != Aborted ==> Next(c, s, a).status != Aborted
  {
    match a
    case Deliver(_) => OrderedDeliver(c, s);
    case SendMore | PollTimeout => OrderedSend(c, s, a);
    case LoseData(i) => OrderedLoss(c, s, i);
    case _ =>
  }

  lemma {:induction false} OrderedRun(c: Config, s: State, acts: seq<Action>)
    requires ConfigOk(c) && c.ws <= c.wr && Inv(c, s) && Ordered(c, s)
    requires Runs(c, s, acts) && InOrder(acts) && s.status != Aborted
    ensures Exec(c, s, acts).status != Aborted
    decreases |acts|
  {
    if acts != [] {
      StepKeeps(c, s, acts[0]);
      OrderedStep(c, s, acts[0]);
      OrderedRun(c, Next(c, s, acts[0]), acts[1..]);
    }
  }

  /** Over a data channel that keeps order, and with a receiver window at least the sender's, the receiver
      never takes its "illegal pkt seq num" exit. */
  lemma NoAbortInOrder(c: Config, acts: seq<Action>)
    requires ConfigOk(c) && c.ws <= c.wr && Runs(c, INIT, acts) && InOrder(acts)
    ensures Exec(c, INIT, acts).status != Aborted
  {
    OrderedRun(c, INIT, acts);
  }

  /** k packets sent, nothing delivered yet. */
  ghost predicate OnlySent(s: State, k: nat) {
    && s.data == s.snd.log && |s.snd.log| == k && s.snd.base == 0 == s.snd.sent && s.snd.acked == {}
    && s.rcv == INIT.rcv && s.phase == AtTest && s.status == Receiving && !s.expired
  }

  lemma SendOneMore(c: Config, s: State, k: nat)
    requires ConfigOk(c) && c.msg != [] && Inv(c, s) && OnlySent(s, k) && k < c.ws
    ensures Runs(c, s, [SendMore, PollNothing])
    ensures OnlySent(Exec(c, s, [SendMore, PollNothing]), k + 1)
  {
    RunsTwo(c, s, SendMore, PollNothing);
  }

  lemma {:induction false} SendOnly(c: Config, k: nat) returns (acts: seq<Action>)
    requires ConfigOk(c) && c.msg != [] && k <= c.ws
    ensures Runs(c, INIT, acts) && Faultless(acts) && OnlySent(Exec(c, INIT, acts), k)
    decreases k
  {
    if k == 0 {
      acts := [];
    } else {
      var past := SendOnly(c, k - 1);
      RunKeeps(c, INIT, past);
      SendOneMore(c, Exec(c, INIT, past), k - 1);
      RunsAppend(c, INIT, past, [SendMore, PollNothing]);
      acts := past + [SendMore, PollNothing];
    }
  }

  /** The oldest packet on the wire is the one expected, and nothing is cached. */
  lemma DeliverNext(c: Config, s: State)
    requires ConfigOk(c) && s.status == Receiving && s.rcv.held == map[] && s.data != []
    requires s.data[0].seqNum == s.rcv.nxt
    ensures var t := Next(c, s, Deliver(0));
      t.status == Receiving && t.rcv.held == map[] && t.rcv.nxt == s.rcv.nxt + 1 && t.data == s.data[1..]
  {
    ExpectedIsWritten(s.rcv, c.wr, s.data[0]);
  }

  /** The next k packets on the wire are nxt, nxt + 1, ... */
  ghost predicate Expected(data: seq<Packet>, nxt: nat, k: nat)
    decreases k
  {
    k == 0 || (data != [] && data[0].seqNum == nxt && Expected(data[1..], nxt + 1, k - 1))
  }

  lemma {:induction false} ExpectedFromZero(data: seq<Packet>, nxt: nat, k: nat)
    requires k <= |data| && forall j :: 0 <= j < k ==> data[j].seqNum == nxt + j
    ensures Expected(data, nxt, k)
    decreases k
  {
    if k > 0 {
      forall j | 0 <= j < k - 1
        ensures data[1..][j].seqNum == nxt + 1 + j
      {
        assert data[1..][j] == data[j + 1];
      }
      ExpectedFromZero(data[1..], nxt + 1, k - 1);
    }
  }

  ghost function Drop(data: seq<Packet>, k: nat): (rest: seq<Packet>)
    requires k <= |data|
    ensures |rest| == |data| - k
    ensures forall j :: 0 <= j < |rest| ==> rest[j] == data[j + k]
    decreases k
  {
    if k == 0 then data else Drop(data[1..], k - 1)
  }

  lemma DeliverFirst(c: Config, s: State, rest: seq<Action>)
    requires Enabled(c, s, Deliver(0)) && Runs(c, Next(c, s, Deliver(0)), rest) && Faultless(rest)
    ensures Runs(c, s, [Deliver(0)] + rest) && Faultless([Deliver(0)] + rest)
    ensures Exec(c, s, [Deliver(0)] + rest) == Exec(c, Next(c, s, Deliver(0)), rest)
  {
    assert ([Deliver(0)] + rest)[1..] == rest;
  }

  /** Then each of them is written at once. */
  lemma {:induction false} DeliverRun(c: Config, s: State, k: nat) returns (acts: seq<Action>)
    requires ConfigOk(c) && s.status == Receiving && s.rcv.held == map[]
    requires k <= |s.data| && Expected(s.data, s.rcv.nxt, k)
    ensures Runs(c, s, acts) && Faultless(acts)
    ensures var t := Exec(c, s, acts);
      && t.status == Receiving && t.rcv.held == map[] && t.rcv.nxt == s.rcv.nxt + k && t.data == Drop(s.data, k)
      && t.snd == s.snd && t.phase == s.phase
    decreases k
  {
    if k == 0 {
      acts := [];
    } else {
      DeliverNext(c, s);
      var rest := DeliverRun(c, Next(c, s, Deliver(0)), k - 1);
      DeliverFirst(c, s, rest);
      acts := [Deliver(0)] + rest;
    }
  }

  /** k packets on the wire, and behind them all of them once more. */
  ghost predicate SentTwice(s: State, k: nat) {
    && |s.data| > k && (forall j :: 0 <= j < k ==> s.data[j].seqNum == j) && s.data[k].seqNum == 0
    && s.rcv == INIT.rcv && s.status == Receiving
  }

  lemma SendAndResend(c: Config, s: State, k: nat)
    requires ConfigOk(c) && c.msg != [] && 1 <= k <= c.ws && Inv(c, s) && OnlySent(s, k - 1)
    ensures Runs(c, s, [SendMore, PollTimeout])
    ensures SentTwice(Exec(c, s, [SendMore, PollTimeout]), k)
  {
    var s1 := Next(c, s, SendMore);
    StepKeeps(c, s, SendMore);
    BaseResent(c, s1);
    var t := Next(c, s1, PollTimeout);
    forall j | 0 <= j < k
      ensures t.data[j].seqNum == j
    {
      assert t.data[j] == s1.snd.log[j];
    }
    RunsTwo(c, s, SendMore, PollTimeout);
  }

  lemma SendTwice(c: Config, k: nat) returns (acts: seq<Action>)
    requires ConfigOk(c) && c.msg != [] && 1 <= k <= c.ws
    ensures Runs(c, INIT, acts) && Faultless(acts)
    ensures SentTwice(Exec(c, INIT, acts), k)
  {
    var first := SendOnly(c, k - 1);
    RunKeeps(c, INIT, first);
    SendAndResend(c, Exec(c, INIT, first), k);
    RunsAppend(c, INIT, first, [SendMore, PollTimeout]);
    acts := first + [SendMore, PollTimeout];
  }

  /** A sender window above the receiver's is enough for the abort, on a network without any fault: a packet resent
      too early arrives after the receiver has moved a whole window past it. */
  lemma AbortFaultless(c: Config) returns (acts: seq<Action>)
    requires ConfigOk(c) && c.msg != [] && c.wr < c.ws
    ensures Runs(c, INIT, acts) && Faultless(acts) && Exec(c, INIT, acts).status == Aborted
  {
    var k := c.wr + 1;
    var first := SendTwice(c, k);
    var s := Exec(c, INIT, first);
    ExpectedFromZero(s.data, 0, k);
    var second := DeliverRun(c, s, k);
    var t := Exec(c, s, second);
    assert t.data[0] == s.data[k];
    RunsOne(c, t, Deliver(0));
    RunsAppend(c, s, second, [Deliver(0)]);
    RunsAppend(c, INIT, first, second + [Deliver(0)]);
    acts := first + (second + [Deliver(0)]);
  }

  ghost predicate CanAbortInOrder(c: Config) {
    exists acts :: Runs(c, INIT, acts) && InOrder(acts) && Exec(c, INIT, acts).status == Aborted
  }

  ghost predicate CanAbortFaultless(c: Config) {
    exists acts :: Runs(c, INIT, acts) && Faultless(acts) && Exec(c, INIT, acts).status == Aborted
  }

  /** An empty message sends no packet at all. */
  lemma {:induction false} NothingToAbort(c: Config, s: State, acts: seq<Action>)
    requires c.msg == [] && Runs(c, s, acts) && s.data == [] && s.snd.log == [] && s.status != Aborted
    ensures Exec(c, s, acts).status != Aborted
    decreases |acts|
  {
    if acts != [] {
      NothingToAbort(c, Next(c, s, acts[0]), acts[1..]);
    }
  }

  /** Over a data channel that keeps order, whatever it loses and whatever happens to the ACKs, the receiver's
      "illegal pkt seq num" exit is reachable if and only if the sender's window is the larger one; and then
      it is reachable without any fault of the network. */
  lemma AbortExact(c: Config)
    requires ConfigOk(c)
    ensures CanAbortInOrder(c) <==> c.msg != [] && c.wr < c.ws
    ensures CanAbortFaultless(c) <==> c.msg != [] && c.wr < c.ws
  {
    if c.msg == [] {
      forall acts | Runs(c, INIT, acts)
        ensures Exec(c, INIT, acts).status != Aborted
      {
        NothingToAbort(c, INIT, acts);
      }
    } else if c.wr < c.ws {
      var acts := AbortFaultless(c);
      assert Runs(c, INIT, acts) && InOrder(acts);
    } else {
      forall acts | Runs(c, INIT, acts) && InOrder(acts)
        ensures Exec(c, INIT, acts).status != Aborted
      {
        NoAbortInOrder(c, acts);
      }
    }
  }

  // ----- When a transfer can always complete --------------------------------------------------------

  lemma {:induction false} LoseEveryAck(c: Config, s: State) returns (acts: seq<Action>)
    ensures Runs(c, s, acts) && LosesOnlyAcks(acts) && Exec(c, s, acts) == s.(acks := [])
    decreases |s.acks|
  {
    if s.acks == [] {
      acts := [];
    } else {
      var rest := LoseEveryAck(c, Next(c, s, LoseAck(0)));
      acts := [LoseAck(0)] + rest;
      assert acts[1..] == rest;
    }
  }

  /** One packet more than the receiver's window, all delivered, all their ACKs lost: packet 0 is out of reach. */
  lemma StrandedReachable(c: Config) returns (acts: seq<Action>)
    requires ConfigOk(c) && c.msg != [] && c.wr < c.ws
    ensures Runs(c, INIT, acts) && LosesOnlyAcks(acts)
    ensures var s := Exec(c, INIT, acts); Working(c, s) && Stranded(c, s)
  {
    var k := c.wr + 1;
    var first := SendOnly(c, k);
    RunKeeps(c, INIT, first);
    var s := Exec(c, INIT, first);
    ExpectedFromZero(s.data, 0, k);
    var second := DeliverRun(c, s, k);
    var third := LoseEveryAck(c, Exec(c, s, second));
    RunsAppend(c, s, second, third);
    RunsAppend(c, INIT, first, second + third);
    acts := first + (second + third);
    ChunkCountOk(c.msg, 0);
    assert StrandedAt(c, Exec(c, INIT, acts), 0);
  }

  /** Whatever has happened so far, some continuation completes the transfer. */
  ghost predicate CanAlwaysComplete(c: Config) {
    forall past :: Runs(c, INIT, past) && Working(c, Exec(c, INIT, past)) ==> CanComplete(c, Exec(c, INIT, past))
  }

  /** What a caller can check beforehand: a transfer can always complete if and only if the receiver's window is
      at least the sender's and the message fits one sender window, unless that window is 1. */
  lemma CompletionExact(c: Config)
    requires ConfigOk(c) && c.msg != []
    ensures CanAlwaysComplete(c) <==> c.ws <= c.wr && (c.ws == 1 || |c.msg| <= c.ws * PAYLOAD_SIZE)
  {
    if c.wr < c.ws {
      var past := StrandedReachable(c);
      CompletesUnlessLost(c, past);
    } else if c.ws >= 2 && |c.msg| > c.ws * PAYLOAD_SIZE {
      var past := DoomReachable(c);
      DoomedForever(c, Exec(c, INIT, past), []);
      CompletesUnlessLost(c, past);
    } else {
      DoomExact(c);
      forall past | Runs(c, INIT, past) && Working(c, Exec(c, INIT, past))
        ensures CanComplete(c, Exec(c, INIT, past))
      {
        RunKeeps(c, INIT, past);
        NeverStranded(c, Exec(c, INIT, past));
        CompletesUnlessLost(c, past);
      }
    }
  }
}
