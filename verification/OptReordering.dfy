/** The receiver's abort over a network that may also reorder and copy: how far ahead of an old packet the receiver
    can get. */
module OptReordering {
  import opened Channels
  import opened Words
  import opened Transfer
  import opened Protocol
  import opened Receiver
  import opened Sender
  import opened OptProtocol
  import opened OptProgress
  import opened OptAbort

  // ----- As many packets as the sender can be made to send ----------------------------------------

  /** The receiver has written all that was sent, and the ACKs still needed are on the way. */
  ghost predicate UpToDate(c: Config, s: State) {
    && Inv(c, s) && s.phase == AtTest && s.status == Receiving
    && s.rcv.nxt == |s.snd.log| && s.rcv.held == map[]
    && forall k :: s.snd.base <= k < |s.snd.log| && k !in s.snd.acked ==> k in s.acks
  }

  /** The window was always filled before its first packet was counted. */
  ghost predicate FilledFirst(c: Config, s: State) {
    && (forall k: nat :: k in s.snd.acked <==> k < s.snd.base) && s.snd.base <= |s.snd.log|
    && (s.snd.base == 0 || s.snd.base + c.ws <= |s.snd.log| + 1)
  }

  /** The sender can be made to send `goal` packets: it never finishes, or not before that. */
  ghost predicate Endless(c: Config, s: State, goal: nat) {
    Doomed(c, s) || (FilledFirst(c, s) && goal < ChunkCount(c.msg) + c.ws)
  }

  lemma NotDone(c: Config, s: State, goal: nat)
    requires ConfigOk(c) && c.msg != [] && Inv(c, s) && Endless(c, s, goal) && |s.snd.log| < goal
    ensures !Done(c, s)
  {
    if Doomed(c, s) {
      DoomedForever(c, s, []);
    } else {
      var n := |s.snd.log|;
      ChunkCountOk(c.msg, s.snd.base);
      ChunkCountOk(c.msg, n);
      CarriedShort(c.msg, s.snd.acked, n);
    }
  }

  /** One more packet, delivered at once; the timeout puts another copy of it on the wire, if it is of the window. */
  lemma PumpSend(c: Config, s: State) returns (acts: seq<Action>)
    requires ConfigOk(c) && UpToDate(c, s) && !Done(c, s) && |s.snd.log| < s.snd.base + c.ws
    ensures Runs(c, s, acts) && OnlyReorders(acts)
    ensures var t := Exec(c, s, acts);
      && UpToDate(c, t) && t.snd.base == s.snd.base && t.snd.acked == s.snd.acked
      && |t.snd.log| == |s.snd.log| + 1 && s.data <= t.data
      && (s.snd.base == |s.snd.log| ==> |t.data| > |s.data| && t.data[|s.data|].seqNum == s.snd.base)
  {
    var s1 := Next(c, s, SendMore);
    StepKeeps(c, s, SendMore);
    var s2 := DeliverSent(c, s, s1);
    ResendKeepsUpToDate(c, s2);
    acts := [SendMore, Deliver(|s.data|)] + [PollTimeout];
    RunsTwo(c, s, SendMore, Deliver(|s.data|));
    RunsOne(c, s2, PollTimeout);
    RunsAppend(c, s, [SendMore, Deliver(|s.data|)], [PollTimeout]);
  }

  lemma ResendKeepsUpToDate(c: Config, s: State)
    requires ConfigOk(c) && UpToDate(c, s.(phase := AtTest)) && Inv(c, s) && s.phase == AtPoll
    ensures var t := Next(c, s, PollTimeout);
      && UpToDate(c, t) && t.snd == s.snd && s.data <= t.data
      && (s.snd.base < |s.snd.log| ==> |t.data| > |s.data| && t.data[|s.data|].seqNum == s.snd.base)
  {
    StepKeeps(c, s, PollTimeout);
    if s.snd.base < |s.snd.log| {
      BaseResent(c, s);
    }
  }

  lemma DeliverSent(c: Config, s: State, s1: State) returns (s2: State)
    requires ConfigOk(c) && UpToDate(c, s) && Enabled(c, s, SendMore) && |s.snd.log| < s.snd.base + c.ws
    requires s1 == Next(c, s, SendMore) && Inv(c, s1)
    ensures Enabled(c, s1, Deliver(|s.data|)) && s2 == Next(c, s1, Deliver(|s.data|)) && Inv(c, s2)
    ensures s2.snd == s1.snd && s2.data == s.data && s2.phase == AtPoll && UpToDate(c, s2.(phase := AtTest))
  {
    var pkt := s1.data[|s.data|];
    assert s1.data == s.data + [pkt] && pkt.seqNum == s1.rcv.nxt;
    ExpectedIsWritten(s1.rcv, c.wr, pkt);
    StepKeeps(c, s1, Deliver(|s.data|));
    s2 := Next(c, s1, Deliver(|s.data|));
    WithoutLast(s.data, pkt);
  }

  lemma WithoutLast<T>(xs: seq<T>, x: T)
    ensures Without(xs + [x], |xs|) == xs
  {
  }

  lemma FullWindowSendsNothing(c: Config, s: State)
    requires ConfigOk(c) && Inv(c, s) && Enabled(c, s, SendMore) && |s.snd.log| == s.snd.base + c.ws
    ensures Next(c, s, SendMore) == s.(phase := AtPoll) && Inv(c, Next(c, s, SendMore))
  {
    StepKeeps(c, s, SendMore);
  }

  /** The window is full: take the ACK of its first packet. */
  lemma PumpAck(c: Config, s: State) returns (acts: seq<Action>)
    requires ConfigOk(c) && UpToDate(c, s) && !Done(c, s) && |s.snd.log| == s.snd.base + c.ws
    ensures Runs(c, s, acts) && OnlyReorders(acts)
    ensures var t := Exec(c, s, acts);
      && UpToDate(c, t) && t.snd.base > s.snd.base && t.snd.log == s.snd.log && t.data == s.data
      && (FilledFirst(c, s) ==> FilledFirst(c, t))
  {
    var i :| 0 <= i < |s.acks| && s.acks[i] == s.snd.base;
    FullWindowSendsNothing(c, s);
    var s1 := Next(c, s, SendMore);
    TakeKeepsUpToDate(c, s1, i);
    if FilledFirst(c, s) {
      SlidesByOne(c, s1, i);
    }
    RunsTwo(c, s, SendMore, PollAck(i));
    acts := [SendMore, PollAck(i)];
  }

  /** With a full window none of whose other packets is counted, the slide is by one. */
  lemma SlidesByOne(c: Config, s: State, i: nat)
    requires ConfigOk(c) && Inv(c, s) && FilledFirst(c, s) && Enabled(c, s, PollAck(i))
    requires |s.snd.log| == s.snd.base + c.ws && s.acks[i] == s.snd.base
    ensures FilledFirst(c, Next(c, s, PollAck(i)))
  {
    var n, acked := |s.snd.log|, s.snd.acked + {s.snd.base};
    if c.ws > 1 {
      assert !Flag(n, acked, c.ws, s.snd.base + 1);
    }
    assert Flag(n, acked, c.ws, s.snd.base);
    SlideToIs(n, acked, c.ws, s.snd.base, s.snd.base + 1, s.snd.base + c.ws);
  }

  lemma OtherAcksStay(acks: seq<nat>, i: nat, k: nat)
    requires i < |acks| && k in acks && k != acks[i]
    ensures k in Without(acks, i)
  {
    var j :| 0 <= j < |acks| && acks[j] == k;
    assert Without(acks, i)[if j < i then j else j - 1] == k;
  }

  lemma TakeKeepsUpToDate(c: Config, s: State, i: nat)
    requires ConfigOk(c) && UpToDate(c, s.(phase := AtTest)) && Inv(c, s) && s.phase == AtPoll
    requires |s.snd.log| == s.snd.base + c.ws && i < |s.acks| && s.acks[i] == s.snd.base
    ensures var t := Next(c, s, PollAck(i));
      && UpToDate(c, t) && t.snd.base > s.snd.base && t.snd.log == s.snd.log && t.data == s.data
  {
    var t := Next(c, s, PollAck(i));
    StepKeeps(c, s, PollAck(i));
    assert Flag(|s.snd.log|, s.snd.acked + {s.snd.base}, c.ws, s.snd.base);
    forall k | t.snd.base <= k < |s.snd.log| && k !in t.snd.acked
      ensures k in t.acks
    {
      OtherAcksStay(s.acks, i, k);
    }
  }

  lemma DoomStays(c: Config, s: State, acts: seq<Action>)
    requires ConfigOk(c) && Inv(c, s) && Runs(c, s, acts)
    ensures Doomed(c, s) ==> Doomed(c, Exec(c, s, acts))
  {
    if Doomed(c, s) {
      DoomedForever(c, s, acts);
    }
  }

  /** Pump on until `goal` packets have been sent and written. */
  lemma {:induction false} PumpTo(c: Config, s: State, goal: nat) returns (acts: seq<Action>)
    requires ConfigOk(c) && c.msg != [] && UpToDate(c, s) && Endless(c, s, goal) && |s.snd.log| <= goal
    ensures Runs(c, s, acts) && OnlyReorders(acts)
    ensures var t := Exec(c, s, acts);
      && UpToDate(c, t) && |t.snd.log| == goal && s.data <= t.data && Endless(c, t, goal)
      && (goal <= s.snd.base + c.ws ==> t.snd.base == s.snd.base)
    decreases goal - |s.snd.log|, s.snd.base + c.ws == |s.snd.log|
  {
    if |s.snd.log| == goal {
      acts := [];
    } else {
      NotDone(c, s, goal);
      var first: seq<Action>;
      if |s.snd.log| < s.snd.base + c.ws {
        first := PumpSend(c, s);
      } else {
        first := PumpAck(c, s);
      }
      DoomStays(c, s, first);
      var t := Exec(c, s, first);
      var rest := PumpTo(c, t, goal);
      RunsAppend(c, s, first, rest);
      acts := first + rest;
    }
  }

  /** A second copy of one packet waits until the receiver is more than its window ahead. */
  lemma AbortFrom(c: Config, s: State) returns (acts: seq<Action>)
    requires ConfigOk(c) && c.msg != [] && UpToDate(c, s) && s.snd.base == |s.snd.log|
    requires Endless(c, s, s.snd.base + c.wr + 1)
    ensures Runs(c, s, acts) && OnlyReorders(acts) && Exec(c, s, acts).status == Aborted
  {
    var goal := s.snd.base + c.wr + 1;
    NotDone(c, s, goal);
    var first := PumpSend(c, s);
    DoomStays(c, s, first);
    var t := Exec(c, s, first);
    var second := PumpTo(c, t, goal);
    var u := Exec(c, t, second);
    assert u.data[|s.data|].seqNum == s.snd.base;
    RunsOne(c, u, Deliver(|s.data|));
    RunsAppend(c, t, second, [Deliver(|s.data|)]);
    RunsAppend(c, s, first, second + [Deliver(|s.data|)]);
    acts := first + (second + [Deliver(|s.data|)]);
  }

  lemma AbortByReordering(c: Config) returns (acts: seq<Action>)
    requires ConfigOk(c) && c.msg != []
    requires c.wr + 1 < ChunkCount(c.msg) + c.ws || (c.ws >= 2 && |c.msg| > c.ws * PAYLOAD_SIZE)
    ensures Runs(c, INIT, acts) && OnlyReorders(acts) && Exec(c, INIT, acts).status == Aborted
  {
    if c.wr + 1 < ChunkCount(c.msg) + c.ws {
      acts := AbortFrom(c, INIT);
    } else {
      var past := DoomReachable(c);
      var s := Exec(c, INIT, past);
      var first := PumpTo(c, s, s.snd.base);
      DoomStays(c, s, first);
      var rest := AbortFrom(c, Exec(c, s, first));
      RunsAppend(c, s, first, rest);
      RunsAppend(c, INIT, past, first + rest);
      acts := past + (first + rest);
    }
  }

  // ----- And no more -------------------------------------------------------------------------------

  /** No ACK has overshot a chunk that is still to be counted, and few packets have been sent. */
  ghost predicate Orderly(c: Config, s: State) {
    Short(c, s) && (Clean(s) || NothingLeft(c, s))
  }

  lemma NothingLeftIsDone(c: Config, s: State)
    requires ConfigOk(c) && Inv(c, s) && NothingLeft(c, s)
    ensures Done(c, s)
  {
    assert ChunkCount(c.msg) > 0 ==> ChunkCount(c.msg) - 1 in s.snd.acked;
    CarriedFull(c.msg, s.snd.acked, |s.snd.log|);
  }

  lemma OrderlyStep(c: Config, s: State, a: Action)
    requires ConfigOk(c) && Inv(c, s) && Orderly(c, s) && Enabled(c, s, a)
    requires c.ws == 1 || ChunkCount(c.msg) <= c.ws
    ensures Orderly(c, Next(c, s, a))
  {
    if NothingLeft(c, s) {
      NothingLeftIsDone(c, s);
      assert NothingLeft(c, Next(c, s, a));
    } else {
      ShortStep(c, s, a);
      if c.ws == 1 {
        CleanStep(c, s, a);
        if a.PollAck? {
          SlideExact(c, s, a.i);
        }
      } else {
        NoDoomStep(c, s, a);
      }
    }
  }

  lemma {:induction false} NoAbortRun(c: Config, s: State, acts: seq<Action>)
    requires ConfigOk(c) && Inv(c, s) && Orderly(c, s) && Runs(c, s, acts) && s.status != Aborted
    requires (c.ws == 1 || ChunkCount(c.msg) <= c.ws) && ChunkCount(c.msg) + c.ws <= c.wr + 1
    ensures Exec(c, s, acts).status != Aborted
    decreases |acts|
  {
    if acts != [] {
      OrderlyStep(c, s, acts[0]);
      StepKeeps(c, s, acts[0]);
      NoAbortRun(c, Next(c, s, acts[0]), acts[1..]);
    }
  }

  ghost predicate CanAbort(c: Config) {
    exists acts :: Runs(c, INIT, acts) && Exec(c, INIT, acts).status == Aborted
  }

  ghost predicate CanAbortByReordering(c: Config) {
    exists acts :: Runs(c, INIT, acts) && OnlyReorders(acts) && Exec(c, INIT, acts).status == Aborted
  }

  /** When the sender may be made to send more packets than the receiver's window holds. */
  predicate SendsTooMany(c: Config) {
    && c.msg != []
    && (c.wr < ChunkCount(c.msg) + c.ws - 1 || (c.ws >= 2 && |c.msg| > c.ws * PAYLOAD_SIZE))
  }

  /** Over a network that may lose, copy and reorder, the receiver's abort is reachable if and only if the sender can
      be made to send more packets than the receiver's window holds; and then reordering alone reaches it. */
  lemma AbortExactAnyOrder(c: Config)
    requires ConfigOk(c)
    ensures CanAbort(c) <==> SendsTooMany(c)
    ensures CanAbortByReordering(c) <==> SendsTooMany(c)
  {
    if SendsTooMany(c) {
      var acts := AbortByReordering(c);
      assert Runs(c, INIT, acts);
    } else {
      ChunkCountOk(c.msg, c.ws);
      forall acts | Runs(c, INIT, acts)
        ensures Exec(c, INIT, acts).status != Aborted
      {
        if c.msg == [] {
          NothingToAbort(c, INIT, acts);
        } else {
          NoAbortRun(c, INIT, acts);
        }
      }
    }
  }
}
