/** sendMessageOpt against recvMessageOpt over the same kind of network as BasicProtocol: one ACK per packet,
    and a slide loop that reads flags left over from the previous lap of the ring. */
module OptProtocol {
  import opened Channels
  import opened Words
  import opened Transfer
  import opened Protocol
  import opened Receiver
  import opened Sender

  /** Aborted is the receiver's "illegal pkt seq num" exit. */
  datatype Status = Receiving | Finished | GaveUp | Aborted

  /** `expired` is the sender's TIMEOUT flag: set when the timer fires, cleared when the window slides. */
  datatype State = State(
    snd: Opt, rcv: Window, data: seq<Packet>, acks: seq<nat>, phase: Phase, status: Status, expired: bool)

  const INIT: State := State(Opt([], 0, {}, 0, 0), Window(0, map[], []), [], [], AtTest, Receiving, false)

  ghost predicate Done(c: Config, s: State) {
    s.snd.sent >= |c.msg|
  }

  /** The bounds on pos, acks and windows only make the step defined; Inv gives them in every run. */
  ghost predicate Enabled(c: Config, s: State, a: Action) {
    match a
    case SendMore => s.phase == AtTest && !Done(c, s) && s.snd.pos <= |c.msg|
    case PollAck(i) => s.phase == AtPoll && i < |s.acks| && s.acks[i] < |s.snd.log| && c.ws > 0
    case PollNothing => s.phase == AtPoll && !s.expired
    case PollTimeout => s.phase == AtPoll
    case Deliver(i) => s.status == Receiving && i < |s.data| && c.wr > 0
    case LoseData(i) => i < |s.data|
    case CopyData(i) => i < |s.data|
    case LoseAck(i) => i < |s.acks|
    case CopyAck(i) => i < |s.acks|
    case SendEnd => s.phase == AtTest && Done(c, s)
    case DeliverEnd => s.phase == Ended && s.status == Receiving
    case GiveUp => s.status == Receiving
  }

  ghost function Next(c: Config, s: State, a: Action): State
    requires Enabled(c, s, a)
  {
    match a
    case SendMore =>
      var (snd, out) := FillOpt(s.snd, c.msg, c.ws);
      s.(snd := snd, data := s.data + out, phase := AtPoll)
    case PollAck(i) =>
      var snd := OnAckOpt(s.snd, c.ws, s.acks[i]);
      s.(snd := snd, acks := Without(s.acks, i), phase := AtTest, expired := s.expired && snd.base == s.snd.base)
    case PollNothing => s.(phase := AtTest)
    case PollTimeout => s.(data := s.data + ResendOpt(s.snd), phase := AtTest, expired := true)
    case Deliver(i) =>
      (match ReceiveOpt(s.rcv, c.wr, s.data[i])
       case Reply(w, acks) => s.(rcv := w, data := Without(s.data, i), acks := s.acks + acks)
       case Illegal => s.(data := Without(s.data, i), status := Aborted))
    case LoseData(i) => s.(data := Without(s.data, i))
    case CopyData(i) => s.(data := s.data + [s.data[i]])
    case LoseAck(i) => s.(acks := Without(s.acks, i))
    case CopyAck(i) => s.(acks := s.acks + [s.acks[i]])
    case SendEnd => s.(phase := Ended)
    case DeliverEnd => s.(status := Finished)
    case GiveUp => s.(status := GaveUp)
  }

  ghost predicate Runs(c: Config, s: State, acts: seq<Action>)
    decreases |acts|
  {
    acts == [] || (Enabled(c, s, acts[0]) && Runs(c, Next(c, s, acts[0]), acts[1..]))
  }

  ghost function Exec(c: Config, s: State, acts: seq<Action>): State
    requires Runs(c, s, acts)
    decreases |acts|
  {
    if acts == [] then s else Exec(c, Next(c, s, acts[0]), acts[1..])
  }

  lemma {:induction false} RunsAppend(c: Config, s: State, a: seq<Action>, b: seq<Action>)
    requires Runs(c, s, a) && Runs(c, Exec(c, s, a), b)
    ensures Runs(c, s, a + b) && Exec(c, s, a + b) == Exec(c, Exec(c, s, a), b)
    decreases |a|
  {
    if a == [] {
      assert a + b == b;
    } else {
      assert (a + b)[1..] == a[1..] + b;
      RunsAppend(c, Next(c, s, a[0]), a[1..], b);
    }
  }

  lemma RunsOne(c: Config, s: State, a: Action)
    requires Enabled(c, s, a)
    ensures Runs(c, s, [a]) && Exec(c, s, [a]) == Next(c, s, a)
  {
    var t := Next(c, s, a);
    assert [a][1..] == [];
    assert Runs(c, t, []) && Exec(c, t, []) == t;
  }

  lemma RunsTwo(c: Config, s: State, a: Action, b: Action)
    requires Enabled(c, s, a) && Enabled(c, Next(c, s, a), b)
    ensures Runs(c, s, [a, b]) && Exec(c, s, [a, b]) == Next(c, Next(c, s, a), b)
  {
    RunsOne(c, s, a);
    RunsOne(c, Next(c, s, a), b);
    RunsAppend(c, s, [a], [b]);
    assert [a] + [b] == [a, b];
  }

  // ----- Safety, overshoot included ---------------------------------------------------------------

  ghost predicate Inv(c: Config, s: State) {
    && LogOk(c.msg, s.snd.log, s.snd.pos)
    && WireOk(s.snd.log, s.data)
    && Settled(s.rcv, c.wr)
    && Faithful(c.msg, |s.snd.log|, s.rcv)
    && |s.snd.log| <= s.snd.base + c.ws
    && (forall i :: 0 <= i < |s.acks| ==> s.acks[i] < |s.snd.log| && Has(s.rcv, s.acks[i]))
    && (forall k :: k in s.snd.acked ==> k < |s.snd.log| && Has(s.rcv, k))
    && s.snd.sent == Carried(c.msg, s.snd.acked, |s.snd.log|)
    && (s.snd.base < |s.snd.log| ==> s.snd.base !in s.snd.acked)
    && (s.phase == Ended ==> Done(c, s))
    && (s.status == Finished ==> s.phase == Ended)
  }

  lemma SendKeeps(c: Config, s: State)
    requires ConfigOk(c) && Inv(c, s) && Enabled(c, s, SendMore)
    ensures Inv(c, Next(c, s, SendMore))
  {
    ReadIsChunk(c.msg, s.snd.log, s.snd.pos);
    assert |s.snd.log| !in s.snd.acked;
  }

  lemma AckKeeps(c: Config, s: State, i: nat)
    requires ConfigOk(c) && Inv(c, s) && Enabled(c, s, PollAck(i))
    ensures Inv(c, Next(c, s, PollAck(i)))
  {
    var ack := s.acks[i];
    if ack !in s.snd.acked {
      CarriedAdd(c.msg, s.snd.acked, ack, |s.snd.log|);
    }
  }

  lemma ReceiverKeeps(c: Config, s: State, i: nat)
    requires ConfigOk(c) && Inv(c, s) && Enabled(c, s, Deliver(i))
    ensures Inv(c, Next(c, s, Deliver(i)))
  {
    OptKeeps(c.msg, |s.snd.log|, s.rcv, c.wr, s.data[i]);
  }

  lemma StepKeeps(c: Config, s: State, a: Action)
    requires ConfigOk(c) && Inv(c, s) && Enabled(c, s, a)
    ensures Inv(c, Next(c, s, a))
  {
    if a.Deliver? {
      ReceiverKeeps(c, s, a.i);
    } else if a.SendMore? {
      SendKeeps(c, s);
    } else if a.PollAck? {
      AckKeeps(c, s, a.i);
    } else if a.PollTimeout? {
      UnackedFrom(s.snd.log, s.snd.acked, s.snd.base);
    }
  }

  lemma {:induction false} RunKeeps(c: Config, s: State, acts: seq<Action>)
    requires ConfigOk(c) && Inv(c, s) && Runs(c, s, acts)
    ensures Inv(c, Exec(c, s, acts))
    decreases |acts|
  {
    if acts != [] {
      StepKeeps(c, s, acts[0]);
      RunKeeps(c, Next(c, s, acts[0]), acts[1..]);
    }
  }

  /** What was counted is carried by distinct packets the receiver has, so a full count means that the
      receiver has every non-empty chunk, and then it has written them all. */
  lemma DoneMeansWritten(c: Config, s: State)
    requires ConfigOk(c) && Inv(c, s) && Done(c, s)
    ensures s.rcv.file == c.msg
  {
    var n := |s.snd.log|;
    CarriedShort(c.msg, s.snd.acked, n);
    ChunkCountOk(c.msg, n);
    assert n >= ChunkCount(c.msg);
    ChunkCountOk(c.msg, s.rcv.nxt);
    assert s.rcv.nxt < ChunkCount(c.msg) ==> s.rcv.nxt in s.snd.acked;
    assert c.msg[..|c.msg|] == c.msg;
  }

  /** In every run, however the network behaves and even after the window has overshot: the file is a prefix
      of the message in whole chunks; every number is counted at most once, and only if the receiver has its
      packet; the slot of the next number is never occupied; and when the sender's loop ends, or the receiver
      finishes on END, the file is the message. */
  lemma OptSafe(c: Config, acts: seq<Action>)
    requires ConfigOk(c) && Runs(c, INIT, acts)
    ensures var s := Exec(c, INIT, acts);
      && s.rcv.file == c.msg[..Offset(c.msg, s.rcv.nxt)]
      && s.snd.sent == Carried(c.msg, s.snd.acked, |s.snd.log|)
      && (forall k :: k in s.snd.acked ==> k < |s.snd.log| && Has(s.rcv, k))
      && s.rcv.nxt !in s.rcv.held
      && (Done(c, s) ==> s.rcv.file == c.msg)
      && (s.status == Finished ==> s.rcv.file == c.msg)
  {
    RunKeeps(c, INIT, acts);
    var s := Exec(c, INIT, acts);
    if Done(c, s) {
      DoneMeansWritten(c, s);
    }
  }

  // ----- The exact boundary of the slide ----------------------------------------------------------

  /** Everything left of the window has been counted. */
  ghost predicate Clean(s: State) {
    forall k :: 0 <= k < s.snd.base ==> k in s.snd.acked
  }

  /** The one kind of ACK that slides too far: it completes the window, the window is not full, and the
      ring is already in its second lap, so the next flag read belongs to the previous lap. */
  ghost predicate Overshoots(c: Config, s: State, ack: nat) {
    && ack == s.snd.base
    && (forall k :: s.snd.base < k < |s.snd.log| ==> k in s.snd.acked)
    && c.ws <= |s.snd.log| < s.snd.base + c.ws
  }

  lemma SlideExact(c: Config, s: State, i: nat)
    requires ConfigOk(c) && Inv(c, s) && Clean(s) && Enabled(c, s, PollAck(i))
    ensures Clean(Next(c, s, PollAck(i))) <==> !Overshoots(c, s, s.acks[i])
    ensures Overshoots(c, s, s.acks[i]) ==> Next(c, s, PollAck(i)).snd.base > |s.snd.log|
  {
    var n, ack := |s.snd.log|, s.acks[i];
    var acked := s.snd.acked + {ack};
    if ack == s.snd.base {
      var b := SlideTo(n, acked, c.ws, ack, ack + c.ws);
      assert Next(c, s, PollAck(i)).snd.base == b;
      if Overshoots(c, s, ack) {
        assert Flag(n, acked, c.ws, n);
        assert b > n;
        assert n !in acked;
      } else {
        if n < c.ws {
          assert !Flag(n, acked, c.ws, n);
        } else if n < ack + c.ws {
          var k :| ack < k < n && k !in s.snd.acked;
          assert !Flag(n, acked, c.ws, k);
        }
        assert b <= n;
        forall k | 0 <= k < b
          ensures k in acked
        {
          if k >= ack {
            assert Flag(n, acked, c.ws, k);
          }
        }
      }
    }
  }

  /** No ACK of the run overshoots. */
  ghost predicate NeverOvershoots(c: Config, s: State, acts: seq<Action>)
    requires Runs(c, s, acts)
    decreases |acts|
  {
    acts == [] ||
    (&& (acts[0].PollAck? ==> !Overshoots(c, s, s.acks[acts[0].i]))
     && NeverOvershoots(c, Next(c, s, acts[0]), acts[1..]))
  }

  lemma CleanStep(c: Config, s: State, a: Action)
    requires ConfigOk(c) && Inv(c, s) && Enabled(c, s, a)
    ensures !Clean(s) ==> !Clean(Next(c, s, a))
    ensures Clean(s) && !a.PollAck? ==> Clean(Next(c, s, a))
    ensures Clean(s) ==> s.snd.base <= |s.snd.log|
  {
    assert Clean(s) && s.snd.base > |s.snd.log| ==> |s.snd.log| in s.snd.acked;
    if !Clean(s) {
      var k :| 0 <= k < s.snd.base && k !in s.snd.acked;
      assert k !in Next(c, s, a).snd.acked;
    }
  }

  lemma {:induction false} StaysUnclean(c: Config, s: State, acts: seq<Action>)
    requires ConfigOk(c) && Inv(c, s) && Runs(c, s, acts) && !Clean(s)
    ensures !Clean(Exec(c, s, acts))
    decreases |acts|
  {
    if acts != [] {
      CleanStep(c, s, acts[0]);
      StepKeeps(c, s, acts[0]);
      StaysUnclean(c, Next(c, s, acts[0]), acts[1..]);
    }
  }

  lemma {:induction false} CleanIffNeverOvershoots(c: Config, s: State, acts: seq<Action>)
    requires ConfigOk(c) && Inv(c, s) && Clean(s) && Runs(c, s, acts)
    ensures Clean(Exec(c, s, acts)) <==> NeverOvershoots(c, s, acts)
    decreases |acts|
  {
    if acts != [] {
      var a, t := acts[0], Next(c, s, acts[0]);
      CleanStep(c, s, a);
      StepKeeps(c, s, a);
      if a.PollAck? {
        SlideExact(c, s, a.i);
      }
      if Clean(t) {
        CleanIffNeverOvershoots(c, t, acts[1..]);
      } else {
        StaysUnclean(c, t, acts[1..]);
      }
    }
  }

  /** In any run, everything below send_base has been counted (and so send_base <= nxt_seq_num) if and only
      if no ACK of the run arrived at an overshooting moment; with a window of 1 there is no such moment. */
  lemma SlideBoundary(c: Config, acts: seq<Action>)
    requires ConfigOk(c) && Runs(c, INIT, acts)
    ensures var s := Exec(c, INIT, acts);
      && (Clean(s) <==> NeverOvershoots(c, INIT, acts))
      && (Clean(s) ==> s.snd.base <= |s.snd.log|)
      && (c.ws == 1 ==> Clean(s))
  {
    CleanIffNeverOvershoots(c, INIT, acts);
    RunKeeps(c, INIT, acts);
    var s := Exec(c, INIT, acts);
    assert Clean(s) && s.snd.base > |s.snd.log| ==> |s.snd.log| in s.snd.acked;
    if c.ws == 1 {
      WindowOfOne(c, INIT, acts);
    }
  }

  lemma {:induction false} WindowOfOne(c: Config, s: State, acts: seq<Action>)
    requires ConfigOk(c) && c.ws == 1 && Inv(c, s) && Runs(c, s, acts)
    ensures NeverOvershoots(c, s, acts)
    decreases |acts|
  {
    if acts != [] {
      StepKeeps(c, s, acts[0]);
      WindowOfOne(c, Next(c, s, acts[0]), acts[1..]);
    }
  }
}
