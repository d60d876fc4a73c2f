/** sendMessage against recvMessage over a network that may lose, duplicate and reorder. */
module BasicProtocol {
  import opened Channels
  import opened Words
  import opened Transfer
  import opened Protocol
  import opened Receiver
  import opened Sender

  datatype Status = Receiving | Finished | GaveUp

  /** `expired` is the sender's TIMEOUT flag: set when the timer fires, cleared when the window slides. */
  datatype State = State(
    snd: Basic, rcv: Window, data: seq<Packet>, acks: seq<nat>, phase: Phase, status: Status, expired: bool)

  const INIT: State := State(Basic([], 0, 0, 0), Window(0, map[], []), [], [], AtTest, Receiving, false)

  ghost predicate Done(c: Config, s: State) {
    s.snd.sent >= |c.msg|
  }

  /** The bounds on pos, sent and the window only make the step defined; Inv gives them in every run. */
  ghost predicate Enabled(c: Config, s: State, a: Action) {
    match a
    case SendMore => s.phase == AtTest && !Done(c, s) && s.snd.pos <= |c.msg|
    case PollAck(i) => s.phase == AtPoll && i < |s.acks| && s.snd.sent <= |c.msg|
    case PollNothing => s.phase == AtPoll && !s.expired
    case PollTimeout => s.phase == AtPoll
    case Deliver(i) => s.status == Receiving && i < |s.data| && c.wr > 0
    case LoseData(i) => i < |s.data|
    case CopyData(i) => i < |s.data|
    case LoseAck(i) => i < |s.acks|
    case CopyAck(i) => i < |s.acks|
    case SendEnd => s.phase == AtTest && Done(c, s)
    case DeliverEnd => s.phase == Ended && s.status == Receiving
    case GiveUp => s.status == Receiving
  }

  ghost function Next(c: Config, s: State, a: Action): State
    requires Enabled(c, s, a)
  {
    match a
    case SendMore =>
      var (snd, out) := Fill(s.snd, c.msg, c.ws);
      s.(snd := snd, data := s.data + out, phase := AtPoll)
    case PollAck(i) =>
      s.(snd := OnAck(s.snd, |c.msg|, s.acks[i]), acks := Without(s.acks, i), phase := AtTest,
         expired := s.expired && s.acks[i] <= s.snd.base)
    case PollNothing => s.(phase := AtTest)
    case PollTimeout => s.(data := s.data + Resend(s.snd), phase := AtTest, expired := true)
    case Deliver(i) =>
      var r := ReceiveBasic(s.rcv, c.wr, s.data[i]);
      s.(rcv := r.window, data := Without(s.data, i), acks := s.acks + r.acks)
    case LoseData(i) => s.(data := Without(s.data, i))
    case CopyData(i) => s.(data := s.data + [s.data[i]])
    case LoseAck(i) => s.(acks := Without(s.acks, i))
    case CopyAck(i) => s.(acks := s.acks + [s.acks[i]])
    case SendEnd => s.(phase := Ended)
    case DeliverEnd => s.(status := Finished)
    case GiveUp => s.(status := GaveUp)
  }

  ghost predicate Runs(c: Config, s: State, acts: seq<Action>)
    decreases |acts|
  {
    acts == [] || (Enabled(c, s, acts[0]) && Runs(c, Next(c, s, acts[0]), acts[1..]))
  }

  /** The state a run ends in. */
  ghost function Exec(c: Config, s: State, acts: seq<Action>): State
    requires Runs(c, s, acts)
    decreases |acts|
  {
    if acts == [] then s else Exec(c, Next(c, s, acts[0]), acts[1..])
  }

  lemma {:induction false} RunsAppend(c: Config, s: State, a: seq<Action>, b: seq<Action>)
    requires Runs(c, s, a) && Runs(c, Exec(c, s, a), b)
    ensures Runs(c, s, a + b) && Exec(c, s, a + b) == Exec(c, Exec(c, s, a), b)
    decreases |a|
  {
    if a == [] {
      assert a + b == b;
    } else {
      assert (a + b)[1..] == a[1..] + b;
      RunsAppend(c, Next(c, s, a[0]), a[1..], b);
    }
  }

  // ----- Safety ---------------------------------------------------------------------------------

  ghost predicate Inv(c: Config, s: State) {
    && LogOk(c.msg, s.snd.log, s.snd.pos)
    && WireOk(s.snd.log, s.data)
    && Settled(s.rcv, c.wr)
    && Faithful(c.msg, |s.snd.log|, s.rcv)
    && s.snd.base <= s.rcv.nxt <= |s.snd.log| <= s.snd.base + c.ws
    && (forall i :: 0 <= i < |s.acks| ==> s.acks[i] <= s.rcv.nxt)
    && s.snd.sent == Offset(c.msg, s.snd.base)
    && |s.snd.log| < ChunkCount(c.msg) + c.ws
    && (s.phase == Ended ==> Done(c, s))
    && (s.status == Finished ==> s.phase == Ended)
  }

  lemma SendKeeps(c: Config, s: State)
    requires ConfigOk(c) && Inv(c, s) && Enabled(c, s, SendMore)
    ensures Inv(c, Next(c, s, SendMore))
  {
    ReadIsChunk(c.msg, s.snd.log, s.snd.pos);
    ChunkCountOk(c.msg, s.snd.base);
  }

  lemma AckKeeps(c: Config, s: State, i: nat)
    requires ConfigOk(c) && Inv(c, s) && Enabled(c, s, PollAck(i))
    ensures Inv(c, Next(c, s, PollAck(i)))
  {
    var ack := s.acks[i];
    if ack > s.snd.base {
      CreditIs(s.snd.sent, ack - s.snd.base, |c.msg|);
    }
  }

  lemma ReceiverKeeps(c: Config, s: State, i: nat)
    requires ConfigOk(c) && Inv(c, s) && Enabled(c, s, Deliver(i))
    ensures Inv(c, Next(c, s, Deliver(i)))
  {
    BasicKeeps(c.msg, |s.snd.log|, s.rcv, c.wr, s.data[i]);
  }

  /** Losing or copying what is in flight. */
  lemma NetworkKeeps(c: Config, s: State, a: Action)
    requires ConfigOk(c) && Inv(c, s) && Enabled(c, s, a)
    requires a.LoseData? || a.CopyData? || a.LoseAck? || a.CopyAck?
    ensures Inv(c, Next(c, s, a))
  {
  }

  lemma OwnKeeps(c: Config, s: State, a: Action)
    requires ConfigOk(c) && Inv(c, s) && Enabled(c, s, a)
    requires a.PollNothing? || a.PollTimeout? || a.SendEnd? || a.DeliverEnd? || a.GiveUp?
    ensures Inv(c, Next(c, s, a))
  {
  }

  lemma StepKeeps(c: Config, s: State, a: Action)
    requires ConfigOk(c) && Inv(c, s) && Enabled(c, s, a)
    ensures Inv(c, Next(c, s, a))
  {
    match a
    case SendMore => SendKeeps(c, s);
    case PollAck(i) => AckKeeps(c, s, i);
    case Deliver(i) => ReceiverKeeps(c, s, i);
    case LoseData(_) | CopyData(_) | LoseAck(_) | CopyAck(_) => NetworkKeeps(c, s, a);
    case PollNothing | PollTimeout | SendEnd | DeliverEnd | GiveUp => OwnKeeps(c, s, a);
  }

  lemma {:induction false} RunKeeps(c: Config, s: State, acts: seq<Action>)
    requires ConfigOk(c) && Inv(c, s) && Runs(c, s, acts)
    ensures Inv(c, Exec(c, s, acts))
    decreases |acts|
  {
    if acts != [] {
      StepKeeps(c, s, acts[0]);
      RunKeeps(c, Next(c, s, acts[0]), acts[1..]);
    }
  }

  /** In every run: the file is the message up to the receiver's next number; the two ends' counters are
      ordered; no ACK runs ahead of the receiver; the credit is exactly that of the slid window; and the
      file is complete once the sender's loop ends, hence whenever the receiver finishes on END. */
  lemma BasicSafe(c: Config, acts: seq<Action>)
    requires ConfigOk(c) && Runs(c, INIT, acts)
    ensures var s := Exec(c, INIT, acts);
      && s.rcv.file == c.msg[..Offset(c.msg, s.rcv.nxt)]
      && s.snd.base <= s.rcv.nxt <= |s.snd.log| <= s.snd.base + c.ws
      && (forall i :: 0 <= i < |s.acks| ==> s.acks[i] <= s.rcv.nxt)
      && s.snd.sent == Min(|c.msg|, PAYLOAD_SIZE * s.snd.base)
      && (Done(c, s) ==> s.rcv.file == c.msg)
      && (s.status == Finished ==> s.rcv.file == c.msg)
  {
    RunKeeps(c, INIT, acts);
    var s := Exec(c, INIT, acts);
    if Done(c, s) {
      assert Offset(c.msg, s.rcv.nxt) == |c.msg|;
      assert c.msg[..|c.msg|] == c.msg;
    }
  }

  /** Sequence numbers and window sums stay far below 2^31 in every run, so unbounded numbers model the
      program's 32-bit arithmetic exactly. */
  lemma NoWrapAround(c: Config, acts: seq<Action>)
    requires ConfigOk(c) && Runs(c, INIT, acts)
    ensures var s := Exec(c, INIT, acts);
      && |s.snd.log| + c.ws + c.wr < 0x8000_0000
      && forall i :: 0 <= i < |s.acks| ==> s.acks[i] + c.ws + c.wr < 0x8000_0000
  {
    RunKeeps(c, INIT, acts);
    var s := Exec(c, INIT, acts);
    assert ChunkCount(c.msg) <= |c.msg| / PAYLOAD_SIZE + 1;
  }

  // ----- When a transfer can still complete -------------------------------------------------------

  /** The sender has used its window, the receiver has it all, and no ACK in flight says so. */
  ghost predicate Stuck(c: Config, s: State) {
    && |s.snd.log| == s.snd.base + c.ws == s.rcv.nxt
    && forall i :: 0 <= i < |s.acks| ==> s.acks[i] <= s.snd.base
  }

  lemma StuckStep(c: Config, s: State, a: Action)
    requires ConfigOk(c) && Inv(c, s) && Stuck(c, s) && Enabled(c, s, a)
    ensures var s' := Next(c, s, a); Stuck(c, s') && s'.snd == s.snd && s'.rcv == s.rcv
  {
  }

  /** Nothing ever changes again: recvMessage does not re-acknowledge packets it has already written. */
  lemma {:induction false} StuckForever(c: Config, s: State, acts: seq<Action>)
    requires ConfigOk(c) && Inv(c, s) && Stuck(c, s) && Runs(c, s, acts)
    ensures var s' := Exec(c, s, acts); Stuck(c, s') && s'.snd == s.snd && s'.rcv == s.rcv
    decreases |acts|
  {
    if acts != [] {
      StuckStep(c, s, acts[0]);
      StepKeeps(c, s, acts[0]);
      StuckForever(c, Next(c, s, acts[0]), acts[1..]);
    }
  }

  /** For every window size and every non-empty message there is a run into such a state. */
  lemma StuckReachable(c: Config) returns (acts: seq<Action>)
    requires ConfigOk(c) && c.msg != []
    ensures Runs(c, INIT, acts)
    ensures var s := Exec(c, INIT, acts); Stuck(c, s) && !Done(c, s) && s.status == Receiving
  {
    acts := LosingEveryAck(c, c.ws);
  }

  /** k packets sent, delivered in order, and each of their ACKs lost. */
  lemma {:induction false} LosingEveryAck(c: Config, k: nat) returns (acts: seq<Action>)
    requires ConfigOk(c) && c.msg != [] && k <= c.ws
    ensures Runs(c, INIT, acts)
    ensures var s := Exec(c, INIT, acts);
      && |s.snd.log| == k == s.rcv.nxt && s.rcv.held == map[] && s.snd.base == 0 == s.snd.sent
      && s.data == [] && s.acks == [] && s.phase == AtTest && s.status == Receiving && !s.expired
    decreases k
  {
    if k == 0 {
      acts := [];
    } else {
      var past := LosingEveryAck(c, k - 1);
      RunKeeps(c, INIT, past);
      var s := Exec(c, INIT, past);
      OneLost(c, s);
      acts := past + [SendMore, PollNothing, Deliver(0), LoseAck(0)];
      RunsAppend(c, INIT, past, [SendMore, PollNothing, Deliver(0), LoseAck(0)]);
    }
  }

  /** One more packet sent and delivered in order, and its ACK lost. */
  lemma OneLost(c: Config, s: State)
    requires ConfigOk(c) && Inv(c, s) && !Done(c, s) && s.phase == AtTest && s.status == Receiving
    requires |s.snd.log| == s.rcv.nxt < s.snd.base + c.ws
    requires s.rcv.held == map[] && s.data == [] && s.acks == [] && !s.expired
    ensures Runs(c, s, [SendMore, PollNothing, Deliver(0), LoseAck(0)])
    ensures var t := Exec(c, s, [SendMore, PollNothing, Deliver(0), LoseAck(0)]);
      && |t.snd.log| == |s.snd.log| + 1 == t.rcv.nxt && t.rcv.held == map[]
      && t.snd.base == s.snd.base && t.snd.sent == s.snd.sent
      && t.data == [] && t.acks == [] && t.phase == AtTest && t.status == Receiving && !t.expired
  {
    var k := |s.snd.log|;
    var s2 := Next(c, Next(c, s, SendMore), PollNothing);
    var s3 := Next(c, s2, Deliver(0));
    assert s2.data == [Packet(k, ReadFrom(c.msg, s.snd.pos))];
    var held := s.rcv.held[k := s2.data[0].payload];
    assert FirstMissing(held, k + 1, k + c.wr) == k + 1;
    assert s3.rcv.nxt == k + 1 && s3.acks == [k + 1];
    RunsFour(c, s, SendMore, PollNothing, Deliver(0), LoseAck(0));
  }

  lemma RunsOne(c: Config, s: State, a: Action)
    requires Enabled(c, s, a)
    ensures Runs(c, s, [a]) && Exec(c, s, [a]) == Next(c, s, a)
  {
    var t := Next(c, s, a);
    assert [a][1..] == [];
    assert Runs(c, t, []) && Exec(c, t, []) == t;
  }

  lemma RunsTwo(c: Config, s: State, a: Action, b: Action)
    requires Enabled(c, s, a) && Enabled(c, Next(c, s, a), b)
    ensures Runs(c, s, [a, b]) && Exec(c, s, [a, b]) == Next(c, Next(c, s, a), b)
  {
    RunsOne(c, s, a);
    RunsOne(c, Next(c, s, a), b);
    RunsAppend(c, s, [a], [b]);
    assert [a] + [b] == [a, b];
  }

  lemma RunsFour(c: Config, s: State, a: Action, b: Action, d: Action, e: Action)
    requires Enabled(c, s, a) && Enabled(c, Next(c, s, a), b)
    requires var s2 := Next(c, Next(c, s, a), b); Enabled(c, s2, d) && Enabled(c, Next(c, s2, d), e)
    ensures Runs(c, s, [a, b, d, e])
    ensures Exec(c, s, [a, b, d, e]) == Next(c, Next(c, Next(c, Next(c, s, a), b), d), e)
  {
    RunsTwo(c, s, a, b);
    RunsTwo(c, Next(c, Next(c, s, a), b), d, e);
    RunsAppend(c, s, [a, b], [d, e]);
    assert [a, b] + [d, e] == [a, b, d, e];
  }

  /** An ACK above send_base is in flight: take it. The window cannot be stuck afterwards. */
  lemma TakeAck(c: Config, s: State, i: nat) returns (acts: seq<Action>)
    requires ConfigOk(c) && Inv(c, s) && s.phase == AtTest && s.status == Receiving && !Done(c, s)
    requires i < |s.acks| && s.acks[i] > s.snd.base
    ensures Runs(c, s, acts)
    ensures var t := Exec(c, s, acts);
      Inv(c, t) && t.phase == AtTest && t.status == Receiving && t.snd.base > s.snd.base && !Stuck(c, t)
  {
    acts := [SendMore, PollAck(i)];
    StepKeeps(c, s, SendMore);
    StepKeeps(c, Next(c, s, SendMore), PollAck(i));
    RunsTwo(c, s, SendMore, PollAck(i));
  }

  /** A timeout puts the packet the receiver expects back on the wire. */
  lemma ExpectedResent(c: Config, s: State) returns (at: nat)
    requires ConfigOk(c) && Inv(c, s) && s.phase == AtPoll && s.rcv.nxt < |s.snd.log|
    ensures var t := Next(c, s, PollTimeout);
      Inv(c, t) && at < |t.data| && t.data[at].seqNum == s.rcv.nxt && t.rcv == s.rcv
  {
    StepKeeps(c, s, PollTimeout);
    at := |s.data| + (s.rcv.nxt - s.snd.base);
    assert Next(c, s, PollTimeout).data[at] == s.snd.log[s.rcv.nxt];
  }

  /** No such ACK in flight, but not stuck: the resent window contains the packet the receiver expects. */
  lemma ProvokeAck(c: Config, s: State) returns (acts: seq<Action>)
    requires ConfigOk(c) && Inv(c, s) && s.phase == AtTest && s.status == Receiving && !Done(c, s)
    requires !Stuck(c, s) && forall i :: 0 <= i < |s.acks| ==> s.acks[i] <= s.snd.base
    ensures Runs(c, s, acts)
    ensures var t := Exec(c, s, acts);
      && Inv(c, t) && t.phase == AtTest && t.status == Receiving && t.snd.base == s.snd.base && !Done(c, t)
      && |t.acks| > 0 && t.acks[|t.acks| - 1] > t.snd.base
  {
    var s1 := Next(c, s, SendMore);
    StepKeeps(c, s, SendMore);
    var s2 := Next(c, s1, PollTimeout);
    var at := ExpectedResent(c, s1);
    BasicKeeps(c.msg, |s2.snd.log|, s2.rcv, c.wr, s2.data[at]);
    StepKeeps(c, s2, Deliver(at));
    acts := [SendMore, PollTimeout] + [Deliver(at)];
    RunsTwo(c, s, SendMore, PollTimeout);
    RunsOne(c, s2, Deliver(at));
    RunsAppend(c, s, [SendMore, PollTimeout], [Deliver(at)]);
  }

  lemma {:induction false} CompleteFrom(c: Config, s: State) returns (acts: seq<Action>)
    requires ConfigOk(c) && Inv(c, s) && s.phase == AtTest && s.status == Receiving && !Stuck(c, s)
    ensures Runs(c, s, acts) && Done(c, Exec(c, s, acts))
    decreases |c.msg| - s.snd.base
  {
    if Done(c, s) {
      acts := [];
    } else {
      var first: seq<Action> := [];
      if forall i :: 0 <= i < |s.acks| ==> s.acks[i] <= s.snd.base {
        first := ProvokeAck(c, s);
      }
      var t := Exec(c, s, first);
      var i :| 0 <= i < |t.acks| && t.acks[i] > t.snd.base;
      var second := TakeAck(c, t, i);
      var third := CompleteFrom(c, Exec(c, t, second));
      RunsAppend(c, t, second, third);
      RunsAppend(c, s, first, second + third);
      acts := first + (second + third);
    }
  }

  /** Some continuation ends the sender's loop normally. */
  ghost predicate CanComplete(c: Config, s: State) {
    exists acts :: Runs(c, s, acts) && Done(c, Exec(c, s, acts))
  }

  lemma CompleteFromAny(c: Config, s: State)
    requires ConfigOk(c) && Inv(c, s) && s.phase != Ended && s.status == Receiving && !Stuck(c, s)
    ensures CanComplete(c, s)
  {
    if s.phase == AtTest {
      var acts := CompleteFrom(c, s);
      assert Runs(c, s, acts);
    } else {
      var t := Next(c, s, PollTimeout);
      StepKeeps(c, s, PollTimeout);
      var acts := CompleteFrom(c, t);
      assert ([PollTimeout] + acts)[1..] == acts;
      assert Runs(c, s, [PollTimeout] + acts);
    }
  }

  /** From any reachable state with both ends still at work, the transfer can complete if and only if it
      is not stuck. */
  lemma CompletesUnlessStuck(c: Config, past: seq<Action>)
    requires ConfigOk(c) && Runs(c, INIT, past)
    requires var s := Exec(c, INIT, past); s.phase != Ended && s.status == Receiving && !Done(c, s)
    ensures var s := Exec(c, INIT, past); CanComplete(c, s) <==> !Stuck(c, s)
  {
    var s := Exec(c, INIT, past);
    RunKeeps(c, INIT, past);
    if Stuck(c, s) {
      forall acts | Runs(c, s, acts)
        ensures !Done(c, Exec(c, s, acts))
      {
        StuckForever(c, s, acts);
      }
    } else {
      CompleteFromAny(c, s);
    }
  }
}
