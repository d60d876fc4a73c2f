/** What the optimised mode can still achieve from a given state. */
module OptProgress {
  import opened Words
  import opened Transfer
  import opened Protocol
  import opened Receiver
  import opened Sender
  import opened OptProtocol

  // ----- Lost for good ----------------------------------------------------------------------------

  /** A non-empty chunk that was never counted lies left of the window. */
  ghost predicate Doomed(c: Config, s: State) {
    exists k :: 0 <= k < s.snd.base && k < ChunkCount(c.msg) && k !in s.snd.acked
  }

  lemma {:induction false} DoomedForever(c: Config, s: State, acts: seq<Action>)
    requires ConfigOk(c) && Inv(c, s) && Doomed(c, s) && Runs(c, s, acts)
    ensures Doomed(c, Exec(c, s, acts)) && !Done(c, Exec(c, s, acts))
    decreases |acts|
  {
    if acts != [] {
      var k :| 0 <= k < s.snd.base && k < ChunkCount(c.msg) && k !in s.snd.acked;
      var t := Next(c, s, acts[0]);
      assert k < t.snd.base && k !in t.snd.acked;
      StepKeeps(c, s, acts[0]);
      DoomedForever(c, t, acts[1..]);
    } else {
      var k :| 0 <= k < s.snd.base && k < ChunkCount(c.msg) && k !in s.snd.acked;
      var n := |s.snd.log|;
      ChunkCountOk(c.msg, k);
      ChunkCountOk(c.msg, n);
      CarriedShort(c.msg, s.snd.acked, n);
    }
  }

  /** A transfer that is neither finished nor doomed has counted everything left of its window. */
  lemma CleanUnlessDoomed(c: Config, s: State)
    requires ConfigOk(c) && Inv(c, s) && !Done(c, s) && !Doomed(c, s)
    ensures Clean(s) && s.snd.base < ChunkCount(c.msg)
  {
    if s.snd.base >= ChunkCount(c.msg) {
      var n := |s.snd.log|;
      assert ChunkCount(c.msg) > 0 ==> ChunkCount(c.msg) - 1 in s.snd.acked;
      CarriedFull(c.msg, s.snd.acked, n);
    }
  }

  // ----- The overshoot is reachable for every window of at least 2 --------------------------------

  /** In the first lap the slot after the last packet is not flagged, so the slide stops there. */
  lemma FirstLapSlide(c: Config, u: State)
    requires ConfigOk(c) && Inv(c, u) && Clean(u) && Enabled(c, u, PollAck(0))
    requires u.acks[0] == u.snd.base && |u.snd.log| == u.snd.base + 1 < c.ws
    ensures Next(c, u, PollAck(0)).snd.base == |u.snd.log| && Clean(Next(c, u, PollAck(0)))
  {
    var n, acked := |u.snd.log|, u.snd.acked + {u.snd.base};
    assert !Flag(n, acked, c.ws, n);
    assert Flag(n, acked, c.ws, n - 1);
    SlideToIs(n, acked, c.ws, n - 1, n, n - 1 + c.ws);
  }

  /** k packets sent one at a time, each acknowledged before the next was sent. */
  ghost predicate InStep(s: State, k: nat) {
    && |s.snd.log| == k == s.rcv.nxt == s.snd.base && s.rcv.held == map[] && Clean(s)
    && s.data == [] && s.acks == [] && s.phase == AtTest && s.status == Receiving
  }

  /** One more packet sent and delivered, its ACK on the way. */
  lemma RoundBegins(c: Config, s: State, k: nat) returns (u: State)
    requires ConfigOk(c) && Inv(c, s) && InStep(s, k) && k < c.ws && |c.msg| > k * PAYLOAD_SIZE
    ensures Enabled(c, s, SendMore) && Enabled(c, Next(c, s, SendMore), Deliver(0))
    ensures u == Next(c, Next(c, s, SendMore), Deliver(0))
    ensures Inv(c, u) && Clean(u) && Enabled(c, u, PollAck(0)) && u.acks == [k]
    ensures u.snd.base == k && u.snd.acked == s.snd.acked && |u.snd.log| == k + 1
    ensures u.rcv.nxt == k + 1 && u.rcv.held == map[] && u.data == [] && u.status == Receiving
  {
    CarriedShort(c.msg, s.snd.acked, k);
    assert !Done(c, s);
    var s1 := Next(c, s, SendMore);
    StepKeeps(c, s, SendMore);
    u := Next(c, s1, Deliver(0));
    StepKeeps(c, s1, Deliver(0));
    ExpectedIsWritten(s1.rcv, c.wr, s1.data[0]);
  }

  lemma RunsRound(c: Config, s: State, u: State) returns (round: seq<Action>)
    requires Enabled(c, s, SendMore) && Enabled(c, Next(c, s, SendMore), Deliver(0))
    requires u == Next(c, Next(c, s, SendMore), Deliver(0)) && Enabled(c, u, PollAck(0))
    ensures Runs(c, s, round) && Faultless(round) && Exec(c, s, round) == Next(c, u, PollAck(0))
  {
    RunsTwo(c, s, SendMore, Deliver(0));
    RunsOne(c, u, PollAck(0));
    RunsAppend(c, s, [SendMore, Deliver(0)], [PollAck(0)]);
    round := [SendMore, Deliver(0)] + [PollAck(0)];
  }

  lemma RoundInLap(c: Config, s: State, k: nat) returns (round: seq<Action>)
    requires ConfigOk(c) && Inv(c, s) && InStep(s, k) && k + 1 < c.ws && |c.msg| > k * PAYLOAD_SIZE
    ensures Runs(c, s, round) && Faultless(round) && InStep(Exec(c, s, round), k + 1)
  {
    var u := RoundBegins(c, s, k);
    FirstLapSlide(c, u);
    round := RunsRound(c, s, u);
  }

  lemma {:induction false} OneAtATime(c: Config, k: nat) returns (acts: seq<Action>)
    requires ConfigOk(c) && k < c.ws && |c.msg| > k * PAYLOAD_SIZE
    ensures Runs(c, INIT, acts) && Faultless(acts) && InStep(Exec(c, INIT, acts), k)
    decreases k
  {
    if k == 0 {
      acts := [];
    } else {
      var past := OneAtATime(c, k - 1);
      RunKeeps(c, INIT, past);
      var round := RoundInLap(c, Exec(c, INIT, past), k - 1);
      RunsAppend(c, INIT, past, round);
      acts := past + round;
    }
  }

  /** The window has overshot, over a chunk that is not empty. */
  ghost predicate Overshot(c: Config, s: State) {
    && s.snd.base > |s.snd.log| == c.ws == s.rcv.nxt && s.rcv.held == map[]
    && s.phase == AtTest && s.status == Receiving && Inv(c, s) && Doomed(c, s)
  }

  lemma RoundOvershoots(c: Config, s: State) returns (round: seq<Action>)
    requires ConfigOk(c) && c.ws >= 2 && |c.msg| > c.ws * PAYLOAD_SIZE
    requires Inv(c, s) && InStep(s, c.ws - 1)
    ensures Runs(c, s, round) && Faultless(round) && Overshot(c, Exec(c, s, round))
  {
    var u := RoundBegins(c, s, c.ws - 1);
    SlideExact(c, u, 0);
    StepKeeps(c, u, PollAck(0));
    round := RunsRound(c, s, u);
    ChunkCountOk(c.msg, c.ws);
    assert c.ws !in Next(c, u, PollAck(0)).snd.acked;
  }

  /** For every window size of at least 2 and every message of more than one window, a run on a network without
      any fault overshoots, and from there no continuation ever completes. */
  lemma DoomReachable(c: Config) returns (acts: seq<Action>)
    requires ConfigOk(c) && c.ws >= 2 && |c.msg| > c.ws * PAYLOAD_SIZE
    ensures Runs(c, INIT, acts) && Faultless(acts) && Overshot(c, Exec(c, INIT, acts))
  {
    var past := OneAtATime(c, c.ws - 1);
    RunKeeps(c, INIT, past);
    var round := RoundOvershoots(c, Exec(c, INIT, past));
    RunsAppend(c, INIT, past, round);
    acts := past + round;
  }

  /** Every non-empty chunk has been counted. */
  ghost predicate NothingLeft(c: Config, s: State) {
    forall k :: 0 <= k < ChunkCount(c.msg) ==> k in s.snd.acked
  }

  lemma NoDoomStep(c: Config, s: State, a: Action)
    requires ConfigOk(c) && Inv(c, s) && Enabled(c, s, a) && ChunkCount(c.msg) <= c.ws
    requires Clean(s) || NothingLeft(c, s)
    ensures var t := Next(c, s, a); Clean(t) || NothingLeft(c, t)
  {
    if Clean(s) {
      CleanStep(c, s, a);
      if a.PollAck? {
        SlideExact(c, s, a.i);
      }
    }
  }

  lemma {:induction false} NoDoomRun(c: Config, s: State, acts: seq<Action>)
    requires ConfigOk(c) && Inv(c, s) && Runs(c, s, acts) && ChunkCount(c.msg) <= c.ws
    requires Clean(s) || NothingLeft(c, s)
    ensures var t := Exec(c, s, acts); Clean(t) || NothingLeft(c, t)
    decreases |acts|
  {
    if acts != [] {
      StepKeeps(c, s, acts[0]);
      NoDoomStep(c, s, acts[0]);
      NoDoomRun(c, Next(c, s, acts[0]), acts[1..]);
    }
  }

  ghost predicate CanBeDoomed(c: Config) {
    exists acts :: Runs(c, INIT, acts) && Doomed(c, Exec(c, INIT, acts))
  }

  /** The exact condition on a transfer: a non-empty chunk can be lost for good if and only if the sender's window
      is at least 2 and the message does not fit one window of full packets. */
  lemma DoomExact(c: Config)
    requires ConfigOk(c)
    ensures CanBeDoomed(c) <==> c.ws >= 2 && |c.msg| > c.ws * PAYLOAD_SIZE
  {
    ChunkCountOk(c.msg, c.ws);
    if c.ws >= 2 && |c.msg| > c.ws * PAYLOAD_SIZE {
      var acts := DoomReachable(c);
      assert Runs(c, INIT, acts);
    } else {
      forall acts | Runs(c, INIT, acts)
        ensures !Doomed(c, Exec(c, INIT, acts))
      {
        if c.ws == 1 {
          SlideBoundary(c, acts);
        } else {
          NoDoomRun(c, INIT, acts);
        }
      }
    }
  }

  // ----- How far the numbers go -------------------------------------------------------------------

  ghost predicate Short(c: Config, s: State) {
    |s.snd.log| < ChunkCount(c.msg) + c.ws
  }

  lemma ShortStep(c: Config, s: State, a: Action)
    requires ConfigOk(c) && Inv(c, s) && Clean(s) && Short(c, s) && Enabled(c, s, a)
    ensures Short(c, Next(c, s, a))
  {
    if a.SendMore? {
      CleanUnlessDoomed(c, s);
    }
  }

  lemma {:induction false} ShortRun(c: Config, s: State, acts: seq<Action>)
    requires ConfigOk(c) && Inv(c, s) && Short(c, s) && Runs(c, s, acts) && Clean(Exec(c, s, acts))
    ensures Short(c, Exec(c, s, acts))
    decreases |acts|
  {
    if acts != [] {
      if !Clean(s) {
        StaysUnclean(c, s, acts);
      }
      ShortStep(c, s, acts[0]);
      StepKeeps(c, s, acts[0]);
      ShortRun(c, Next(c, s, acts[0]), acts[1..]);
    }
  }

  /** Each action sends at most one packet for the first time, and a slide passes at most one lap. */
  lemma {:induction false} GrowsSlowly(c: Config, s: State, acts: seq<Action>)
    requires ConfigOk(c) && Inv(c, s) && Runs(c, s, acts) && s.snd.base <= |s.snd.log| + c.ws
    ensures var t := Exec(c, s, acts); |t.snd.log| <= |s.snd.log| + |acts| && t.snd.base <= |t.snd.log| + c.ws
    decreases |acts|
  {
    if acts != [] {
      StepKeeps(c, s, acts[0]);
      GrowsSlowly(c, Next(c, s, acts[0]), acts[1..]);
    }
  }

  /** As long as no ACK has overshot, all numbers and window sums stay far below 2^31, so unbounded numbers model
      the program's 32-bit arithmetic exactly. After an overshoot they grow no faster than the run. */
  lemma OptNoWrapAround(c: Config, acts: seq<Action>)
    requires ConfigOk(c) && Runs(c, INIT, acts)
    ensures var s := Exec(c, INIT, acts);
      && (NeverOvershoots(c, INIT, acts) ==> s.snd.base <= |s.snd.log| < 0x8000_0000 - c.ws - c.wr)
      && |s.snd.log| <= |acts| && s.snd.base <= |acts| + c.ws
      && forall i :: 0 <= i < |s.acks| ==> s.acks[i] < |s.snd.log|
  {
    RunKeeps(c, INIT, acts);
    GrowsSlowly(c, INIT, acts);
    SlideBoundary(c, acts);
    if NeverOvershoots(c, INIT, acts) {
      ShortRun(c, INIT, acts);
      assert ChunkCount(c.msg) <= |c.msg| / PAYLOAD_SIZE + 1;
    }
  }

  // ----- Out of the receiver's reach --------------------------------------------------------------

  /** A non-empty chunk of the window is still to be counted, its ACK is not on the way, and the receiver is so
      far ahead that another copy of it would make it abort. */
  ghost predicate StrandedAt(c: Config, s: State, k: nat) {
    && s.snd.base <= k < |s.snd.log| && k < ChunkCount(c.msg) && k !in s.snd.acked
    && k + c.wr < s.rcv.nxt
    && forall i :: 0 <= i < |s.acks| ==> s.acks[i] != k
  }

  ghost predicate Stranded(c: Config, s: State) {
    exists k :: StrandedAt(c, s, k)
  }

  lemma StrandedStep(c: Config, s: State, a: Action, k: nat)
    requires ConfigOk(c) && Inv(c, s) && Enabled(c, s, a) && StrandedAt(c, s, k)
    ensures StrandedAt(c, Next(c, s, a), k)
  {
    if a.PollAck? && s.acks[a.i] == s.snd.base {
      var n, acked := |s.snd.log|, s.snd.acked + {s.snd.base};
      assert !Flag(n, acked, c.ws, k);
    } else if a.Deliver? {
      OptKeeps(c.msg, |s.snd.log|, s.rcv, c.wr, s.data[a.i]);
    }
  }

  lemma {:induction false} StrandedForever(c: Config, s: State, acts: seq<Action>, k: nat)
    requires ConfigOk(c) && Inv(c, s) && StrandedAt(c, s, k) && Runs(c, s, acts)
    ensures StrandedAt(c, Exec(c, s, acts), k) && !Done(c, Exec(c, s, acts))
    decreases |acts|
  {
    if acts == [] {
      ChunkCountOk(c.msg, k);
      CarriedShort(c.msg, s.snd.acked, |s.snd.log|);
    } else {
      StrandedStep(c, s, acts[0], k);
      StepKeeps(c, s, acts[0]);
      StrandedForever(c, Next(c, s, acts[0]), acts[1..], k);
    }
  }

  /** A receiver window at least the sender's strands nothing. */
  lemma NeverStranded(c: Config, s: State)
    requires ConfigOk(c) && Inv(c, s) && c.ws <= c.wr
    ensures !Stranded(c, s)
  {
  }

  // ----- Otherwise the transfer can complete ------------------------------------------------------

  ghost predicate Going(c: Config, s: State) {
    Inv(c, s) && Clean(s) && !Stranded(c, s) && s.phase == AtTest && s.status == Receiving
  }

  /** A loop pass that sends one packet: what it sends is not out of reach. */
  lemma SendGoes(c: Config, s: State)
    requires ConfigOk(c) && Going(c, s) && !Done(c, s)
    ensures var t := Next(c, s, SendMore);
      && Inv(c, t) && Clean(t) && !Stranded(c, t) && t.status == Receiving && t.phase == AtPoll && !Done(c, t)
      && t.snd.base == s.snd.base && t.acks == s.acks && t.rcv == s.rcv
      && |t.snd.log| == Min(|s.snd.log| + 1, s.snd.base + c.ws)
      && (|s.snd.log| == s.snd.base + c.ws ==> t.snd == s.snd && t.data == s.data)
  {
    var t := Next(c, s, SendMore);
    StepKeeps(c, s, SendMore);
    CleanStep(c, s, SendMore);
    forall k: nat | StrandedAt(c, t, k)
      ensures StrandedAt(c, s, k)
    {
    }
  }

  /** The poll that ends the pass finds nothing and the timer expired. */
  lemma PollGoes(c: Config, s: State)
    requires ConfigOk(c) && Inv(c, s) && Clean(s) && !Stranded(c, s) && s.status == Receiving && s.phase == AtPoll
    ensures var t := Next(c, s, PollTimeout);
      Going(c, t) && t.snd == s.snd && t.rcv == s.rcv && t.acks == s.acks
  {
    StepKeeps(c, s, PollTimeout);
    forall k: nat | StrandedAt(c, Next(c, s, PollTimeout), k)
      ensures StrandedAt(c, s, k)
    {
    }
  }

  /** Loop passes that only send, until the window is full. */
  lemma {:induction false} FillWindow(c: Config, s: State) returns (acts: seq<Action>)
    requires ConfigOk(c) && Going(c, s) && !Done(c, s)
    ensures Runs(c, s, acts)
    ensures var t := Exec(c, s, acts);
      && Going(c, t) && !Done(c, t) && t.snd.base == s.snd.base && |t.snd.log| == t.snd.base + c.ws
    decreases s.snd.base + c.ws - |s.snd.log|
  {
    if |s.snd.log| == s.snd.base + c.ws {
      acts := [];
    } else {
      SendGoes(c, s);
      PollGoes(c, Next(c, s, SendMore));
      RunsTwo(c, s, SendMore, PollTimeout);
      var rest := FillWindow(c, Next(c, Next(c, s, SendMore), PollTimeout));
      RunsAppend(c, s, [SendMore, PollTimeout], rest);
      acts := [SendMore, PollTimeout] + rest;
    }
  }

  /** Another copy of the base packet is acknowledged, whether the receiver was waiting for it or wrote it long
      ago, if and only if the receiver is at most one of its own windows ahead; otherwise it aborts. */
  lemma BaseAcknowledged(c: Config, s: State, at: nat)
    requires ConfigOk(c) && Inv(c, s) && Clean(s) && s.status == Receiving
    requires at < |s.data| && s.data[at].seqNum == s.snd.base
    ensures var t := Next(c, s, Deliver(at));
      && t.snd == s.snd && t.phase == s.phase
      && if s.rcv.nxt <= s.snd.base + c.wr
         then t.status == Receiving && t.acks == s.acks + [s.snd.base] && t.rcv.nxt <= s.snd.base + c.wr
         else t.status == Aborted && t.acks == s.acks && t.rcv == s.rcv
  {
    assert s.rcv.nxt < s.snd.base ==> Has(s.rcv, s.rcv.nxt);
    if s.rcv.nxt == s.snd.base {
      FlushDelivers(Insert(s.rcv, s.data[at]), c.wr);
    }
  }

  /** A timeout puts the base packet back on the wire, right behind what is there. */
  lemma BaseResent(c: Config, s: State)
    requires ConfigOk(c) && Inv(c, s) && s.phase == AtPoll && s.snd.base < |s.snd.log|
    ensures var t := Next(c, s, PollTimeout);
      |s.data| < |t.data| && t.data[|s.data|].seqNum == s.snd.base
  {
  }

  lemma ResendBase(c: Config, s: State) returns (acts: seq<Action>)
    requires ConfigOk(c) && Going(c, s) && !Done(c, s)
    requires |s.snd.log| == s.snd.base + c.ws && s.rcv.nxt <= s.snd.base + c.wr
    ensures Runs(c, s, acts)
    ensures var t := Exec(c, s, acts);
      && Going(c, t) && t.snd == s.snd && |t.acks| > 0 && t.acks[|t.acks| - 1] == t.snd.base
  {
    var at := |s.data|;
    SendGoes(c, s);
    var s1 := Next(c, s, SendMore);
    BaseResent(c, s1);
    var s2 := Next(c, s1, PollTimeout);
    StepKeeps(c, s1, PollTimeout);
    BaseAcknowledged(c, s2, at);
    StepKeeps(c, s2, Deliver(at));
    RunsTwo(c, s, SendMore, PollTimeout);
    RunsOne(c, s2, Deliver(at));
    acts := [SendMore, PollTimeout] + [Deliver(at)];
    RunsAppend(c, s, [SendMore, PollTimeout], [Deliver(at)]);
  }

  /** Unless it is stranded, the base packet has its ACK in flight or can still be acknowledged. */
  lemma ObtainBaseAck(c: Config, s: State) returns (acts: seq<Action>, i: nat)
    requires ConfigOk(c) && Going(c, s) && !Done(c, s) && |s.snd.log| == s.snd.base + c.ws
    requires s.snd.base < ChunkCount(c.msg)
    ensures Runs(c, s, acts)
    ensures var t := Exec(c, s, acts);
      Going(c, t) && t.snd == s.snd && i < |t.acks| && t.acks[i] == t.snd.base
  {
    if s.rcv.nxt <= s.snd.base + c.wr {
      acts := ResendBase(c, s);
      i := |Exec(c, s, acts).acks| - 1;
    } else {
      assert !StrandedAt(c, s, s.snd.base);
      i :| 0 <= i < |s.acks| && s.acks[i] == s.snd.base;
      acts := [];
    }
  }

  /** Taking that ACK with a full window slides it without overshooting. */
  lemma TakeBaseAck(c: Config, s: State, i: nat) returns (acts: seq<Action>)
    requires ConfigOk(c) && Going(c, s) && !Done(c, s) && |s.snd.log| == s.snd.base + c.ws
    requires i < |s.acks| && s.acks[i] == s.snd.base
    ensures Runs(c, s, acts)
    ensures var t := Exec(c, s, acts); Going(c, t) && t.snd.base > s.snd.base
  {
    SendGoes(c, s);
    var s1 := Next(c, s, SendMore);
    var t := Next(c, s1, PollAck(i));
    SlideExact(c, s1, i);
    StepKeeps(c, s1, PollAck(i));
    assert Flag(|s1.snd.log|, s1.snd.acked + {s1.snd.base}, c.ws, s1.snd.base);
    forall k: nat | StrandedAt(c, t, k)
      ensures StrandedAt(c, s1, k)
    {
      StrandedBefore(c, s1, i, k);
    }
    RunsTwo(c, s, SendMore, PollAck(i));
    acts := [SendMore, PollAck(i)];
  }

  /** Taking an ACK strands nothing: only the ACK of a packet counted by it leaves the wire. */
  lemma StrandedBefore(c: Config, s: State, i: nat, k: nat)
    requires ConfigOk(c) && Inv(c, s) && Enabled(c, s, PollAck(i)) && s.acks[i] == s.snd.base
    requires StrandedAt(c, Next(c, s, PollAck(i)), k)
    ensures StrandedAt(c, s, k)
  {
    var t := Next(c, s, PollAck(i));
    assert s.snd.base in t.snd.acked;
    forall j | 0 <= j < |s.acks|
      ensures s.acks[j] != k
    {
      if j != i {
        assert t.acks[if j < i then j else j - 1] == s.acks[j];
      }
    }
  }

  lemma {:induction false} CompleteFrom(c: Config, s: State) returns (acts: seq<Action>)
    requires ConfigOk(c) && Going(c, s)
    ensures Runs(c, s, acts) && Done(c, Exec(c, s, acts))
    decreases ChunkCount(c.msg) - s.snd.base
  {
    if Done(c, s) {
      acts := [];
    } else {
      CleanUnlessDoomed(c, s);
      var first := FillWindow(c, s);
      var s1 := Exec(c, s, first);
      var second, i := ObtainBaseAck(c, s1);
      var s2 := Exec(c, s1, second);
      var third := TakeBaseAck(c, s2, i);
      var fourth := CompleteFrom(c, Exec(c, s2, third));
      RunsAppend(c, s2, third, fourth);
      RunsAppend(c, s1, second, third + fourth);
      RunsAppend(c, s, first, second + (third + fourth));
      acts := first + (second + (third + fourth));
    }
  }

  ghost predicate CanComplete(c: Config, s: State) {
    exists acts :: Runs(c, s, acts) && Done(c, Exec(c, s, acts))
  }

  lemma CompleteFromAny(c: Config, s: State)
    requires ConfigOk(c) && Inv(c, s) && Clean(s) && !Stranded(c, s)
    requires s.phase != Ended && s.status == Receiving
    ensures CanComplete(c, s)
  {
    if s.phase == AtTest {
      var acts := CompleteFrom(c, s);
      assert Runs(c, s, acts);
    } else {
      PollGoes(c, s);
      var acts := CompleteFrom(c, Next(c, s, PollTimeout));
      assert ([PollTimeout] + acts)[1..] == acts;
      assert Runs(c, s, [PollTimeout] + acts);
    }
  }

  /** Both ends are still at work, and the transfer is not finished. */
  ghost predicate Working(c: Config, s: State) {
    s.phase != Ended && s.status == Receiving && !Done(c, s)
  }

  lemma LostForGood(c: Config, s: State)
    requires ConfigOk(c) && Inv(c, s) && (Doomed(c, s) || Stranded(c, s))
    ensures !CanComplete(c, s)
  {
    forall acts | Runs(c, s, acts)
      ensures !Done(c, Exec(c, s, acts))
    {
      if Doomed(c, s) {
        DoomedForever(c, s, acts);
      } else {
        var k :| StrandedAt(c, s, k);
        StrandedForever(c, s, acts, k);
      }
    }
  }

  /** From any reachable state with both ends still at work, for any two windows: the transfer can complete if
      and only if no non-empty chunk was slid past without being counted, and none is out of the receiver's reach. */
  lemma CompletesUnlessLost(c: Config, past: seq<Action>)
    requires ConfigOk(c) && Runs(c, INIT, past) && Working(c, Exec(c, INIT, past))
    ensures var s := Exec(c, INIT, past); CanComplete(c, s) <==> !Doomed(c, s) && !Stranded(c, s)
  {
    var s := Exec(c, INIT, past);
    RunKeeps(c, INIT, past);
    if Doomed(c, s) || Stranded(c, s) {
      LostForGood(c, s);
    } else {
      CleanUnlessDoomed(c, s);
      CompleteFromAny(c, s);
    }
  }
}
