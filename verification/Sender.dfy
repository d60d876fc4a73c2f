/** The sending end of lab2-rtp/Lab2-RTP/src/sender_def.c, basic mode (cumulative ACKs) and optimised mode
    (one ACK per packet), each with its ring of recent packets. */
module Sender {
  import opened Words
  import opened Transfer
  import opened Ring

  // ----- Both modes: filling the window ---------------------------------------------------------

  /** Packets sent so far by sequence number, left edge of the window, bytes counted as delivered, and
      the position in the input file. The next sequence number is |log|. */
  datatype Basic = Basic(log: seq<Packet>, base: nat, sent: nat, pos: nat)

  /** As Basic, with the sequence numbers whose ACK has been counted. */
  datatype Opt = Opt(log: seq<Packet>, base: nat, acked: set<nat>, sent: nat, pos: nat)

  function NextPacket(msg: seq<byte>, log: seq<Packet>, pos: nat): Packet
    requires pos <= |msg|
  {
    Packet(|log|, ReadFrom(msg, pos))
  }

  // ----- Basic mode -----------------------------------------------------------------------------

  function Fill(s: Basic, msg: seq<byte>, w: nat): (Basic, seq<Packet>)
    requires s.pos <= |msg|
  {
    if |s.log| < w + s.base then
      var pkt := NextPacket(msg, s.log, s.pos);
      (s.(log := s.log + [pkt], pos := s.pos + |pkt.payload|), [pkt])
    else (s, [])
  }

  /** Count n more packets as delivered, the last one possibly short. */
  function Credit(sent: nat, n: nat, len: nat): nat
    requires sent <= len
    decreases n
  {
    if n == 0 then sent
    else if len - sent < PAYLOAD_SIZE then Credit(len, n - 1, len)
    else Credit(sent + PAYLOAD_SIZE, n - 1, len)
  }

  function OnAck(s: Basic, len: nat, ack: nat): Basic
    requires s.sent <= len
  {
    if ack > s.base then s.(base := ack, sent := Credit(s.sent, ack - s.base, len)) else s
  }

  /** What a timeout sends again. */
  function Resend(s: Basic): seq<Packet> {
    if s.base <= |s.log| then s.log[s.base..] else []
  }

  lemma {:induction false} CreditIs(sent: nat, n: nat, len: nat)
    requires sent <= len
    ensures Credit(sent, n, len) == Min(len, sent + n * PAYLOAD_SIZE)
    decreases n
  {
    if n > 0 {
      CreditIs(if len - sent < PAYLOAD_SIZE then len else sent + PAYLOAD_SIZE, n - 1, len);
    }
  }

  /** Local state of sendMessage. */
  class BasicSender {
    const msg: seq<byte>
    const cacheSize: nat
    const buffer: array<Packet>
    var p: nat
    var sendBase: nat
    var nxtSeqNum: nat
    var sent: nat
    var pos: nat
    ghost var log: seq<Packet>

    /** p == send_base mod cacheSize, and every packet of the window is in its slot. */
    ghost predicate Valid()
      reads this, buffer
    {
      && 1 <= cacheSize <= MAX_WINDOW_SIZE == buffer.Length
      && p == Slot(sendBase, cacheSize)
      && sendBase <= nxtSeqNum == |log| <= sendBase + cacheSize
      && sent <= |msg| && pos <= |msg|
      && (forall k :: 0 <= k < |log| ==> log[k].seqNum == k)
      && (forall k :: sendBase <= k < |log| ==> buffer[Slot(k, cacheSize)] == log[k])
    }

    ghost function View(): Basic
      reads this
    {
      Basic(log, sendBase, sent, pos)
    }

    constructor (message: seq<byte>, windowSize: nat)
      requires 1 <= windowSize <= MAX_WINDOW_SIZE
      ensures Valid() && View() == Basic([], 0, 0, 0) && msg == message && cacheSize == windowSize
      ensures fresh(buffer) && buffer.Length == 1024
    {
      msg, cacheSize := message, windowSize;
      buffer := new Packet[MAX_WINDOW_SIZE](_ => Packet(0, []));
      p, sendBase, nxtSeqNum, sent, pos, log := 0, 0, 0, 0, 0, [];
    }

    /** cachePkt, called with the current send_base. */
    method CachePkt(pkt: Packet)
      requires Valid() && pkt.seqNum == nxtSeqNum < sendBase + cacheSize
      modifies buffer
      ensures buffer[Slot(pkt.seqNum, cacheSize)] == pkt
      ensures forall k :: sendBase <= k < |log| ==> buffer[Slot(k, cacheSize)] == log[k]
    {
      var place := Index(p, pkt.seqNum - sendBase, cacheSize, sendBase);
      buffer[place] := pkt;
      SlotAlone(sendBase, pkt.seqNum, cacheSize);
    }

    /** The head of the loop: send one more packet if the window has room. */
    method TryFill() returns (out: seq<Packet>)
      requires Valid()
      modifies this, buffer
      ensures Valid() && (View(), out) == Fill(old(View()), msg, cacheSize)
      ensures old(nxtSeqNum) >= sendBase + cacheSize ==> out == [] && View() == old(View())
      ensures old(nxtSeqNum) < sendBase + cacheSize ==>
                var payload := msg[old(pos)..Min(old(pos) + 1461, |msg|)];
                && out == [Packet(old(nxtSeqNum), payload)] && log == old(log) + out
                && pos == old(pos) + |payload| && sendBase == old(sendBase) && sent == old(sent)
    {
      out := [];
      if nxtSeqNum < cacheSize + sendBase {
        var payload := ReadFrom(msg, pos);
        pos := pos + |payload|;
        var pkt := Packet(nxtSeqNum, payload);
        out := [pkt];
        CachePkt(pkt);
        nxtSeqNum := nxtSeqNum + 1;
        log := log + [pkt];
      }
    }

    /** A genuine ACK: slide the window and count the packets it covers. */
    method HandleAck(ack: nat)
      requires Valid() && ack <= nxtSeqNum
      modifies this
      ensures Valid() && View() == OnAck(old(View()), |msg|, ack)
      ensures sendBase == (if ack > old(sendBase) then ack else old(sendBase)) && log == old(log) && pos == old(pos)
      ensures sent == Min(|msg|, old(sent) + 1461 * (sendBase - old(sendBase)))
    {
      if ack > sendBase {
        var ackedPkt := ack - sendBase;
        p := Index(p, ackedPkt, cacheSize, sendBase);
        sendBase := ack;
        CreditIs(sent, ackedPkt, |msg|);
        CountDelivered(ackedPkt);
      }
    }

    method CountDelivered(n: nat)
      requires sent <= |msg|
      modifies this`sent
      ensures sent <= |msg| && sent == Credit(old(sent), n, |msg|)
    {
      for j := 0 to n
        invariant sent <= |msg|
        invariant Credit(sent, n - j, |msg|) == Credit(old(sent), n, |msg|)
      {
        if |msg| - sent < PAYLOAD_SIZE {
          sent := sent + (|msg| - sent);
        } else {
          sent := sent + PAYLOAD_SIZE;
        }
      }
    }

    /** A timeout: the whole window goes out again, in order. The sequence test filters nothing. */
    method OnTimeout() returns (out: seq<Packet>)
      requires Valid()
      ensures out == Resend(View())
      ensures |out| == nxtSeqNum - sendBase
      ensures forall i :: 0 <= i < |out| ==> out[i].seqNum == sendBase + i && out[i] == log[sendBase + i]
    {
      out := [];
      var resendNum := nxtSeqNum - sendBase;
      for ii := 0 to resendNum
        invariant out == log[sendBase..sendBase + ii]
      {
        var slot := Index(p, ii, cacheSize, sendBase);
        var pktSeq := buffer[slot].seqNum;
        assert buffer[slot] == log[sendBase + ii];
        if pktSeq < nxtSeqNum && pktSeq >= sendBase {
          out := out + [buffer[slot]];
        }
      }
    }
  }

  // ----- Optimised mode -------------------------------------------------------------------------

  function FillOpt(s: Opt, msg: seq<byte>, w: nat): (Opt, seq<Packet>)
    requires s.pos <= |msg|
  {
    if |s.log| < w + s.base then
      var pkt := NextPacket(msg, s.log, s.pos);
      (s.(log := s.log + [pkt], pos := s.pos + |pkt.payload|), [pkt])
    else (s, [])
  }

  /** What the is_acked flag in the slot of k says when n packets have been sent: the flag of the latest
      packet put there, which is a packet of an earlier lap when k has not been sent yet. */
  function Flag(n: nat, acked: set<nat>, w: nat, k: nat): bool
    requires w > 0
    decreases k
  {
    if k < n then k in acked else k >= w && Flag(n, acked, w, k - w)
  }

  /** Where the slide loop stops: the first slot from k on that is not flagged, or `bound`. */
  function SlideTo(n: nat, acked: set<nat>, w: nat, k: nat, bound: nat): (b: nat)
    requires w > 0
    ensures k <= b && (k <= bound ==> b <= bound)
    ensures forall j :: k <= j < b ==> Flag(n, acked, w, j)
    ensures b < bound ==> !Flag(n, acked, w, b)
    decreases bound - k
  {
    if k < bound && Flag(n, acked, w, k) then SlideTo(n, acked, w, k + 1, bound) else k
  }

  lemma {:induction false} SlideToIs(n: nat, acked: set<nat>, w: nat, k: nat, b: nat, bound: nat)
    requires w > 0 && k <= b <= bound
    requires forall j :: k <= j < b ==> Flag(n, acked, w, j)
    requires b == bound || !Flag(n, acked, w, b)
    ensures SlideTo(n, acked, w, k, bound) == b
    decreases bound - k
  {
    if k < b {
      SlideToIs(n, acked, w, k + 1, b, bound);
    }
  }

  function OnAckOpt(s: Opt, w: nat, ack: nat): Opt
    requires w > 0 && ack < |s.log|
  {
    if s.base <= ack < w + s.base && ack !in s.acked then
      var acked := s.acked + {ack};
      s.(acked := acked,
         sent := s.sent + |s.log[ack].payload|,
         base := if ack == s.base then SlideTo(|s.log|, acked, w, s.base, s.base + w) else s.base)
    else s
  }

  /** The packets of the window still waiting for an ACK, from k on. */
  function Unacked(log: seq<Packet>, acked: set<nat>, k: nat): seq<Packet>
    decreases |log| - k
  {
    if k >= |log| then []
    else (if k in acked then [] else [log[k]]) + Unacked(log, acked, k + 1)
  }

  function ResendOpt(s: Opt): seq<Packet> {
    Unacked(s.log, s.acked, s.base)
  }

  lemma {:induction false} UnackedUpTo(log: seq<Packet>, acked: set<nat>, from: nat, k: nat)
    requires from <= k < |log|
    ensures Unacked(log[..k + 1], acked, from)
         == Unacked(log[..k], acked, from) + if k in acked then [] else [log[k]]
    decreases k - from
  {
    if from < k {
      UnackedUpTo(log, acked, from + 1, k);
    } else {
      assert Unacked(log[..k + 1], acked, k + 1) == [];
    }
  }

  lemma {:induction false} UnackedFrom(log: seq<Packet>, acked: set<nat>, k: nat)
    requires forall j :: 0 <= j < |log| ==> log[j].seqNum == j
    ensures forall i :: 0 <= i < |Unacked(log, acked, k)| ==>
      var e := Unacked(log, acked, k)[i]; k <= e.seqNum < |log| && e == log[e.seqNum] && e.seqNum !in acked
    decreases |log| - k
  {
    if k < |log| {
      UnackedFrom(log, acked, k + 1);
    }
  }

  /** A timeout leaves out no packet of the window that has not been counted... */
  lemma {:induction false} UnackedComplete(log: seq<Packet>, acked: set<nat>, k: nat, j: nat)
    requires k <= j < |log| && j !in acked
    ensures log[j] in Unacked(log, acked, k)
    decreases j - k
  {
    if k < j {
      UnackedComplete(log, acked, k + 1, j);
    }
  }

  ghost predicate Ascending(out: seq<Packet>) {
    forall i, j :: 0 <= i < j < |out| ==> out[i].seqNum < out[j].seqNum
  }

  /** ... and sends them in ascending order. */
  lemma {:induction false} UnackedAscending(log: seq<Packet>, acked: set<nat>, k: nat)
    requires forall j :: 0 <= j < |log| ==> log[j].seqNum == j
    ensures Ascending(Unacked(log, acked, k))
    decreases |log| - k
  {
    if k < |log| {
      var out, rest := Unacked(log, acked, k), Unacked(log, acked, k + 1);
      UnackedFrom(log, acked, k + 1);
      UnackedAscending(log, acked, k + 1);
      assert out == if k in acked then rest else [log[k]] + rest;
    }
  }

  lemma UnackedIs(log: seq<Packet>, acked: set<nat>, k: nat)
    requires forall j :: 0 <= j < |log| ==> log[j].seqNum == j
    ensures var out := Unacked(log, acked, k);
      && Ascending(out)
      && (forall i :: 0 <= i < |out| ==>
            k <= out[i].seqNum < |log| && out[i] == log[out[i].seqNum] && out[i].seqNum !in acked)
      && forall j :: k <= j < |log| && j !in acked ==> log[j] in out
  {
    UnackedFrom(log, acked, k);
    UnackedAscending(log, acked, k);
    forall j | k <= j < |log| && j !in acked
      ensures log[j] in Unacked(log, acked, k)
    {
      UnackedComplete(log, acked, k, j);
    }
  }

  /** Local state of sendMessageOpt. */
  class OptSender {
    const msg: seq<byte>
    const cacheSize: nat
    const buffer: array<Packet>
    const isAcked: array<bool>
    var p: nat
    var sendBase: nat
    var nxtSeqNum: nat
    var sent: nat
    var pos: nat
    ghost var log: seq<Packet>
    ghost var acked: set<nat>

    ghost predicate Shape()
      reads this
    {
      && 1 <= cacheSize <= MAX_WINDOW_SIZE == buffer.Length == isAcked.Length
      && p == Slot(sendBase, cacheSize)
      && nxtSeqNum == |log| <= sendBase + cacheSize
      && pos <= |msg|
      && (forall k :: 0 <= k < |log| ==> log[k].seqNum == k)
      && (forall k :: k in acked ==> k < |log|)
    }

    /** The last lap of packets sent: contents and flags are their own. */
    ghost predicate LastLap()
      requires Shape()
      reads this, buffer, isAcked
    {
      forall k :: 0 <= k < |log| < k + cacheSize + 1 ==>
        buffer[Slot(k, cacheSize)] == log[k] && (isAcked[Slot(k, cacheSize)] <==> k in acked)
    }

    /** Slots never used are not flagged, and no slot holds a packet not sent yet. */
    ghost predicate Untouched()
      requires Shape()
      reads this, buffer, isAcked
    {
      && (forall k :: |log| <= k < cacheSize ==> !isAcked[k])
      && (forall k :: 0 <= k < cacheSize ==> buffer[k].seqNum <= |log|)
    }

    ghost predicate Valid()
      reads this, buffer, isAcked
    {
      Shape() && LastLap() && Untouched()
    }

    ghost function View(): Opt
      reads this
    {
      Opt(log, sendBase, acked, sent, pos)
    }

    constructor (message: seq<byte>, windowSize: nat)
      requires 1 <= windowSize <= MAX_WINDOW_SIZE
      ensures Valid() && View() == Opt([], 0, {}, 0, 0) && msg == message && cacheSize == windowSize
      ensures fresh(buffer) && buffer.Length == 1024 && fresh(isAcked)
    {
      msg, cacheSize := message, windowSize;
      buffer := new Packet[MAX_WINDOW_SIZE](_ => Packet(0, []));
      isAcked := new bool[MAX_WINDOW_SIZE](_ => false);
      p, sendBase, nxtSeqNum, sent, pos, log, acked := 0, 0, 0, 0, 0, [], {};
    }

    /** The head of the loop: refilling a slot clears its flag. */
    method TryFill() returns (out: seq<Packet>)
      requires Valid()
      modifies this, buffer, isAcked
      ensures Valid() && (View(), out) == FillOpt(old(View()), msg, cacheSize)
      ensures old(nxtSeqNum) >= sendBase + cacheSize ==> out == [] && View() == old(View())
      ensures old(nxtSeqNum) < sendBase + cacheSize ==>
                var payload := msg[old(pos)..Min(old(pos) + 1461, |msg|)];
                && out == [Packet(old(nxtSeqNum), payload)] && log == old(log) + out
                && pos == old(pos) + |payload|
                && sendBase == old(sendBase) && sent == old(sent) && acked == old(acked)
    {
      out := [];
      if nxtSeqNum < cacheSize + sendBase {
        var payload := ReadFrom(msg, pos);
        pos := pos + |payload|;
        var pkt := Packet(nxtSeqNum, payload);
        out := [pkt];
        SlotIsMod(nxtSeqNum, cacheSize);
        PutPacket(nxtSeqNum % cacheSize, pkt);
      }
    }

    method PutPacket(place: nat, pkt: Packet)
      requires Valid() && |log| < sendBase + cacheSize
      requires place == Slot(|log|, cacheSize) && pkt.seqNum == |log|
      modifies this`nxtSeqNum, this`log, buffer, isAcked
      ensures Valid() && log == old(log) + [pkt]
    {
      ghost var n := |log|;
      buffer[place] := pkt;
      isAcked[place] := false;
      nxtSeqNum := nxtSeqNum + 1;
      log := log + [pkt];
      forall k: nat | k < n < k + cacheSize
        ensures Slot(k, cacheSize) != place
      {
        SlotDistinct(k, n, cacheSize);
      }
    }

    /** A genuine ACK. Flags are read for a whole lap, also past nxt_seq_num. */
    method HandleAck(ack: nat)
      requires Valid() && ack < nxtSeqNum
      modifies this, isAcked
      ensures Valid() && View() == OnAckOpt(old(View()), cacheSize, ack)
      ensures !(old(sendBase) <= ack < old(sendBase) + cacheSize) || ack in old(acked) ==> View() == old(View())
      ensures old(sendBase) <= ack < old(sendBase) + cacheSize && ack !in old(acked) ==>
                && acked == old(acked) + {ack} && sent == old(sent) + |log[ack].payload|
                && log == old(log) && pos == old(pos)
                && if ack == old(sendBase) then SlidFrom(old(sendBase)) else sendBase == old(sendBase)
    {
      if ack >= sendBase && ack < cacheSize + sendBase {
        SlotIsMod(ack, cacheSize);
        if !isAcked[ack % cacheSize] {
          MarkAcked(ack % cacheSize, ack);
          sent := sent + |buffer[ack % cacheSize].payload|;
          if ack == sendBase {
            MoveBase();
          }
        }
      }
    }

    /** Every slot from `from` up to send_base is flagged, and the next one is not, unless a whole lap is done. */
    ghost predicate SlidFrom(from: nat)
      requires Shape()
      reads this, isAcked
    {
      && from <= sendBase <= from + cacheSize
      && (forall k :: from <= k < sendBase ==> isAcked[Slot(k, cacheSize)])
      && (sendBase < from + cacheSize ==> !isAcked[Slot(sendBase, cacheSize)])
    }

    method MoveBase()
      requires Valid() && sendBase < nxtSeqNum
      modifies this`sendBase, this`p
      ensures Valid() && SlidFrom(old(sendBase))
      ensures sendBase == SlideTo(|log|, acked, cacheSize, old(sendBase), old(sendBase) + cacheSize)
    {
      sendBase := Slide();
      SlotIsMod(sendBase, cacheSize);
      p := sendBase % cacheSize;
    }

    method MarkAcked(place: nat, ghost ack: nat)
      requires Valid() && sendBase <= ack < |log| && place == Slot(ack, cacheSize)
      modifies this`acked, isAcked
      ensures Valid() && acked == old(acked) + {ack}
    {
      isAcked[place] := true;
      acked := acked + {ack};
      forall k: nat | k < |log| < k + cacheSize + 1 && k != ack
        ensures Slot(k, cacheSize) != place
      {
        if k < ack { SlotDistinct(k, ack, cacheSize); } else { SlotDistinct(ack, k, cacheSize); }
      }
      assert |log| < cacheSize ==> place == ack;
    }

    /** The slide loop, which only reads the flags. */
    method Slide() returns (b: nat)
      requires Valid() && sendBase < nxtSeqNum
      ensures b == SlideTo(|log|, acked, cacheSize, sendBase, sendBase + cacheSize)
      ensures sendBase <= b <= sendBase + cacheSize
      ensures forall k :: sendBase <= k < b ==> isAcked[Slot(k, cacheSize)]
      ensures b < sendBase + cacheSize ==> !isAcked[Slot(b, cacheSize)]
    {
      b := FlaggedInARow();
      forall k | sendBase <= k < b
        ensures Flag(|log|, acked, cacheSize, k)
      {
        FlagInSlot(k);
      }
      if b < sendBase + cacheSize {
        FlagInSlot(b);
      }
      SlideToIs(|log|, acked, cacheSize, sendBase, b, sendBase + cacheSize);
    }

    method FlaggedInARow() returns (b: nat)
      requires Valid() && sendBase < nxtSeqNum
      ensures sendBase <= b <= sendBase + cacheSize
      ensures b == sendBase + cacheSize || !isAcked[Slot(b, cacheSize)]
      ensures forall j :: sendBase <= j < b ==> isAcked[Slot(j, cacheSize)]
    {
      b := sendBase;
      for ii := 0 to cacheSize
        invariant b == sendBase + ii
        invariant forall j :: sendBase <= j < b ==> isAcked[Slot(j, cacheSize)]
      {
        var slot := Index(p, ii, cacheSize, sendBase);
        if !isAcked[slot] {
          break;
        }
        b := b + 1;
      }
    }

    lemma FlagInSlot(k: nat)
      requires Valid() && |log| <= k + cacheSize && k < |log| + cacheSize
      ensures isAcked[Slot(k, cacheSize)] <==> Flag(|log|, acked, cacheSize, k)
    {
      if k >= |log| && k >= cacheSize {
        assert Slot(k, cacheSize) == Slot(k - cacheSize, cacheSize);
      }
    }

    /** A timeout: unacknowledged packets of the window go out again. When the window has overshot,
        the unsigned count wraps round, but the sequence test then lets nothing through. */
    method OnTimeout() returns (out: seq<Packet>)
      requires Valid() && sendBase < 0x1_0000_0000
      ensures out == ResendOpt(View())
      ensures sendBase > nxtSeqNum ==> out == []
      ensures Ascending(out) && forall i :: 0 <= i < |out| ==>
                sendBase <= out[i].seqNum < nxtSeqNum && out[i] == log[out[i].seqNum] && out[i].seqNum !in acked
      ensures forall k :: sendBase <= k < nxtSeqNum && k !in acked ==> log[k] in out
    {
      out := ResendUncounted();
      UnackedIs(log, acked, sendBase);
    }

    method ResendUncounted() returns (out: seq<Packet>)
      requires Valid() && sendBase < 0x1_0000_0000
      ensures out == ResendOpt(View())
    {
      out := [];
      var resendNum := if sendBase <= nxtSeqNum then nxtSeqNum - sendBase
                       else 0x1_0000_0000 + nxtSeqNum - sendBase;
      if sendBase <= nxtSeqNum {
        assert log[..sendBase + resendNum] == log;
      }
      for ii := 0 to resendNum
        invariant if sendBase <= nxtSeqNum then out == Unacked(log[..sendBase + ii], acked, sendBase) else out == []
      {
        var slot := Index(p, ii, cacheSize, sendBase);
        if sendBase <= nxtSeqNum {
          NextUncounted(sendBase + ii);
        }
        if !isAcked[slot] {
          var pktSeq := buffer[slot].seqNum;
          if pktSeq < nxtSeqNum + sendBase && pktSeq >= sendBase {
            out := out + [buffer[slot]];
          }
        }
      }
    }

    lemma NextUncounted(k: nat)
      requires Valid() && sendBase <= k < |log|
      ensures buffer[Slot(k, cacheSize)].seqNum == k
      ensures Unacked(log[..k + 1], acked, sendBase) == Unacked(log[..k], acked, sendBase)
           + if isAcked[Slot(k, cacheSize)] then [] else [buffer[Slot(k, cacheSize)]]
    {
      UnackedUpTo(log, acked, sendBase, k);
    }
  }
}
