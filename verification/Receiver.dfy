/** The receiving end of lab2-rtp/Lab2-RTP/src/receiver_def.c: a ring of cached packets that behaves as a
    finite map from sequence numbers to payloads. */
module Receiver {
  import opened Words
  import opened Transfer
  import opened Ring

  // ----- The window as a map --------------------------------------------------------------------

  /** Next sequence number to write, packets cached ahead of it, and the file written so far. */
  datatype Window = Window(nxt: nat, held: map<nat, seq<byte>>, file: seq<byte>)

  /** What one received packet does: new window and ACKs sent, or the "illegal pkt seq num" abort. */
  datatype Reply = Reply(window: Window, acks: seq<nat>) | Illegal

  /** First number from k on that is not cached, looking no further than `bound`. */
  function FirstMissing(held: map<nat, seq<byte>>, k: nat, bound: nat): (m: nat)
    ensures k <= m && (k <= bound ==> m <= bound)
    ensures forall j :: k <= j < m ==> j in held
    ensures m < bound ==> m !in held
    decreases bound - k
  {
    if k < bound && k in held then FirstMissing(held, k + 1, bound) else k
  }

  lemma {:induction false} FirstMissingIs(held: map<nat, seq<byte>>, k: nat, m: nat, bound: nat)
    requires k <= m <= bound && forall j :: k <= j < m ==> j in held
    requires m == bound || m !in held
    ensures FirstMissing(held, k, bound) == m
    decreases bound - k
  {
    if k < m {
      FirstMissingIs(held, k + 1, m, bound);
    }
  }

  function Payloads(held: map<nat, seq<byte>>, from: nat, end: nat): seq<byte>
    requires from <= end && forall k :: from <= k < end ==> k in held
    decreases end
  {
    if from == end then [] else Payloads(held, from, end - 1) + held[end - 1]
  }

  function Insert(w: Window, pkt: Packet): Window {
    w.(held := w.held[pkt.seqNum := pkt.payload])
  }

  /** Write out the packets below m and forget them. */
  function WriteBelow(w: Window, m: nat): Window
    requires w.nxt <= m && forall k :: w.nxt <= k < m ==> k in w.held
  {
    Window(m, map k | k in w.held && m <= k :: w.held[k], w.file + Payloads(w.held, w.nxt, m))
  }

  /** Write out every packet from nxt up to the first gap. */
  function Flush(w: Window, size: nat): Window
    requires size > 0 && w.nxt in w.held
  {
    WriteBelow(w, FirstMissing(w.held, w.nxt + 1, w.nxt + size))
  }

  /** DATA branch of recvMessage. */
  function ReceiveBasic(w: Window, size: nat, pkt: Packet): Reply
    requires size > 0
  {
    if pkt.seqNum >= w.nxt + size || pkt.seqNum < w.nxt then Reply(w, [])
    else if pkt.seqNum > w.nxt then Reply(Insert(w, pkt), [w.nxt])
    else var w' := Flush(Insert(w, pkt), size); Reply(w', [w'.nxt])
  }

  /** DATA branch of recvMessageOpt. */
  function ReceiveOpt(w: Window, size: nat, pkt: Packet): Reply
    requires size > 0
  {
    if pkt.seqNum >= w.nxt + size then Reply(w, [])
    else if pkt.seqNum > w.nxt then Reply(Insert(w, pkt), [pkt.seqNum])
    else if pkt.seqNum == w.nxt then Reply(Flush(Insert(w, pkt), size), [pkt.seqNum])
    else if pkt.seqNum + size >= w.nxt then Reply(w, [pkt.seqNum])
    else Illegal
  }

  // ----- What the window keeps ------------------------------------------------------------------

  /** Between packets, only numbers strictly ahead of nxt and inside the window are cached. */
  ghost predicate Settled(w: Window, size: nat) {
    forall k :: k in w.held ==> w.nxt < k < w.nxt + size
  }

  /** The receiver has the packet: written out, or cached. */
  ghost predicate Has(w: Window, k: nat) {
    k < w.nxt || k in w.held
  }

  /** The file is a whole number of chunks of the message, and cached payloads are chunks sent. */
  ghost predicate Faithful(msg: seq<byte>, sent: nat, w: Window) {
    && w.nxt <= sent
    && w.file == msg[..Offset(msg, w.nxt)]
    && forall k :: k in w.held ==> k < sent && w.held[k] == Chunk(msg, k)
  }

  lemma Regroup(a: seq<byte>, b: seq<byte>, c: seq<byte>)
    ensures a + (b + c) == (a + b) + c
  {
  }

  lemma PayloadsNext(w: Window, i: nat)
    requires forall k :: w.nxt <= k <= w.nxt + i ==> k in w.held
    ensures w.file + Payloads(w.held, w.nxt, w.nxt + i + 1)
         == (w.file + Payloads(w.held, w.nxt, w.nxt + i)) + w.held[w.nxt + i]
  {
    Regroup(w.file, Payloads(w.held, w.nxt, w.nxt + i), w.held[w.nxt + i]);
  }

  /** The packet expected has come: it and the packets that follow it without a gap are in the file, the number of
      the first one missing is expected, and the later ones are still cached. */
  ghost predicate Advanced(w: Window, pkt: Packet, w': Window) {
    && pkt.seqNum == w.nxt < w'.nxt && w'.nxt !in w.held && (forall k :: w.nxt < k < w'.nxt ==> k in w.held)
    && w'.held == (map k | k in w.held && w'.nxt < k :: w.held[k])
    && w'.file == w.file + Payloads(w.held[pkt.seqNum := pkt.payload], w.nxt, w'.nxt)
  }

  lemma {:induction false} PayloadsExtend(msg: seq<byte>, held: map<nat, seq<byte>>, from: nat, end: nat)
    requires from <= end && forall k :: from <= k < end ==> k in held && held[k] == Chunk(msg, k)
    ensures msg[..Offset(msg, from)] + Payloads(held, from, end) == msg[..Offset(msg, end)]
    decreases end
  {
    if from < end {
      PayloadsExtend(msg, held, from, end - 1);
      ChunkExtends(msg, end - 1);
      Regroup(msg[..Offset(msg, from)], Payloads(held, from, end - 1), held[end - 1]);
    }
  }

  /** Flushing delivers exactly nxt .. m-1, where m is the least number the receiver lacks, and keeps
      every packet cached beyond it. */
  lemma FlushDelivers(w: Window, size: nat)
    requires size > 0 && w.nxt in w.held
    requires forall k :: k in w.held ==> w.nxt <= k < w.nxt + size
    ensures var f := Flush(w, size);
      && w.nxt < f.nxt && f.nxt !in w.held
      && (forall k :: w.nxt <= k < f.nxt ==> k in w.held)
      && f.file == w.file + Payloads(w.held, w.nxt, f.nxt)
      && f.held == (map k | k in w.held && f.nxt < k :: w.held[k])
      && Settled(f, size)
  {
    var m := FirstMissing(w.held, w.nxt + 1, w.nxt + size);
    assert m !in w.held;
  }

  /** Both receivers keep the window settled and the file faithful, never forget a packet, and acknowledge only
      what they have. The basic one acknowledges every packet of its window, and no other. */
  lemma BasicKeeps(msg: seq<byte>, sent: nat, w: Window, size: nat, pkt: Packet)
    requires size > 0 && Settled(w, size) && Faithful(msg, sent, w)
    requires pkt.seqNum < sent && pkt.payload == Chunk(msg, pkt.seqNum)
    ensures var r := ReceiveBasic(w, size, pkt);
      && r.Reply? && Settled(r.window, size) && Faithful(msg, sent, r.window)
      && w.nxt <= r.window.nxt
      && (forall i :: 0 <= i < |r.acks| ==> r.acks[i] == r.window.nxt)
      && (|r.acks| == 1 <==> w.nxt <= pkt.seqNum < w.nxt + size) && |r.acks| <= 1
      && (pkt.seqNum == w.nxt ==> w.nxt < r.window.nxt && r.acks == [r.window.nxt])
      && (forall k :: Has(w, k) ==> Has(r.window, k))
      && (pkt.seqNum < w.nxt + size ==> Has(r.window, pkt.seqNum))
  {
    if pkt.seqNum == w.nxt {
      InOrderKeeps(msg, sent, w, size, pkt);
    }
  }

  /** The optimised receiver aborts exactly on a packet more than one window old. It acknowledges a packet if and
      only if it lies within one window on either side of nxt, and then it has it. */
  lemma OptKeeps(msg: seq<byte>, sent: nat, w: Window, size: nat, pkt: Packet)
    requires size > 0 && Settled(w, size) && Faithful(msg, sent, w)
    requires pkt.seqNum < sent && pkt.payload == Chunk(msg, pkt.seqNum)
    ensures var r := ReceiveOpt(w, size, pkt);
      if pkt.seqNum + size < w.nxt then r.Illegal?
      else
        && r.Reply? && Settled(r.window, size) && Faithful(msg, sent, r.window)
        && w.nxt <= r.window.nxt
        && (forall k :: Has(w, k) ==> Has(r.window, k))
        && (|r.acks| == 1 <==> w.nxt <= pkt.seqNum + size < w.nxt + size + size) && |r.acks| <= 1
        && (forall i :: 0 <= i < |r.acks| ==> r.acks[i] == pkt.seqNum && Has(r.window, pkt.seqNum))
  {
    if pkt.seqNum == w.nxt {
      InOrderKeeps(msg, sent, w, size, pkt);
    }
    assert w.nxt <= pkt.seqNum + size && pkt.seqNum < w.nxt + size ==>
      Has(ReceiveOpt(w, size, pkt).window, pkt.seqNum);
  }

  /** With nothing cached, the packet expected is written at once, and acknowledged. */
  lemma ExpectedIsWritten(w: Window, size: nat, pkt: Packet)
    requires size > 0 && w.held == map[] && pkt.seqNum == w.nxt
    ensures var r := ReceiveOpt(w, size, pkt);
      r.Reply? && r.window.nxt == w.nxt + 1 && r.window.held == map[] && r.acks == [w.nxt]
  {
    var held := w.held[w.nxt := pkt.payload];
    assert FirstMissing(held, w.nxt + 1, w.nxt + size) == w.nxt + 1;
  }

  lemma InOrderKeeps(msg: seq<byte>, sent: nat, w: Window, size: nat, pkt: Packet)
    requires size > 0 && Settled(w, size) && Faithful(msg, sent, w)
    requires pkt == Packet(w.nxt, Chunk(msg, w.nxt)) && w.nxt < sent
    ensures var f := Flush(Insert(w, pkt), size);
      && Settled(f, size) && Faithful(msg, sent, f) && w.nxt < f.nxt
      && forall k :: Has(w, k) ==> Has(f, k)
  {
    var v := Insert(w, pkt);
    FlushDelivers(v, size);
    PayloadsExtend(msg, v.held, v.nxt, Flush(v, size).nxt);
    var f := Flush(v, size);
    assert f.nxt - 1 in v.held;
  }

  // ----- The window as the program stores it ----------------------------------------------------

  /** The window moves on by n: the slots of the n numbers gone serve the n new ones, and are free. */
  lemma FlagsMoveOn(flags: seq<bool>, held: map<nat, seq<byte>>, lo: nat, n: nat, w: nat)
    requires 0 < w <= |flags| && n <= w
    requires forall k :: k in held ==> lo <= k < lo + w
    requires forall k :: lo <= k < lo + w ==> (flags[Slot(k, w)] <==> k in held && lo + n <= k)
    ensures forall k :: lo + n <= k < lo + n + w ==> (flags[Slot(k, w)] <==> k in held && lo + n <= k)
  {
    forall k | lo + w <= k < lo + n + w
      ensures !flags[Slot(k, w)]
    {
      assert Slot(k, w) == Slot(k - w, w);
    }
  }

  /** pkt_cache together with the local variables of the receive loop. */
  class Cache {
    const cacheSize: nat
    const buffer: array<Packet>
    const valid: array<bool>
    var p: nat
    var nxtSeqNum: nat
    var file: seq<byte>
    ghost var held: map<nat, seq<byte>>

    ghost predicate Shape()
      reads this
    {
      && 1 <= cacheSize <= MAX_WINDOW_SIZE == buffer.Length == valid.Length
      && p == Slot(nxtSeqNum, cacheSize)
      && forall k :: k in held ==> nxtSeqNum <= k < nxtSeqNum + cacheSize
    }

    /** Every packet held is in its slot, with its own sequence number. */
    ghost predicate Stored()
      requires Shape()
      reads this, buffer
    {
      forall k :: k in held ==> buffer[Slot(k, cacheSize)] == Packet(k, held[k])
    }

    /** The slot of k is valid iff k is held and not below `first`, for every k of the window. */
    ghost predicate Flagged(first: nat)
      requires Shape()
      reads this, valid
    {
      forall k :: nxtSeqNum <= k < nxtSeqNum + cacheSize ==>
        (valid[Slot(k, cacheSize)] <==> k in held && first <= k)
    }

    ghost predicate Valid()
      reads this, buffer, valid
    {
      Shape() && Stored() && Flagged(nxtSeqNum)
    }

    ghost function View(): Window
      reads this
    {
      Window(nxtSeqNum, held, file)
    }

    constructor (windowSize: nat)
      requires 1 <= windowSize <= MAX_WINDOW_SIZE
      ensures Valid() && View() == Window(0, map[], []) && cacheSize == windowSize
      ensures fresh(buffer) && buffer.Length == 1024 && fresh(valid)
    {
      cacheSize := windowSize;
      buffer := new Packet[MAX_WINDOW_SIZE](_ => Packet(0, []));
      valid := new bool[MAX_WINDOW_SIZE](_ => false);
      p, nxtSeqNum, file, held := 0, 0, [], map[];
    }

    /** cache_rtp_pkt, called with N the next sequence number expected. */
    method CachePacket(pkt: Packet, N: nat)
      requires Valid() && N == nxtSeqNum <= pkt.seqNum < nxtSeqNum + cacheSize
      modifies this`held, buffer, valid
      ensures Valid() && View() == Insert(old(View()), pkt)
      ensures held == old(held)[pkt.seqNum := pkt.payload] && nxtSeqNum == old(nxtSeqNum) && file == old(file)
    {
      var place := Index(p, pkt.seqNum - N, cacheSize, nxtSeqNum);
      PutPacket(place, pkt);
      SetFlag(place, pkt.seqNum);
    }

    method PutPacket(place: nat, pkt: Packet)
      requires Valid() && nxtSeqNum <= pkt.seqNum < nxtSeqNum + cacheSize && place == Slot(pkt.seqNum, cacheSize)
      modifies this`held, buffer
      ensures Shape() && Stored() && held == old(held)[pkt.seqNum := pkt.payload]
    {
      buffer[place] := pkt;
      held := held[pkt.seqNum := pkt.payload];
      SlotAlone(nxtSeqNum, pkt.seqNum, cacheSize);
    }

    method SetFlag(place: nat, ghost k: nat)
      requires Shape() && nxtSeqNum <= k < nxtSeqNum + cacheSize && place == Slot(k, cacheSize) && k in held
      requires forall j :: nxtSeqNum <= j < nxtSeqNum + cacheSize && j != k ==>
                 (valid[Slot(j, cacheSize)] <==> j in held)
      modifies valid
      ensures Shape() && Flagged(nxtSeqNum)
    {
      valid[place] := true;
      SlotAlone(nxtSeqNum, k, cacheSize);
    }

    /** get_min_ncache: the loop only reads. */
    method MinNotCached() returns (m: nat)
      requires Valid() && nxtSeqNum in held
      ensures m == FirstMissing(held, nxtSeqNum + 1, nxtSeqNum + cacheSize)
      ensures nxtSeqNum < m && m !in held && forall k :: nxtSeqNum <= k < m ==> k in held
    {
      var i := CachedInARow();
      FirstMissingIs(held, nxtSeqNum + 1, nxtSeqNum + i, nxtSeqNum + cacheSize);
      var last := Index(p, i - 1, cacheSize, nxtSeqNum);
      assert nxtSeqNum + i - 1 in held;
      m := buffer[last].seqNum + 1;
    }

    method CachedInARow() returns (i: nat)
      requires Valid() && nxtSeqNum in held
      ensures 1 <= i <= cacheSize && (i == cacheSize || nxtSeqNum + i !in held)
      ensures forall k :: nxtSeqNum <= k < nxtSeqNum + i ==> k in held
    {
      i := 1;
      while i < cacheSize
        invariant 1 <= i <= cacheSize
        invariant forall k :: nxtSeqNum <= k < nxtSeqNum + i ==> k in held
      {
        var slot := Index(p, i, cacheSize, nxtSeqNum);
        if !valid[slot] {
          break;
        }
        assert nxtSeqNum + i in held;
        i := i + 1;
      }
    }

    /** Part of the write loop: i packets of the window w are in the file and their slots are free. */
    ghost predicate Writing(w: Window, i: nat)
      requires forall k :: w.nxt <= k < w.nxt + i ==> k in w.held
      reads this, buffer, valid
    {
      && w.nxt == nxtSeqNum && w.held == held
      && Shape() && Stored() && Flagged(w.nxt + i)
      && file == w.file + Payloads(w.held, w.nxt, w.nxt + i)
    }

    /** The write loop: `writeNum` packets go to the file and their slots become free. */
    method WriteOut(writeNum: nat)
      requires Valid() && writeNum <= cacheSize
      requires forall k :: nxtSeqNum <= k < nxtSeqNum + writeNum ==> k in held
      modifies this`file, valid
      ensures Writing(old(View()), writeNum)
    {
      ghost var w := View();
      for i := 0 to writeNum
        invariant Writing(w, i)
      {
        WriteNext(w, i);
      }
    }

    method WriteNext(ghost w: Window, i: nat)
      requires forall k :: w.nxt <= k <= w.nxt + i ==> k in w.held
      requires Writing(w, i)
      modifies this`file, valid
      ensures Writing(w, i + 1)
    {
      PayloadsNext(w, i);
      WriteSlot(i);
    }

    method WriteSlot(i: nat)
      requires Shape() && Stored() && Flagged(nxtSeqNum + i) && nxtSeqNum + i in held
      modifies this`file, valid
      ensures Shape() && Stored() && Flagged(nxtSeqNum + i + 1)
      ensures file == old(file) + held[nxtSeqNum + i]
    {
      var slot := Index(p, i, cacheSize, nxtSeqNum);
      SlotHolds(nxtSeqNum + i);
      file := file + buffer[slot].payload;
      ClearSlot(nxtSeqNum + i, slot);
    }

    lemma SlotHolds(k: nat)
      requires Shape() && Stored() && k in held
      ensures buffer[Slot(k, cacheSize)].payload == held[k]
    {
    }

    method ClearSlot(ghost k: nat, slot: nat)
      requires Shape() && Stored() && Flagged(k) && k in held && slot == Slot(k, cacheSize)
      modifies valid
      ensures Shape() && Stored() && Flagged(k + 1)
    {
      valid[slot] := false;
      SlotAlone(nxtSeqNum, k, cacheSize);
    }

    /** Write and clear the slots of the packets below m, then move the ring on. */
    method WriteUpTo(m: nat)
      requires Valid() && nxtSeqNum <= m <= nxtSeqNum + cacheSize
      requires forall k :: nxtSeqNum <= k < m ==> k in held
      modifies this, valid
      ensures Valid() && View() == WriteBelow(old(View()), m)
      ensures nxtSeqNum == m && held == map k | k in old(held) && m <= k :: old(held)[k]
      ensures file == old(file) + Payloads(old(held), old(nxtSeqNum), m)
    {
      var writeNum := m - nxtSeqNum;
      WriteOut(writeNum);
      MoveOn(writeNum);
    }

    method MoveOn(writeNum: nat)
      requires Shape() && Stored() && Flagged(nxtSeqNum + writeNum) && writeNum <= cacheSize
      modifies this`p, this`nxtSeqNum, this`held
      ensures Valid() && nxtSeqNum == old(nxtSeqNum) + writeNum
      ensures held == map k | k in old(held) && nxtSeqNum <= k :: old(held)[k]
    {
      FlagsMoveOn(valid[..], held, nxtSeqNum, writeNum, cacheSize);
      Advance(writeNum);
      held := map k | k in held && nxtSeqNum <= k :: held[k];
    }

    method Advance(writeNum: nat)
      requires cacheSize > 0 && p == Slot(nxtSeqNum, cacheSize)
      modifies this`p, this`nxtSeqNum
      ensures nxtSeqNum == old(nxtSeqNum) + writeNum && p == Slot(nxtSeqNum, cacheSize)
    {
      p := Index(p, writeNum, cacheSize, nxtSeqNum);
      nxtSeqNum := nxtSeqNum + writeNum;
    }

    /** The packet that was expected: cache it, find the first gap, write out everything before it. */
    method AcceptInOrder(pkt: Packet)
      requires Valid() && pkt.seqNum == nxtSeqNum
      modifies this, buffer, valid
      ensures Valid() && View() == Flush(Insert(old(View()), pkt), cacheSize)
      ensures Advanced(old(View()), pkt, View())
    {
      FlushDelivers(Insert(View(), pkt), cacheSize);
      CachePacket(pkt, pkt.seqNum);
      WriteRun();
    }

    method WriteRun()
      requires Valid() && nxtSeqNum in held
      modifies this, valid
      ensures Valid() && View() == Flush(old(View()), cacheSize)
    {
      var m := MinNotCached();
      WriteUpTo(m);
    }

    /** One DATA packet in recvMessage. */
    method OnDataBasic(pkt: Packet) returns (acks: seq<nat>)
      requires Valid()
      modifies this, buffer, valid
      ensures Valid() && Reply(View(), acks) == ReceiveBasic(old(View()), cacheSize, pkt)
      ensures pkt.seqNum < old(nxtSeqNum) || pkt.seqNum >= old(nxtSeqNum) + cacheSize ==>
                acks == [] && View() == old(View())
      ensures old(nxtSeqNum) < pkt.seqNum < old(nxtSeqNum) + cacheSize ==>
                && acks == [old(nxtSeqNum)] && nxtSeqNum == old(nxtSeqNum) && file == old(file)
                && held == old(held)[pkt.seqNum := pkt.payload]
      ensures pkt.seqNum == old(nxtSeqNum) ==> acks == [nxtSeqNum] && Advanced(old(View()), pkt, View())
    {
      acks := [];
      if pkt.seqNum < nxtSeqNum + cacheSize {
        if pkt.seqNum > nxtSeqNum {
          acks := [nxtSeqNum];
          CachePacket(pkt, nxtSeqNum);
        } else if pkt.seqNum == nxtSeqNum {
          AcceptInOrder(pkt);
          acks := [nxtSeqNum];
        }
      }
    }

    /** One DATA packet in recvMessageOpt. */
    method OnDataOpt(pkt: Packet) returns (acks: seq<nat>, illegal: bool)
      requires Valid()
      modifies this, buffer, valid
      ensures Valid()
      ensures illegal ==> ReceiveOpt(old(View()), cacheSize, pkt) == Illegal && View() == old(View())
      ensures !illegal ==> Reply(View(), acks) == ReceiveOpt(old(View()), cacheSize, pkt)
      ensures illegal <==> pkt.seqNum + cacheSize < old(nxtSeqNum)
      ensures acks == if illegal || pkt.seqNum >= old(nxtSeqNum) + cacheSize then [] else [pkt.seqNum]
      ensures pkt.seqNum < old(nxtSeqNum) || pkt.seqNum >= old(nxtSeqNum) + cacheSize ==> View() == old(View())
      ensures old(nxtSeqNum) < pkt.seqNum < old(nxtSeqNum) + cacheSize ==>
                && nxtSeqNum == old(nxtSeqNum) && file == old(file)
                && held == old(held)[pkt.seqNum := pkt.payload]
      ensures pkt.seqNum == old(nxtSeqNum) ==> Advanced(old(View()), pkt, View())
    {
      acks, illegal := [], false;
      if pkt.seqNum < nxtSeqNum + cacheSize {
        if pkt.seqNum > nxtSeqNum {
          acks := [pkt.seqNum];
          CachePacket(pkt, nxtSeqNum);
        } else if pkt.seqNum == nxtSeqNum {
          AcceptInOrder(pkt);
          acks := [pkt.seqNum];
        } else if pkt.seqNum < nxtSeqNum && pkt.seqNum + cacheSize >= nxtSeqNum {
          acks := [pkt.seqNum];
        } else {
          illegal := true;
        }
      }
    }
  }
}
