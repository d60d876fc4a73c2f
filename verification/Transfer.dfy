/** What both transfer modes of lab2-rtp send: a message cut into chunks, one packet per chunk. */
module Transfer {
  import opened Words

  const PAYLOAD_SIZE := 1461
  const MAX_WINDOW_SIZE := 1024

  datatype Packet = Packet(seqNum: nat, payload: seq<byte>)

  function Min(a: int, b: int): int {
    if a < b then a else b
  }

  /** Number of message bytes in the first k chunks. */
  function Offset(msg: seq<byte>, k: nat): nat {
    Min(k * PAYLOAD_SIZE, |msg|)
  }

  /** Chunk k of the message; empty past the end of the file. */
  function Chunk(msg: seq<byte>, k: nat): (c: seq<byte>)
    ensures |c| <= PAYLOAD_SIZE
  {
    msg[Offset(msg, k)..Offset(msg, k + 1)]
  }

  /** Number of non-empty chunks. */
  function ChunkCount(msg: seq<byte>): nat {
    (|msg| + PAYLOAD_SIZE - 1) / PAYLOAD_SIZE
  }

  /** fread of one payload at file position `pos`. */
  function ReadFrom(msg: seq<byte>, pos: nat): seq<byte>
    requires pos <= |msg|
  {
    msg[pos..Min(pos + PAYLOAD_SIZE, |msg|)]
  }

  /** The packets sent so far, by sequence number, carry the chunks of the message in order. */
  ghost predicate LogOk(msg: seq<byte>, log: seq<Packet>, pos: nat) {
    && pos == Offset(msg, |log|)
    && forall k :: 0 <= k < |log| ==> log[k] == Packet(k, Chunk(msg, k))
  }

  /** Every data packet on the wire is one that was sent. */
  ghost predicate WireOk(log: seq<Packet>, data: seq<Packet>) {
    forall i :: 0 <= i < |data| ==> data[i].seqNum < |log| && data[i] == log[data[i].seqNum]
  }

  lemma ReadIsChunk(msg: seq<byte>, log: seq<Packet>, pos: nat)
    requires LogOk(msg, log, pos)
    ensures LogOk(msg, log + [Packet(|log|, ReadFrom(msg, pos))], pos + |ReadFrom(msg, pos)|)
  {
    assert ReadFrom(msg, pos) == Chunk(msg, |log|);
  }

  lemma ChunkExtends(msg: seq<byte>, k: nat)
    ensures msg[..Offset(msg, k)] + Chunk(msg, k) == msg[..Offset(msg, k + 1)]
  {
  }

  /** Bytes carried by the packets of a set of sequence numbers, counting numbers below `n`. */
  ghost function Carried(msg: seq<byte>, acked: set<nat>, n: nat): nat {
    if n == 0 then 0
    else Carried(msg, acked, n - 1) + if n - 1 in acked then |Chunk(msg, n - 1)| else 0
  }

  lemma {:induction false} CarriedAdd(msg: seq<byte>, acked: set<nat>, k: nat, n: nat)
    requires k !in acked
    ensures Carried(msg, acked + {k}, n) == Carried(msg, acked, n) + if k < n then |Chunk(msg, k)| else 0
  {
    if n > 0 {
      CarriedAdd(msg, acked, k, n - 1);
    }
  }

  /** What is carried falls short of the first n chunks by at least any chunk left out. */
  lemma {:induction false} CarriedShort(msg: seq<byte>, acked: set<nat>, n: nat)
    ensures Carried(msg, acked, n) <= Offset(msg, n)
    ensures forall k :: 0 <= k < n && k !in acked ==> Carried(msg, acked, n) + |Chunk(msg, k)| <= Offset(msg, n)
  {
    if n > 0 {
      CarriedShort(msg, acked, n - 1);
    }
  }

  /** Everything below n acknowledged: all of the first n chunks are carried. */
  lemma {:induction false} CarriedAll(msg: seq<byte>, acked: set<nat>, n: nat)
    requires forall k :: 0 <= k < n ==> k in acked
    ensures Carried(msg, acked, n) == Offset(msg, n)
  {
    if n > 0 {
      CarriedAll(msg, acked, n - 1);
    }
  }

  /** Every non-empty chunk carried: the whole message is. */
  lemma {:induction false} CarriedFull(msg: seq<byte>, acked: set<nat>, n: nat)
    requires n >= ChunkCount(msg) && forall k :: 0 <= k < ChunkCount(msg) ==> k in acked
    ensures Carried(msg, acked, n) == |msg|
  {
    if n == ChunkCount(msg) {
      CarriedAll(msg, acked, n);
    } else {
      CarriedFull(msg, acked, n - 1);
    }
  }

  lemma ChunkCountOk(msg: seq<byte>, k: nat)
    ensures k < ChunkCount(msg) <==> Chunk(msg, k) != []
    ensures k < ChunkCount(msg) <==> k * PAYLOAD_SIZE < |msg|
    ensures k >= ChunkCount(msg) ==> Offset(msg, k) == |msg|
  {
  }
}
