/** The packet header of the transport (lab2-rtp/Lab2-RTP/src/rtp.c): sealing and checking a packet. */
module RtpPacket {
  import opened Words
  import opened Crc32
  import opened Transfer

  const HEADER_SIZE := 11

  /** A packet as it lies in memory: packed header, then the fixed payload buffer. */
  datatype Frame = Frame(kind: byte, length: uint16, seqNum: uint32, checksum: uint32, payload: seq<byte>)

  ghost predicate WellFormed(f: Frame) {
    |f.payload| == PAYLOAD_SIZE && f.length <= PAYLOAD_SIZE
  }

  /** Little-endian bytes of a header field. */
  function LittleEndian(w: nat, n: nat): (bytes: seq<byte>)
    ensures |bytes| == n
    decreases n
  {
    if n == 0 then [] else [w % 0x100] + LittleEndian(w / 0x100, n - 1)
  }

  lemma {:induction false} ShrTwice(a: nat, m: nat, n: nat)
    ensures Shr(Shr(a, m), n) == Shr(a, m + n)
    decreases m
  {
    if m > 0 {
      ShrTwice(a / 2, m - 1, n);
    }
  }

  lemma ShrByte(w: nat, i: nat)
    requires i > 0
    ensures Shr(w, 8 * i) == Shr(w / 0x100, 8 * (i - 1))
  {
    ByteShift(w);
    ShrTwice(w, 8, 8 * (i - 1));
  }

  /** Byte i of a field holds its bits 8 * i .. 8 * i + 8: the low byte comes first. */
  lemma {:induction false} LittleEndianAt(w: nat, n: nat, i: nat)
    requires i < n
    ensures LittleEndian(w, n)[i] == Shr(w, 8 * i) % 0x100
    decreases n
  {
    if i > 0 {
      LittleEndianAt(w / 0x100, n - 1, i - 1);
      ShrByte(w, i);
    }
  }

  lemma TwoBytes(w: uint16, n: nat)
    requires n == 2
    ensures LittleEndian(w, n) == [w % 0x100, w / 0x100]
  {
    assert LittleEndian(w, n) == [w % 0x100] + LittleEndian(w / 0x100, n - 1);
  }

  lemma FourBytes(w: uint32, n: nat)
    requires n == 4
    ensures LittleEndian(w, n) == [w % 0x100, w / 0x100 % 0x100, w / 0x1_0000 % 0x100, w / 0x100_0000]
  {
    assert w / 0x100 / 0x100 == w / 0x1_0000;
    TwoBytes(w / 0x1_0000, n - 2);
    assert LittleEndian(w, n) == [w % 0x100] + ([w / 0x100 % 0x100] + LittleEndian(w / 0x1_0000, n - 2));
  }

  function Wire(f: Frame): (bytes: seq<byte>)
    ensures |bytes| == HEADER_SIZE + |f.payload|
  {
    [f.kind] + LittleEndian(f.length, 2) + LittleEndian(f.seqNum, 4) + LittleEndian(f.checksum, 4) + f.payload
  }

  /** get_ptk_length, in 16-bit arithmetic. */
  function PacketLength(f: Frame): uint16 {
    (f.length + HEADER_SIZE) % 0x1_0000
  }

  /** The bytes the checksum covers: the packet up to its length, with the checksum field zeroed. */
  function Covered(f: Frame): seq<byte>
    requires WellFormed(f)
  {
    Wire(f.(checksum := 0))[..PacketLength(f)]
  }

  ghost predicate Genuine(f: Frame)
    requires WellFormed(f)
  {
    f.checksum == Crc(Covered(f))
  }

  /** The checksum as the program computes it: over an image of the packet with the checksum field zeroed. */
  method ChecksumOf(table: Table, f: Frame) returns (crc: uint32)
    requires table.Valid() && WellFormed(f)
    modifies table.entries
    ensures table.Valid() && crc == Crc(Covered(f))
  {
    crc := table.ComputeChecksum(Wire(f.(checksum := 0))[..PacketLength(f)]);
  }

  lemma CoveredSame(f: Frame, g: Frame)
    requires WellFormed(f) && WellFormed(g) && g.(checksum := 0) == f.(checksum := 0)
    ensures Covered(g) == Covered(f)
  {
  }

  lemma SealedIsGenuine(f: Frame, crc: uint32)
    requires WellFormed(f) && crc == Crc(Covered(f))
    ensures Genuine(f.(checksum := crc))
  {
    CoveredSame(f, f.(checksum := crc));
  }

  /** Layout of the covered bytes. */
  lemma CoveredLayout(f: Frame)
    requires WellFormed(f)
    ensures |Covered(f)| == HEADER_SIZE + f.length
    ensures Covered(f) == [f.kind] + LittleEndian(f.length, 2) + LittleEndian(f.seqNum, 4)
                          + LittleEndian(0, 4) + f.payload[..f.length]
  {
    var header := [f.kind] + LittleEndian(f.length, 2) + LittleEndian(f.seqNum, 4) + LittleEndian(0, 4);
    assert Wire(f.(checksum := 0)) == header + f.payload;
  }

  /** The eleven header bytes as they are summed: type, length and sequence number low byte first, four zeros. */
  function Header(kind: byte, length: uint16, seqNum: uint32): (bytes: seq<byte>) {
    [kind, length % 0x100, length / 0x100,
     seqNum % 0x100, seqNum / 0x100 % 0x100, seqNum / 0x1_0000 % 0x100, seqNum / 0x100_0000, 0, 0, 0, 0]
  }

  lemma CoveredIs(f: Frame)
    requires WellFormed(f)
    ensures Covered(f) == Header(f.kind, f.length, f.seqNum) + f.payload[..f.length]
  {
    CoveredLayout(f);
    TwoBytes(f.length, 2);
    FourBytes(f.seqNum, 4);
    FourBytes(0, 4);
  }

  class Packet {
    var kind: byte
    var length: uint16
    var seqNum: uint32
    var checksum: uint32
    const payload: array<byte>

    ghost function View(): Frame
      reads this, payload
    {
      Frame(kind, length, seqNum, checksum, payload[..])
    }

    constructor ()
      ensures fresh(payload) && payload.Length == PAYLOAD_SIZE
    {
      payload := new byte[PAYLOAD_SIZE](_ => 0);
      kind, length, seqNum, checksum := 0, 0, 0, 0;
    }

    /** set_header: fill in the header and seal the packet. The payload is left alone. */
    method SetHeader(table: Table, k: byte, len: uint16, seqn: uint32)
      requires table.Valid() && table.entries as object != payload
      requires payload.Length == PAYLOAD_SIZE && len <= PAYLOAD_SIZE
      modifies this, table.entries
      ensures table.Valid()
      ensures View() == Frame(k, len, seqn, checksum, old(payload[..]))
      ensures Genuine(View())
      ensures checksum == Crc(Header(k, len, seqn) + old(payload[..len]))
    {
      kind, length, seqNum, checksum := k, len, seqn, 0;
      var f := Frame(kind, length, seqNum, checksum, payload[..]);
      var crc := ChecksumOf(table, f);
      checksum := crc;
      SealedIsGenuine(f, crc);
      CoveredIs(f);
      assert payload[..] == f.payload && payload[..len] == f.payload[..len];
    }

    /** check: works on its own copy of the packet, so the packet is not modified. */
    method Check(table: Table) returns (ok: bool)
      requires table.Valid() && table.entries as object != payload
      requires WellFormed(View())
      modifies table.entries
      ensures table.Valid()
      ensures ok <==> Genuine(View())
      ensures ok <==> checksum == Crc(Header(kind, length, seqNum) + payload[..length])
    {
      var f := Frame(kind, length, seqNum, checksum, payload[..]);
      var crc := ChecksumOf(table, f);
      CoveredIs(f);
      assert payload[..] == f.payload && payload[..length] == f.payload[..length];
      ok := checksum == crc;
    }
  }

  // ----- What a damaged packet looks like --------------------------------------------------------

  ghost predicate OnlyKindDamaged(f: Frame, g: Frame) {
    g.kind != f.kind && g == f.(kind := g.kind)
  }

  ghost predicate OnlySeqNumDamaged(f: Frame, g: Frame) {
    g.seqNum != f.seqNum && g == f.(seqNum := g.seqNum)
  }

  ghost predicate OnlyChecksumDamaged(f: Frame, g: Frame) {
    g.checksum != f.checksum && g == f.(checksum := g.checksum)
  }

  /** The used part of the payload is damaged inside four consecutive bytes. */
  ghost predicate OnlyPayloadDamaged(f: Frame, g: Frame, at: nat)
    requires WellFormed(f)
  {
    && |g.payload| == |f.payload|
    && g == f.(payload := g.payload)
    && g.payload[..f.length] != f.payload[..f.length]
    && forall i :: 0 <= i < |f.payload| && !(at <= i < at + 4) ==> g.payload[i] == f.payload[i]
  }

  function Limit(n: nat): nat {
    if n == 0 then 1 else 0x100 * Limit(n - 1)
  }

  lemma {:induction false} LittleEndianInjective(v: nat, w: nat, n: nat)
    requires v < Limit(n) && w < Limit(n)
    requires LittleEndian(v, n) == LittleEndian(w, n)
    ensures v == w
    decreases n
  {
    if n > 0 {
      var a, b := LittleEndian(v, n), LittleEndian(w, n);
      assert a[0] == v % 0x100 && b[0] == w % 0x100;
      assert a[1..] == LittleEndian(v / 0x100, n - 1) && b[1..] == LittleEndian(w / 0x100, n - 1);
      LittleEndianInjective(v / 0x100, w / 0x100, n - 1);
    }
  }

  lemma CoveredBytes(f: Frame)
    requires WellFormed(f)
    ensures |Covered(f)| == HEADER_SIZE + f.length
    ensures Covered(f)[0] == f.kind
    ensures Covered(f)[1..3] == LittleEndian(f.length, 2)
    ensures Covered(f)[3..7] == LittleEndian(f.seqNum, 4)
    ensures Covered(f)[7..11] == LittleEndian(0, 4)
    ensures Covered(f)[11..] == f.payload[..f.length]
  {
    CoveredLayout(f);
  }

  /** The covered bytes differ, and only inside four consecutive positions. */
  lemma DamageIsLocal(f: Frame, g: Frame, at: nat) returns (start: nat)
    requires WellFormed(f) && WellFormed(g)
    requires OnlyKindDamaged(f, g) || OnlySeqNumDamaged(f, g) || OnlyPayloadDamaged(f, g, at)
    ensures |Covered(f)| == |Covered(g)| && Covered(f) != Covered(g)
    ensures forall i :: 0 <= i < |Covered(f)| && !(start <= i < start + 4) ==> Covered(f)[i] == Covered(g)[i]
  {
    var a, b := Covered(f), Covered(g);
    CoveredBytes(f);
    CoveredBytes(g);
    CoveredLayout(f);
    CoveredLayout(g);
    if OnlyKindDamaged(f, g) {
      start := 0;
      assert a[0] != b[0];
    } else if OnlySeqNumDamaged(f, g) {
      start := 3;
      if a[3..7] == b[3..7] {
        assert Limit(4) == 0x1_0000_0000;
        LittleEndianInjective(f.seqNum, g.seqNum, 4);
      }
    } else {
      start := HEADER_SIZE + at;
    }
  }

  /** Damage to one header field other than the length, or to four consecutive bytes of the payload
      that was sent, never passes the check. */
  lemma DamageRejected(f: Frame, g: Frame, at: nat)
    requires WellFormed(f) && WellFormed(g) && Genuine(f)
    requires OnlyKindDamaged(f, g) || OnlySeqNumDamaged(f, g) || OnlyChecksumDamaged(f, g)
          || OnlyPayloadDamaged(f, g, at)
    ensures !Genuine(g)
  {
    if OnlyChecksumDamaged(f, g) {
      CoveredSame(f, g);
    } else {
      var start := DamageIsLocal(f, g, at);
      FourBytesDetected(Covered(f), Covered(g), start);
    }
  }
}
