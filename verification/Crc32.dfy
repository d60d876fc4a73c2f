/** The checksum of the transport (lab2-rtp/Lab2-RTP/src/util.c) and what it detects.

    The program keeps its CRC register complemented, which is why its byte step tests the low bit
    the other way round, folds 0xFF000000 into each table entry and starts from 0. The reference here
    is the ordinary reflected CRC-32 of section 8 of RFC 1952, written bit by bit. */
module Crc32 {
  import opened Words

  const POLY: uint32 := 0xEDB88320
  const ONES: uint32 := 0xFFFF_FFFF
  const TOP_BYTE: uint32 := 0xFF00_0000

  // ----- Reference: one message bit at a time ---------------------------------------------------

  /** Shift the reflected register by one bit. */
  function Step(c: nat): nat {
    if c % 2 == 1 then Xor(c / 2, POLY) else c / 2
  }

  function Steps(c: nat, n: nat): nat
    decreases n
  {
    if n == 0 then c else Steps(Step(c), n - 1)
  }

  /** Feed a sequence of message bits into the register. */
  function FeedBits(c: nat, bits: seq<bool>): nat
    decreases |bits|
  {
    if bits == [] then c else FeedBits(Step(Xor(c, if bits[0] then 1 else 0)), bits[1..])
  }

  /** The low `n` bits of a word, least significant first, as RFC 1952 numbers the bits of a byte. */
  function Bits(w: nat, n: nat): (bits: seq<bool>)
    ensures |bits| == n
    decreases n
  {
    if n == 0 then [] else [w % 2 == 1] + Bits(w / 2, n - 1)
  }

  function MessageBits(data: seq<byte>): (bits: seq<bool>)
    ensures |bits| == 8 * |data|
  {
    if data == [] then [] else Bits(data[0], 8) + MessageBits(data[1..])
  }

  /** CRC-32 of RFC 1952: initial and final complement around the bit-serial register. */
  function Crc(data: seq<byte>): nat {
    Xor(FeedBits(ONES, MessageBits(data)), ONES)
  }

  // ----- The program: one table entry per byte --------------------------------------------------

  /** One round of the loop in crc32_for_byte: the test is inverted. */
  function InvertedStep(r: nat): nat {
    Xor(if r % 2 == 1 then 0 else POLY, r / 2)
  }

  function InvertedSteps(r: nat, n: nat): nat
    decreases n
  {
    if n == 0 then r else InvertedSteps(InvertedStep(r), n - 1)
  }

  function TableEntry(i: nat): nat {
    Xor(InvertedSteps(i, 8), TOP_BYTE)
  }

  function UpdateByte(crc: nat, b: byte): nat {
    Xor(TableEntry(Xor(crc % 0x100, b)), crc / 0x100)
  }

  function Update(crc: nat, data: seq<byte>): nat
    decreases |data|
  {
    if data == [] then crc else Update(UpdateByte(crc, data[0]), data[1..])
  }

  lemma InvertedStepNext(x: uint32, n: nat)
    requires n > 0
    ensures InvertedStep(x) < 0x1_0000_0000 && InvertedSteps(x, n) == InvertedSteps(InvertedStep(x), n - 1)
  {
    Fits32(if x % 2 == 1 then 0 else POLY, x / 2);
  }

  /** The loop of crc32_for_byte, for n rounds. */
  method Rounds(r: uint32, n: nat) returns (x: uint32)
    ensures x == InvertedSteps(r, n)
  {
    x := r;
    for j := 0 to n
      invariant InvertedSteps(x, n - j) == InvertedSteps(r, n)
    {
      InvertedStepNext(x, n - j);
      x := Xor(if x % 2 == 1 then 0 else POLY, x / 2);
    }
  }

  method Crc32ForByte(r: uint32) returns (res: uint32)
    ensures res == TableEntry(r)
  {
    var x := Rounds(r, 8);
    Fits32(x, TOP_BYTE);
    res := Xor(x, TOP_BYTE);
  }

  /** The function-local static table of crc32: all zero until first use. */
  class Table {
    const entries: array<uint32>

    ghost predicate Valid()
      reads this, entries
    {
      entries.Length == 0x100 && (entries[0] != 0 ==> Filled(0x100))
    }

    ghost predicate Filled(n: nat)
      requires n <= entries.Length
      reads this, entries
    {
      forall i :: 0 <= i < n ==> entries[i] == TableEntry(i)
    }

    constructor ()
      ensures Valid() && fresh(entries)
    {
      entries := new uint32[0x100](_ => 0);
    }

    method Fill()
      requires entries.Length == 0x100
      modifies entries
      ensures Filled(0x100)
    {
      for i := 0 to 0x100
        invariant entries.Length == 0x100 && Filled(i)
      {
        FillEntry(i);
      }
    }

    method FillEntry(i: nat)
      requires i < entries.Length == 0x100 && Filled(i)
      modifies entries
      ensures Filled(i + 1)
    {
      var entry := Crc32ForByte(i);
      entries[i] := entry;
    }

    /** crc32: fill the table if its first entry is still zero, then fold the bytes into `crc`. */
    method Run(data: seq<byte>, initial: uint32) returns (crc: uint32)
      requires Valid()
      modifies entries
      ensures Valid()
      ensures crc == Update(initial, data)
    {
      if entries[0] == 0 {
        Fill();
      }
      crc := initial;
      for i := 0 to |data|
        invariant Filled(0x100)
        invariant Update(crc, data[i..]) == Update(initial, data)
      {
        crc := Lookup(crc, data[i]);
        assert data[i..][1..] == data[i + 1..];
      }
    }

    method Lookup(crc: uint32, b: byte) returns (next: uint32)
      requires entries.Length == 0x100 && Filled(0x100)
      ensures next == UpdateByte(crc, b)
    {
      Fits8(crc % 0x100, b);
      var index := Xor(crc % 0x100, b);
      Fits32(entries[index], crc / 0x100);
      next := Xor(entries[index], crc / 0x100);
    }

    /** compute_checksum: the RFC 1952 checksum, whether or not the table was filled before. */
    method ComputeChecksum(data: seq<byte>) returns (crc: uint32)
      requires Valid()
      modifies entries
      ensures Valid()
      ensures crc == Crc(data)
    {
      crc := Run(data, 0);
      ChecksumIsCrc(data);
    }
  }

  lemma Fits32(a: uint32, b: uint32)
    ensures Xor(a, b) < 0x1_0000_0000
  {
    Pow2Values();
    XorBound(a, b, 32);
  }

  lemma Fits8(a: byte, b: byte)
    ensures Xor(a, b) < 0x100
  {
    assert Pow2(8) == 0x100;
    XorBound(a, b, 8);
  }

  // ----- Refinement: the program computes the reference -----------------------------------------

  /** The register update is linear over exclusive or. */
  lemma StepXor(x: nat, y: nat)
    ensures Step(Xor(x, y)) == Xor(Step(x), Step(y))
  {
    var a, b := x / 2, y / 2;
    XorBit(x, y);
    XorZero(Xor(a, b));
    XorZero(a);
    XorZero(b);
    XorSelf(POLY);
    XorZero(POLY);
    XorSwap(a, if x % 2 == 1 then POLY else 0, b, if y % 2 == 1 then POLY else 0);
  }

  lemma {:induction false} StepsXor(x: nat, y: nat, n: nat)
    ensures Steps(Xor(x, y), n) == Xor(Steps(x, n), Steps(y, n))
    decreases n
  {
    if n > 0 {
      StepXor(x, y);
      StepsXor(Step(x), Step(y), n - 1);
    }
  }

  lemma {:induction false} StepsShifted(q: nat, n: nat)
    ensures Steps(Shl(q, n), n) == q
    decreases n
  {
    if n > 0 {
      StepsShifted(q, n - 1);
    }
  }

  /** Running n steps only folds the low n bits; the rest just move down. */
  lemma StepsSplit(c: nat, n: nat)
    ensures Steps(c, n) == Xor(Steps(Low(c, n), n), Shr(c, n))
  {
    Split(c, n);
    StepsXor(Low(c, n), Shl(Shr(c, n), n), n);
    StepsShifted(Shr(c, n), n);
  }

  /** The word whose low bits are the given bits, first bit lowest. */
  function Word(bits: seq<bool>): nat {
    if bits == [] then 0 else (if bits[0] then 1 else 0) + 2 * Word(bits[1..])
  }

  /** Feeding bits one at a time is folding them in together and then stepping. */
  lemma {:induction false} FeedIsSteps(c: nat, bits: seq<bool>)
    ensures FeedBits(c, bits) == Steps(Xor(c, Word(bits)), |bits|)
    decreases |bits|
  {
    if bits == [] {
      XorZero(c);
    } else {
      var b, w := if bits[0] then 1 else 0, Word(bits[1..]);
      FeedIsSteps(Step(Xor(c, b)), bits[1..]);
      assert Xor(b, 2 * w) == b + 2 * w by { XorZero(w); }
      XorAssoc(c, b, 2 * w);
      StepXor(Xor(c, b), 2 * w);
    }
  }

  lemma {:induction false} WordOfBits(w: nat, n: nat)
    ensures Word(Bits(w, n)) == Low(w, n)
    decreases n
  {
    if n > 0 {
      WordOfBits(w / 2, n - 1);
      assert Bits(w, n)[1..] == Bits(w / 2, n - 1);
    }
  }

  lemma {:induction false} FeedAppend(c: nat, a: seq<bool>, b: seq<bool>)
    ensures FeedBits(c, a + b) == FeedBits(FeedBits(c, a), b)
    decreases |a|
  {
    if a == [] {
      assert a + b == b;
    } else {
      assert (a + b)[1..] == a[1..] + b;
      FeedAppend(Step(Xor(c, if a[0] then 1 else 0)), a[1..], b);
    }
  }

  lemma ByteWord(b: byte)
    ensures Word(Bits(b, 8)) == b
  {
    WordOfBits(b, 8);
    ByteShift(b);
  }

  lemma {:induction false} ByteHasNoHigh(b: nat, n: nat)
    requires b < Pow2(n)
    ensures Low(b, n) == b && Shr(b, n) == 0
    decreases n
  {
    if n > 0 {
      ByteHasNoHigh(b / 2, n - 1);
    }
  }

  /** Feeding the bits of a small word folds it into the low end of the register. */
  lemma FeedLow(c: nat, b: nat, n: nat)
    requires b < Pow2(n)
    ensures FeedBits(c, Bits(b, n)) == Xor(Steps(Xor(Low(c, n), b), n), Shr(c, n))
  {
    FeedIsSteps(c, Bits(b, n));
    WordOfBits(b, n);
    StepsSplit(Xor(c, b), n);
    XorLow(c, b, n);
    XorShr(c, b, n);
    ByteHasNoHigh(b, n);
    XorZero(Shr(c, n));
  }

  /** Reference and program agree on one byte. */
  lemma FeedByte(c: nat, b: byte)
    ensures FeedBits(c, Bits(b, 8)) == Xor(Steps(Xor(Low(c, 8), b), 8), Shr(c, 8))
  {
    assert Pow2(8) == 0x100;
    FeedLow(c, b, 8);
  }

  lemma InvertedOne(s: nat, mask: nat)
    requires mask % 2 == 1
    ensures InvertedStep(Xor(s, mask)) == Xor(Step(s), mask / 2)
  {
    var h, m := s / 2, mask / 2;
    XorBit(s, mask);
    if s % 2 == 1 {
      XorComm(POLY, Xor(h, m));
      XorAssoc(h, m, POLY);
      XorComm(m, POLY);
      XorAssoc(h, POLY, m);
    } else {
      XorZero(Xor(h, m));
    }
  }

  lemma {:induction false} InvertedMany(s: nat, n: nat)
    ensures InvertedSteps(Xor(s, Pow2(n) - 1), n) == Steps(s, n)
    decreases n
  {
    if n == 0 {
      XorZero(s);
    } else {
      InvertedOne(s, Pow2(n) - 1);
      InvertedMany(Step(s), n - 1);
    }
  }

  /** The table entry of a complemented index. */
  lemma ComplementEntry(low: nat, b: nat)
    ensures TableEntry(Xor(Xor(low, 0xFF), b)) == Xor(Steps(Xor(low, b), 8), TOP_BYTE)
  {
    XorAssoc(low, 0xFF, b);
    XorComm(0xFF, b);
    XorAssoc(low, b, 0xFF);
    assert Pow2(8) - 1 == 0xFF;
    InvertedMany(Xor(low, b), 8);
  }

  /** Eight ones above n zeros, folded with n ones. */
  lemma {:induction false} OnesBelow(n: nat)
    ensures Xor(0xFF * Pow2(n), Pow2(n) - 1) == 0x100 * Pow2(n) - 1
  {
    if n == 0 {
      XorZero(0xFF);
    } else {
      OnesBelow(n - 1);
      var p := Pow2(n - 1);
      assert Xor(0xFF * (2 * p), 2 * p - 1) == 2 * Xor(0xFF * p, p - 1) + 1;
    }
  }

  lemma TopAndRest()
    ensures Xor(TOP_BYTE, 0xFF_FFFF) == ONES
  {
    Pow2Values();
    OnesBelow(24);
  }

  lemma UpdateComplemented(x: nat, low: nat, high: nat, b: byte)
    requires x % 0x100 == Xor(low, 0xFF) && x / 0x100 == Xor(high, 0xFF_FFFF)
    ensures UpdateByte(x, b) == Xor(Xor(Steps(Xor(low, b), 8), high), ONES)
  {
    ComplementEntry(low, b);
    XorSwap(Steps(Xor(low, b), 8), TOP_BYTE, high, 0xFF_FFFF);
    TopAndRest();
  }

  /** The complemented byte update is the ordinary one, for every register value. */
  lemma UpdateIsFeed(c: uint32, b: byte)
    ensures UpdateByte(Xor(c, ONES), b) == Xor(FeedBits(c, Bits(b, 8)), ONES)
  {
    ByteXor(c, ONES);
    UpdateComplemented(Xor(c, ONES), c % 0x100, c / 0x100, b);
    FeedByte(c, b);
    ByteShift(c);
  }

  lemma {:induction false} FeedFits(c: uint32, bits: seq<bool>)
    ensures FeedBits(c, bits) < 0x1_0000_0000
    decreases |bits|
  {
    if bits != [] {
      var x: uint32 := c;
      Fits32(c, if bits[0] then 1 else 0);
      x := Xor(c, if bits[0] then 1 else 0);
      Fits32(x / 2, POLY);
      FeedFits(Step(x), bits[1..]);
    }
  }

  lemma {:induction false} UpdateIsFeedAll(c: uint32, data: seq<byte>)
    ensures Update(Xor(c, ONES), data) == Xor(FeedBits(c, MessageBits(data)), ONES)
    decreases |data|
  {
    if data != [] {
      UpdateIsFeed(c, data[0]);
      FeedFits(c, Bits(data[0], 8));
      UpdateIsFeedAll(FeedBits(c, Bits(data[0], 8)), data[1..]);
      FeedAppend(c, Bits(data[0], 8), MessageBits(data[1..]));
    }
  }

  /** compute_checksum equals the CRC-32 of RFC 1952 on every byte sequence. */
  lemma ChecksumIsCrc(data: seq<byte>)
    ensures Update(0, data) == Crc(data)
  {
    XorSelf(ONES);
    UpdateIsFeedAll(ONES, data);
  }

  // ----- Error detection ------------------------------------------------------------------------

  lemma StepInjective(x: uint32, y: uint32)
    requires Step(x) == Step(y)
    ensures x == y
  {
    Pow2Values();
    XorTop(x / 2, POLY, 31);
    XorTop(y / 2, POLY, 31);
    if x % 2 == 1 && y % 2 == 1 {
      XorCancel(x / 2, y / 2, POLY);
    }
  }

  lemma {:induction false} StepsInjective(x: uint32, y: uint32, n: nat)
    requires Steps(x, n) == Steps(y, n)
    ensures x == y
    decreases n
  {
    if n > 0 {
      Fits32(x / 2, POLY);
      Fits32(y / 2, POLY);
      StepsInjective(Step(x), Step(y), n - 1);
      StepInjective(x, y);
    }
  }

  lemma {:induction false} WordFits(bits: seq<bool>)
    ensures Word(bits) < Pow2(|bits|)
  {
    if bits != [] {
      WordFits(bits[1..]);
    }
  }

  lemma {:induction false} WordInjective(a: seq<bool>, b: seq<bool>)
    requires |a| == |b| && Word(a) == Word(b)
    ensures a == b
  {
    if a != [] {
      WordInjective(a[1..], b[1..]);
      assert a == [a[0]] + a[1..] && b == [b[0]] + b[1..];
    }
  }

  lemma {:induction false} Pow2Grows(m: nat, n: nat)
    requires m <= n
    ensures Pow2(m) <= Pow2(n)
    decreases n
  {
    if m < n {
      Pow2Grows(m, n - 1);
    }
  }

  /** Two different windows of at most 32 bits leave different registers. */
  lemma WindowSeparates(c: uint32, a: seq<bool>, b: seq<bool>)
    requires |a| == |b| <= 32 && a != b
    ensures FeedBits(c, a) != FeedBits(c, b)
  {
    var x, y := WindowWord(c, a), WindowWord(c, b);
    if FeedBits(c, a) == FeedBits(c, b) {
      StepsInjective(x, y, |a|);
      WindowWordInjective(c, a, b);
    }
  }

  lemma WindowWordInjective(c: nat, a: seq<bool>, b: seq<bool>)
    requires |a| == |b| && Xor(c, Word(a)) == Xor(c, Word(b))
    ensures a == b
  {
    XorComm(c, Word(a));
    XorComm(c, Word(b));
    XorCancel(Word(a), Word(b), c);
    WordInjective(a, b);
  }

  ghost function WindowWord(c: uint32, a: seq<bool>): (x: uint32)
    requires |a| <= 32
    ensures x == Xor(c, Word(a)) && FeedBits(c, a) == Steps(x, |a|)
  {
    FeedIsSteps(c, a);
    WordFits(a);
    Pow2Grows(|a|, 32);
    Pow2Values();
    Fits32(c, Word(a));
    Xor(c, Word(a))
  }

  /** Equal bits keep different registers different. */
  lemma SameBitsSeparate(x: uint32, y: uint32, bits: seq<bool>)
    requires x != y
    ensures FeedBits(x, bits) != FeedBits(y, bits)
    decreases |bits|
  {
    if bits != [] {
      var b := if bits[0] then 1 else 0;
      Fits32(x, b);
      Fits32(y, b);
      var x', y': uint32 := Xor(x, b), Xor(y, b);
      if Step(x') == Step(y') {
        StepInjective(x', y');
        XorCancel(x, y, b);
      }
      Fits32(x' / 2, POLY);
      Fits32(y' / 2, POLY);
      SameBitsSeparate(Step(x'), Step(y'), bits[1..]);
    }
  }

  lemma MessageBitsParts(a: seq<byte>)
    requires a != []
    ensures MessageBits(a)[..8] == Bits(a[0], 8) && MessageBits(a)[8..] == MessageBits(a[1..])
  {
  }

  lemma ByteOfBits(a: byte, b: byte)
    requires Bits(a, 8) == Bits(b, 8)
    ensures a == b
  {
    ByteWord(a);
    ByteWord(b);
  }

  lemma {:induction false} MessageBitsInjective(a: seq<byte>, b: seq<byte>)
    requires |a| == |b| && MessageBits(a) == MessageBits(b)
    ensures a == b
  {
    if a != [] {
      MessageBitsParts(a);
      MessageBitsParts(b);
      ByteOfBits(a[0], b[0]);
      MessageBitsInjective(a[1..], b[1..]);
      assert a == [a[0]] + a[1..] && b == [b[0]] + b[1..];
    }
  }

  /** Two messages agree outside the bits lo .. lo+32. */
  ghost predicate WithinBurst(a: seq<byte>, b: seq<byte>, lo: nat) {
    |a| == |b| && forall i :: 0 <= i < 8 * |a| && !(lo <= i < lo + 32) ==> MessageBits(a)[i] == MessageBits(b)[i]
  }

  /** Bit sequences that differ, but only inside one window of at most 32 bits, leave different registers. */
  lemma BitBurst(c: uint32, x: seq<bool>, y: seq<bool>, from: nat, to: nat)
    requires |x| == |y| && from <= to <= |x| && to - from <= 32
    requires x[..from] == y[..from] && x[to..] == y[to..]
    requires x[from..to] != y[from..to]
    ensures FeedBits(c, x) != FeedBits(c, y)
  {
    var d := FeedPrefix(c, x[..from]);
    WindowSeparates(d, x[from..to], y[from..to]);
    SameBitsSeparate(FeedPrefix(d, x[from..to]), FeedPrefix(d, y[from..to]), x[to..]);
    FeedThree(c, x, from, to);
    FeedThree(c, y, from, to);
  }

  ghost function FeedPrefix(c: uint32, bits: seq<bool>): (d: uint32)
    ensures d == FeedBits(c, bits)
  {
    FeedFits(c, bits);
    FeedBits(c, bits)
  }

  lemma FeedThree(c: nat, x: seq<bool>, from: nat, to: nat)
    requires from <= to <= |x|
    ensures FeedBits(c, x) == FeedBits(FeedBits(FeedBits(c, x[..from]), x[from..to]), x[to..])
  {
    assert x == x[..from] + (x[from..to] + x[to..]);
    FeedAppend(c, x[..from], x[from..to] + x[to..]);
    FeedAppend(FeedBits(c, x[..from]), x[from..to], x[to..]);
  }

  lemma BurstWindow(x: seq<bool>, y: seq<bool>, from: nat, to: nat)
    requires |x| == |y| && from <= to <= |x|
    requires forall i :: 0 <= i < |x| && !(from <= i < to) ==> x[i] == y[i]
    ensures x[..from] == y[..from] && x[to..] == y[to..]
    ensures x[from..to] == y[from..to] ==> x == y
  {
    assert x == x[..from] + x[from..to] + x[to..];
    assert y == y[..from] + y[from..to] + y[to..];
  }

  /** Every burst of up to 32 bits, at any bit position and any length, changes the checksum. */
  lemma BurstDetected(a: seq<byte>, b: seq<byte>, lo: nat)
    requires WithinBurst(a, b, lo)
    ensures a != b ==> Crc(a) != Crc(b)
  {
    if a != b && Crc(a) == Crc(b) {
      var x, y := MessageBits(a), MessageBits(b);
      var from := if lo <= |x| then lo else |x|;
      var to := if lo + 32 <= |x| then lo + 32 else |x|;
      BurstWindow(x, y, from, to);
      XorCancel(FeedBits(ONES, x), FeedBits(ONES, y), ONES);
      if x == y {
        MessageBitsInjective(a, b);
      } else {
        BitBurst(ONES, x, y, from, to);
      }
    }
  }

  lemma MessageBitShift(data: seq<byte>, i: nat)
    requires data != [] && i < |MessageBits(data[1..])|
    ensures i + 8 < |MessageBits(data)| && MessageBits(data)[i + 8] == MessageBits(data[1..])[i]
  {
    MessageBitsParts(data);
    assert MessageBits(data)[8..][i] == MessageBits(data)[i + 8];
  }

  lemma {:induction false} BitOfByte(data: seq<byte>, k: nat, j: nat)
    requires k < |data| && j < 8
    ensures 8 * k + j < |MessageBits(data)| && MessageBits(data)[8 * k + j] == Bits(data[k], 8)[j]
    decreases k
  {
    if k == 0 {
      MessageBitsParts(data);
      assert MessageBits(data)[j] == MessageBits(data)[..8][j];
    } else {
      BitOfByte(data[1..], k - 1, j);
      MessageBitShift(data, 8 * (k - 1) + j);
    }
  }

  lemma BitPosition(i: nat) returns (k: nat, j: nat)
    ensures i == 8 * k + j && j < 8
  {
    k, j := i / 8, i % 8;
  }

  lemma BitsAgree(a: seq<byte>, b: seq<byte>, k: nat, j: nat)
    requires k < |a| == |b| && j < 8 && a[k] == b[k]
    ensures 8 * k + j < 8 * |a| && MessageBits(a)[8 * k + j] == MessageBits(b)[8 * k + j]
  {
    BitOfByte(a, k, j);
    BitOfByte(b, k, j);
  }

  lemma BitOutside(a: seq<byte>, b: seq<byte>, at: nat, i: nat)
    requires |a| == |b| && i < 8 * |a| && !(8 * at <= i < 8 * at + 32)
    requires forall k :: 0 <= k < |a| && !(at <= k < at + 4) ==> a[k] == b[k]
    ensures MessageBits(a)[i] == MessageBits(b)[i]
  {
    var k, j := BitPosition(i);
    BitsAgree(a, b, k, j);
  }

  lemma FourBytesAreBurst(a: seq<byte>, b: seq<byte>, at: nat)
    requires |a| == |b|
    requires forall k :: 0 <= k < |a| && !(at <= k < at + 4) ==> a[k] == b[k]
    ensures WithinBurst(a, b, 8 * at)
  {
    forall i | 0 <= i < 8 * |a| && !(8 * at <= i < 8 * at + 32)
      ensures MessageBits(a)[i] == MessageBits(b)[i]
    {
      BitOutside(a, b, at, i);
    }
  }

  /** In particular any change confined to four consecutive bytes is detected. */
  lemma FourBytesDetected(a: seq<byte>, b: seq<byte>, at: nat)
    requires |a| == |b| && a != b
    requires forall k :: 0 <= k < |a| && !(at <= k < at + 4) ==> a[k] == b[k]
    ensures Crc(a) != Crc(b)
  {
    FourBytesAreBurst(a, b, at);
    BurstDetected(a, b, 8 * at);
  }
}
