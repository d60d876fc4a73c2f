/** Positions in a ring of `w` slots: sequence number k lives in slot k mod w. */
module Ring {

  /** k mod w, by taking whole laps away. */
  function Slot(k: nat, w: nat): (s: nat)
    requires w > 0
    ensures s < w
    decreases k
  {
    if k < w then k else Slot(k - w, w)
  }

  lemma {:induction false} SlotIsMod(k: nat, w: nat)
    requires w > 0
    ensures Slot(k, w) == k % w
    decreases k
  {
    if k >= w {
      SlotIsMod(k - w, w);
      ModLap(k, w);
    }
  }

  lemma ModLap(k: nat, w: nat)
    requires 0 < w <= k
    ensures (k - w) % w == k % w
  {
    var q, r := k / w, k % w;
    assert k - w == w * (q - 1) + r;
    DivisionUnique(k - w, w, q - 1, r);
  }

  lemma DivisionUnique(x: int, w: nat, q: int, r: nat)
    requires w > 0 && r < w && x == w * q + r
    ensures x % w == r
  {
    var q', r' := x / w, x % w;
    assert w * (q - q') == r' - r;
    MulGap(w, q - q');
  }

  lemma MulGap(w: int, d: int)
    requires w > 0
    ensures d >= 1 ==> w * d >= w
    ensures d <= -1 ==> w * d <= -w
  {
  }

  /** Numbers less than one lap apart have different slots. */
  lemma {:induction false} SlotDistinct(j: nat, k: nat, w: nat)
    requires w > 0 && j < k < j + w
    ensures Slot(j, w) != Slot(k, w)
    decreases k
  {
    if j >= w {
      SlotDistinct(j - w, k - w, w);
    } else if k >= w {
      assert Slot(k, w) == k - w;
    }
  }

  lemma SlotAlone(lo: nat, k: nat, w: nat)
    requires w > 0 && lo <= k < lo + w
    ensures forall j :: lo <= j < lo + w && j != k ==> Slot(j, w) != Slot(k, w)
  {
    forall j | lo <= j < lo + w && j != k
      ensures Slot(j, w) != Slot(k, w)
    {
      if j < k { SlotDistinct(j, k, w); } else { SlotDistinct(k, j, w); }
    }
  }

  /** The program's index arithmetic: an offset from a remembered position. */
  lemma SlotOffset(base: nat, i: nat, w: nat)
    requires w > 0
    ensures (i + Slot(base, w)) % w == (Slot(base, w) + i) % w == Slot(base + i, w)
    decreases base
  {
    if base < w {
      SlotIsMod(base + i, w);
    } else {
      SlotOffset(base - w, i, w);
    }
  }

  /** The index expression `(p + i) % w` of the program, for a position p remembered for `base`. */
  method Index(p: nat, i: nat, w: nat, ghost base: nat) returns (slot: nat)
    requires w > 0 && p == Slot(base, w)
    ensures slot == Slot(base + i, w)
  {
    SlotOffset(base, i, w);
    slot := (p + i) % w;
  }
}
