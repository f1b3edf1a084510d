/** 64-bit occupancy words: what the source's shifts, masks and bit scans do to single bits. */
module Bits {

  type Word = bv64

  const TOP: Word := 0x8000_0000_0000_0000

  // The word operations of the source, named so that most proofs need not look inside them.

  function And(a: Word, b: Word): Word {
    a & b
  }

  function Or(a: Word, b: Word): Word {
    a | b
  }

  function AndNot(a: Word, b: Word): Word {
    a & !b
  }

  /** All the bits below a mask. */
  function Under(m: Word): Word {
    m - 1
  }

  /** The source's `w & (w - 1)`. */
  function DropLowest(w: Word): Word {
    w & (w - 1)
  }

  /** The word with only bit `i` set, as the source's `uint64{1} << i`. */
  function Mask(i: nat): Word
    requires i < 64
  {
    if i == 0 then 1 else Mask(i - 1) << 1
  }

  predicate Bit(w: Word, i: nat) {
    i < 64 && And(w, Mask(i)) != 0
  }

  // ---- Masks are single, distinct bits

  predicate PowerOfTwo(m: Word) {
    m != 0 && m & (m - 1) == 0
  }

  lemma ShiftPower(m: Word)
    requires PowerOfTwo(m) && m != TOP
    ensures PowerOfTwo(m << 1) && Under(m << 1) == Or(Under(m), m)
  {
  }

  lemma {:induction false} ZeroStays(i: nat, j: nat)
    requires i <= j < 64 && Mask(i) == 0
    ensures Mask(j) == 0
  {
    if i < j {
      ZeroStays(i, j - 1);
    }
  }

  lemma LastMask()
    ensures Mask(63) == TOP
  {
    assert Mask(8) == 0x100;
    assert Mask(16) == 0x1_0000;
    assert Mask(24) == 0x100_0000;
    assert Mask(32) == 0x1_0000_0000;
    assert Mask(40) == 0x100_0000_0000;
    assert Mask(48) == 0x1_0000_0000_0000;
    assert Mask(56) == 0x100_0000_0000_0000;
  }

  lemma {:induction false} MaskIsPower(i: nat)
    requires i < 64
    ensures PowerOfTwo(Mask(i))
    ensures i < 63 ==> Mask(i) != TOP
  {
    LastMask();
    if i > 0 {
      MaskIsPower(i - 1);
      ShiftPower(Mask(i - 1));
    }
    if i < 63 && Mask(i) == TOP {
      assert Mask(i + 1) == TOP << 1 == 0;
      ZeroStays(i + 1, 63);
    }
  }

  lemma MaskStep(i: nat)
    requires 0 < i < 64
    ensures Under(Mask(i)) == Or(Under(Mask(i - 1)), Mask(i - 1))
  {
    MaskIsPower(i - 1);
    ShiftPower(Mask(i - 1));
  }

  /** Lower masks are among the bits below a mask. */
  lemma {:induction false} MaskBelow(i: nat, j: nat)
    requires i < j < 64
    ensures And(Mask(i), Under(Mask(j))) == Mask(i)
    ensures And(Mask(i), Mask(j)) == 0
  {
    hide Mask, And, Or, Under, PowerOfTwo;
    MaskIsPower(j);
    MaskStep(j);
    if i < j - 1 {
      MaskBelow(i, j - 1);
    }
    InsideMask(Mask(i), Mask(j - 1), Mask(j));
  }

  lemma InsideMask(a: Word, p: Word, m: Word)
    requires PowerOfTwo(m) && Under(m) == Or(Under(p), p)
    requires a == p || And(a, Under(p)) == a
    ensures And(a, Under(m)) == a && And(a, m) == 0
  {
  }

  lemma MasksDisjoint(i: nat, j: nat)
    requires i < 64 && j < 64
    ensures i != j ==> And(Mask(i), Mask(j)) == 0
    ensures Mask(i) != 0
  {
    hide Mask, And, Under;
    MaskIsPower(i);
    if i < j {
      MaskBelow(i, j);
    } else if j < i {
      MaskBelow(j, i);
      AndCommutes(Mask(i), Mask(j));
    }
  }

  lemma AndCommutes(a: Word, b: Word)
    ensures And(a, b) == And(b, a)
  {
  }

  // ---- Setting and clearing a bit

  lemma OrSelf(w: Word, m: Word)
    ensures And(Or(w, m), m) == m
  {
  }

  lemma OrOther(w: Word, m: Word, n: Word)
    requires And(m, n) == 0
    ensures And(Or(w, m), n) == And(w, n)
  {
  }

  lemma AndNotSelf(w: Word, m: Word)
    ensures And(AndNot(w, m), m) == 0
  {
  }

  lemma AndNotOther(w: Word, m: Word, n: Word)
    requires And(m, n) == 0
    ensures And(AndNot(w, m), n) == And(w, n)
  {
  }

  lemma SetBit(w: Word, i: nat, j: nat)
    requires i < 64
    ensures Bit(Or(w, Mask(i)), j) <==> Bit(w, j) || j == i
  {
    hide Mask, And, Or;
    if j < 64 {
      MasksDisjoint(i, j);
      if i == j {
        OrSelf(w, Mask(i));
      } else {
        OrOther(w, Mask(i), Mask(j));
      }
    }
  }

  lemma ClearBit(w: Word, i: nat, j: nat)
    requires i < 64
    ensures Bit(AndNot(w, Mask(i)), j) <==> Bit(w, j) && j != i
  {
    hide Mask, And, AndNot;
    if j < 64 {
      MasksDisjoint(i, j);
      if i == j {
        AndNotSelf(w, Mask(i));
      } else {
        AndNotOther(w, Mask(i), Mask(j));
      }
    }
  }

  lemma {:induction false} BelowClear(w: Word, i: nat)
    requires i < 64 && forall j :: 0 <= j < i ==> !Bit(w, j)
    ensures And(w, Under(Mask(i))) == 0
  {
    if i > 0 {
      hide Mask, And, Under, Or;
      BelowClear(w, i - 1);
      MaskStep(i);
      assert !Bit(w, i - 1);
      SplitBelow(w, Mask(i - 1), Mask(i));
    }
  }

  lemma SplitBelow(w: Word, p: Word, m: Word)
    requires And(w, Under(p)) == 0 && And(w, p) == 0 && Under(m) == Or(Under(p), p)
    ensures And(w, Under(m)) == 0
  {
  }

  /** A word is zero exactly when all of its bits are clear. */
  lemma ZeroIff(w: Word)
    ensures w == 0 <==> forall i :: 0 <= i < 64 ==> !Bit(w, i)
  {
    if forall i :: 0 <= i < 64 ==> !Bit(w, i) {
      BelowClear(w, 63);
      LastMask();
      assert !Bit(w, 63);
      AllClear(w);
    } else {
      var i :| 0 <= i < 64 && Bit(w, i);
      assert w != 0;
    }
  }

  lemma AllClear(w: Word)
    requires And(w, TOP) == 0 && And(w, Under(TOP)) == 0
    ensures w == 0
  {
  }

  // ---- Scanning

  /** The index of the lowest set bit: the source's count of trailing zeros. */
  function Lowest(w: Word): (i: nat)
    requires w != 0
    ensures Bit(w, i) && forall j :: 0 <= j < i ==> !Bit(w, j)
  {
    ZeroIff(w);
    LowestFrom(w, 0)
  }

  function LowestFrom(w: Word, i: nat): (k: nat)
    requires i <= 64 && (forall j :: 0 <= j < i ==> !Bit(w, j)) && exists j :: 0 <= j < 64 && Bit(w, j)
    ensures Bit(w, k) && forall j :: 0 <= j < k ==> !Bit(w, j)
    decreases 64 - i
  {
    if Bit(w, i) then i else LowestFrom(w, i + 1)
  }

  /** The index of the highest set bit: 63 minus the source's count of leading zeros. */
  function Highest(w: Word): (i: nat)
    requires w != 0
    ensures Bit(w, i) && forall j :: i < j ==> !Bit(w, j)
  {
    ZeroIff(w);
    HighestFrom(w, 63)
  }

  function HighestFrom(w: Word, i: int): (k: nat)
    requires -1 <= i < 64 && (forall j: nat :: i < j ==> !Bit(w, j)) && exists j :: 0 <= j < 64 && Bit(w, j)
    ensures Bit(w, k) && forall j :: k < j ==> !Bit(w, j)
    decreases i + 1
  {
    if Bit(w, i) then i else HighestFrom(w, i - 1)
  }

  lemma ClearLowestIsMask(w: Word, m: Word)
    requires PowerOfTwo(m) && And(w, m) != 0 && And(w, Under(m)) == 0
    ensures DropLowest(w) == AndNot(w, m)
  {
    hide DropLowest, AndNot;
    RawClearLowest(w, m);
  }

  // The borrow of `w - 1` stops at its lowest bit `m`: `w - 1` is `w` without `m`, plus the bits below `m`.

  lemma RawClearLowest(w: Word, m: Word)
    requires m != 0 && m & (m - 1) == 0 && w & m != 0 && w & (m - 1) == 0
    ensures DropLowest(w) == AndNot(w, m)
  {
    SingleBit(w, m);
    SplitBit(w, m);
    Disjoint(w & !m, m);
    Regroup(w & !m, m);
    Apart(w, m, m - 1);
    Disjoint(w & !m, m - 1);
  }

  lemma SingleBit(w: Word, m: Word)
    requires m & (m - 1) == 0 && w & m != 0
    ensures w & m == m
  {
  }

  lemma SplitBit(w: Word, m: Word)
    requires w & m == m
    ensures (w & !m) & m == 0 && (w & !m) | m == w
  {
  }

  lemma Disjoint(a: Word, b: Word)
    requires a & b == 0
    ensures a + b == a | b
  {
  }

  lemma Regroup(a: Word, m: Word)
    ensures (a + m) - 1 == a + (m - 1)
  {
  }

  lemma Apart(w: Word, m: Word, u: Word)
    requires w & u == 0
    ensures (w & !m) & u == 0 && w & ((w & !m) | u) == w & !m
  {
  }

  /** `DropLowest` clears the lowest set bit and no other. */
  lemma ClearLowest(w: Word, j: nat)
    requires w != 0
    ensures Bit(DropLowest(w), j) <==> Bit(w, j) && j != Lowest(w)
  {
    hide Mask, And, Under, DropLowest, AndNot, PowerOfTwo, Lowest;
    var i := Lowest(w);
    BelowClear(w, i);
    MaskIsPower(i);
    ClearLowestIsMask(w, Mask(i));
    ClearBit(w, i, j);
  }

  /** How many bits below `n` are set. */
  function CountBelow(w: Word, n: nat): nat {
    if n == 0 then 0 else CountBelow(w, n - 1) + if Bit(w, n - 1) then 1 else 0
  }

  function PopCount(w: Word): nat {
    CountBelow(w, 64)
  }

  lemma {:induction false} CountAfterClear(w: Word, n: nat)
    requires w != 0
    ensures CountBelow(DropLowest(w), n) == CountBelow(w, n) - if Lowest(w) < n then 1 else 0
  {
    hide Bit, Lowest, DropLowest;
    if n > 0 {
      CountAfterClear(w, n - 1);
      ClearLowest(w, n - 1);
    }
  }

  /** Clearing the lowest bit takes exactly one bit off the count. */
  lemma PopCountDown(w: Word)
    ensures w != 0 ==> PopCount(w) == PopCount(DropLowest(w)) + 1
    ensures w == 0 ==> PopCount(w) == 0
  {
    if w != 0 {
      CountAfterClear(w, 64);
    } else {
      CountZero(64);
    }
  }

  lemma {:induction false} CountZero(n: nat)
    ensures CountBelow(0, n) == 0
  {
    if n > 0 {
      CountZero(n - 1);
      assert !Bit(0, n - 1);
    }
  }
}
