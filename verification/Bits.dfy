/** 32-bit words, their bits numbered from the most significant, and shifts as the
    processor does them: by 32 places, nothing is left. */
module Bits {

  const ALL: bv32 := 0xffff_ffff
  const TOP: bv32 := 0x8000_0000

  /** w << n */
  function Shl(w: bv32, n: nat): bv32 {
    if n == 0 then w else Shl(w, n - 1) << 1
  }

  /** w >> n, of an unsigned number */
  function Shr(w: bv32, n: nat): bv32 {
    if n == 0 then w else Shr(w, n - 1) >> 1
  }

  /** Bit k, counting from the top */
  predicate Bit(w: bv32, k: nat) {
    Shl(w, k) & TOP != 0
  }

  // ----- words put together bit by bit

  predicate IsAnd(a: bv32, b: bv32, c: bv32, k: nat) {
    Shl(c, k) == Shl(a, k) & Shl(b, k)
  }

  predicate IsOr(a: bv32, b: bv32, c: bv32, k: nat) {
    Shl(c, k) == Shl(a, k) | Shl(b, k)
  }

  lemma {:induction false} ShlAnd(a: bv32, b: bv32, c: bv32, k: nat)
    requires c == a & b
    ensures IsAnd(a, b, c, k)
  {
    if k > 0 {
      ShlAnd(a, b, c, k - 1);
      AndStep(a, b, c, k);
    }
  }

  lemma AndStep(a: bv32, b: bv32, c: bv32, k: nat)
    requires k > 0 && IsAnd(a, b, c, k - 1)
    ensures IsAnd(a, b, c, k)
  {
  }

  lemma {:induction false} ShlOr(a: bv32, b: bv32, c: bv32, k: nat)
    requires c == a | b
    ensures IsOr(a, b, c, k)
  {
    if k > 0 {
      ShlOr(a, b, c, k - 1);
      OrStep(a, b, c, k);
    }
  }

  lemma OrStep(a: bv32, b: bv32, c: bv32, k: nat)
    requires k > 0 && IsOr(a, b, c, k - 1)
    ensures IsOr(a, b, c, k)
  {
  }

  lemma TopOf(a: bv32, b: bv32)
    ensures a & b & TOP != 0 <==> a & TOP != 0 && b & TOP != 0
    ensures (a | b) & TOP != 0 <==> a & TOP != 0 || b & TOP != 0
  {
  }

  lemma BitAnd(a: bv32, b: bv32, k: nat)
    ensures Bit(a & b, k) <==> Bit(a, k) && Bit(b, k)
    ensures Bit(a | b, k) <==> Bit(a, k) || Bit(b, k)
  {
    ShlAnd(a, b, a & b, k);
    ShlOr(a, b, a | b, k);
    TopOf(Shl(a, k), Shl(b, k));
  }

  lemma {:induction false} ShlNothing(k: nat)
    ensures Shl(0, k) == 0
  {
    if k > 0 { ShlNothing(k - 1); }
  }

  lemma ShlAll(k: nat)
    requires k < 32
    ensures Shl(ALL, k) & TOP != 0
  {
    assert Shl(0xffff_ffff, 0) & TOP != 0 && Shl(0xffff_ffff, 1) & TOP != 0;
    assert Shl(0xffff_ffff, 2) & TOP != 0 && Shl(0xffff_ffff, 3) & TOP != 0;
    assert Shl(0xffff_ffff, 4) & TOP != 0 && Shl(0xffff_ffff, 5) & TOP != 0;
    assert Shl(0xffff_ffff, 6) & TOP != 0 && Shl(0xffff_ffff, 7) & TOP != 0;
    assert Shl(0xffff_ffff, 8) & TOP != 0 && Shl(0xffff_ffff, 9) & TOP != 0;
    assert Shl(0xffff_ffff, 10) & TOP != 0 && Shl(0xffff_ffff, 11) & TOP != 0;
    assert Shl(0xffff_ffff, 12) & TOP != 0 && Shl(0xffff_ffff, 13) & TOP != 0;
    assert Shl(0xffff_ffff, 14) & TOP != 0 && Shl(0xffff_ffff, 15) & TOP != 0;
    assert Shl(0xffff_ffff, 16) & TOP != 0 && Shl(0xffff_ffff, 17) & TOP != 0;
    assert Shl(0xffff_ffff, 18) & TOP != 0 && Shl(0xffff_ffff, 19) & TOP != 0;
    assert Shl(0xffff_ffff, 20) & TOP != 0 && Shl(0xffff_ffff, 21) & TOP != 0;
    assert Shl(0xffff_ffff, 22) & TOP != 0 && Shl(0xffff_ffff, 23) & TOP != 0;
    assert Shl(0xffff_ffff, 24) & TOP != 0 && Shl(0xffff_ffff, 25) & TOP != 0;
    assert Shl(0xffff_ffff, 26) & TOP != 0 && Shl(0xffff_ffff, 27) & TOP != 0;
    assert Shl(0xffff_ffff, 28) & TOP != 0 && Shl(0xffff_ffff, 29) & TOP != 0;
    assert Shl(0xffff_ffff, 30) & TOP != 0 && Shl(0xffff_ffff, 31) & TOP != 0;
  }

  /** Of a word with every bit set, of its opposite, and of nought */
  lemma BitNot(a: bv32, k: nat)
    requires k < 32
    ensures Bit(ALL, k) && !Bit(0, k)
    ensures Bit(!a, k) <==> !Bit(a, k)
  {
    ShlAll(k);
    ShlNothing(k);
    BitAnd(a, !a, k);
    Opposites(a);
  }

  lemma Opposites(a: bv32)
    ensures a & !a == 0 && a | !a == ALL
  {
  }

  // ----- shifts

  lemma {:induction false} ShlAdds(w: bv32, n: nat, k: nat)
    ensures Shl(Shl(w, n), k) == Shl(w, n + k)
  {
    if k > 0 { ShlAdds(w, n, k - 1); }
  }

  lemma {:induction false} ShlNone(w: bv32, n: nat)
    requires n >= 32
    ensures Shl(w, n) == 0
  {
    if n == 32 {
      Shl8(w);
      Shl8(Shl(w, 8));
      Shl8(Shl(w, 16));
      Shl8(Shl(w, 24));
      ShlAdds(w, 8, 8);
      ShlAdds(w, 16, 8);
      ShlAdds(w, 24, 8);
      assert w << 8 << 8 << 8 << 8 == 0;
    } else {
      ShlNone(w, n - 1);
    }
  }

  lemma Shl8(w: bv32)
    ensures Shl(w, 8) == w << 8
  {
    Shl2(w, 0);
    Shl2(w, 2);
    Shl2(w, 4);
    Shl2(w, 6);
    By2(w);
  }

  lemma Shl2(w: bv32, n: nat)
    ensures Shl(w, n + 2) == Shl(w, n) << 1 << 1
  {
    assert Shl(w, n + 1) == Shl(w, n) << 1;
  }

  lemma By2(w: bv32)
    ensures w << 1 << 1 << 1 << 1 << 1 << 1 << 1 << 1 == w << 8
  {
  }

  lemma BitShl(w: bv32, n: nat, k: nat)
    ensures Bit(Shl(w, n), k) <==> k + n < 32 && Bit(w, k + n)
  {
    ShlAdds(w, n, k);
    if k + n >= 32 { ShlNone(w, k + n); }
  }

  /** w >> 1 << 1 loses the last bit, and only that. */
  lemma {:induction false} ShrThenShl(w: bv32, k: nat)
    requires k < 31
    ensures Bit(w >> 1 << 1, k) <==> Bit(w, k)
  {
    LoseLast(w);
    BitAnd(w, 0xffff_fffe, k);
    BitAnd(0xffff_fffe, 1, k);
    BitNot(1, k);
    LastBit(k);
  }

  lemma LoseLast(w: bv32)
    ensures w >> 1 << 1 == w & 0xffff_fffe
    ensures 0xffff_fffe | 1 == ALL
  {
  }

  lemma LastBit(k: nat)
    requires k < 31
    ensures !Bit(1, k)
  {
    assert Shl(1, 0) & TOP == Shl(1, 1) & TOP == Shl(1, 2) & TOP == Shl(1, 3) & TOP == Shl(1, 4) & TOP == Shl(1, 5) & TOP == 0;
    assert Shl(1, 6) & TOP == Shl(1, 7) & TOP == Shl(1, 8) & TOP == Shl(1, 9) & TOP == Shl(1, 10) & TOP == Shl(1, 11) & TOP == 0;
    assert Shl(1, 12) & TOP == Shl(1, 13) & TOP == Shl(1, 14) & TOP == Shl(1, 15) & TOP == Shl(1, 16) & TOP == Shl(1, 17) & TOP == 0;
    assert Shl(1, 18) & TOP == Shl(1, 19) & TOP == Shl(1, 20) & TOP == Shl(1, 21) & TOP == Shl(1, 22) & TOP == Shl(1, 23) & TOP == 0;
    assert Shl(1, 24) & TOP == Shl(1, 25) & TOP == Shl(1, 26) & TOP == Shl(1, 27) & TOP == Shl(1, 28) & TOP == Shl(1, 29) & TOP == 0;
    assert Shl(1, 30) & TOP == 0;
  }

  lemma BitShr1(w: bv32, k: nat)
    requires k < 32
    ensures Bit(w >> 1, k) <==> k > 0 && Bit(w, k - 1)
  {
    if k == 0 {
      assert (w >> 1) & TOP == 0;
    } else {
      ShlAdds(w >> 1, 1, k - 1);
      assert Shl(w >> 1, 1) == w >> 1 << 1;
      ShrThenShl(w, k - 1);
    }
  }

  lemma {:induction false} BitShr(w: bv32, n: nat, k: nat)
    requires k < 32
    ensures Bit(Shr(w, n), k) <==> k >= n && Bit(w, k - n)
  {
    if n > 0 {
      BitShr1(Shr(w, n - 1), k);
      if k > 0 { BitShr(w, n - 1, k - 1); }
    }
  }

  /** A word whose bits from k on are clear has nothing left when shifted by k. */
  lemma {:induction false} NothingLeft(w: bv32, k: nat)
    requires k <= 32 && forall j :: k <= j < 32 ==> !Bit(w, j)
    ensures Shl(w, k) == 0
    decreases 32 - k
  {
    if k == 32 {
      ShlNone(w, 32);
    } else {
      NothingLeft(w, k + 1);
      assert !Bit(w, k);
      Halved(Shl(w, k));
    }
  }

  lemma Halved(a: bv32)
    requires a << 1 == 0 && a & TOP == 0
    ensures a == 0
  {
  }
}
