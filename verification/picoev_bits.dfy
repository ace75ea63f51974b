/** The 16-bit words of the timeout bitmaps; bit 0 is the most significant one. */
module Bits {
  function Mask(b: nat): bv16
    requires b < 16
  {
    0x8000 >> b
  }

  function With(w: bv16, b: nat): bv16
    requires b < 16
  {
    w | Mask(b)
  }

  function Without(w: bv16, b: nat): bv16
    requires b < 16
  {
    w & !Mask(b)
  }

  predicate Bit(w: bv16, b: nat)
    requires b < 16
  {
    w & Mask(b) != 0
  }

  lemma Distinct(b: nat, c: nat)
    requires b < 16 && c < 16
    ensures Mask(b) != 0
    ensures Mask(b) & Mask(c) == if b == c then Mask(b) else 0
  {
  }

  lemma OrOwn(w: bv16, m: bv16)
    ensures (w | m) & m == m
  {
  }

  lemma OrOther(w: bv16, m: bv16, n: bv16)
    requires m & n == 0
    ensures (w | m) & n == w & n
  {
  }

  lemma AndOwn(w: bv16, m: bv16)
    ensures (w & !m) & m == 0
  {
  }

  lemma AndOther(w: bv16, m: bv16, n: bv16)
    requires m & n == 0
    ensures (w & !m) & n == w & n
  {
  }

  lemma OwnBit(w: bv16, b: nat)
    requires b < 16
    ensures Bit(With(w, b), b) && !Bit(Without(w, b), b)
  {
    Distinct(b, b);
    OrOwn(w, Mask(b));
    AndOwn(w, Mask(b));
  }

  lemma OtherBitSet(w: bv16, b: nat, c: nat)
    requires b < 16 && c < 16 && b != c
    ensures Bit(With(w, b), c) <==> Bit(w, c)
  {
    Distinct(b, c);
    OrOther(w, Mask(b), Mask(c));
  }

  lemma OtherBitClear(w: bv16, b: nat, c: nat)
    requires b < 16 && c < 16 && b != c
    ensures Bit(Without(w, b), c) <==> Bit(w, c)
  {
    Distinct(b, c);
    AndOther(w, Mask(b), Mask(c));
  }

  /** Setting and clearing bit b changes bit b alone. */
  lemma SetClear(w: bv16, b: nat, c: nat)
    requires b < 16 && c < 16
    ensures Bit(With(w, b), c) <==> b == c || Bit(w, c)
    ensures Bit(Without(w, b), c) <==> b != c && Bit(w, c)
  {
    hide *;
    if b == c { OwnBit(w, b); } else { OtherBitSet(w, b, c); OtherBitClear(w, b, c); }
  }

  lemma WithNotZero(w: bv16, b: nat)
    requires b < 16
    ensures With(w, b) != 0
    ensures w == 0 ==> Without(w, b) == 0
  {
    hide Mask;
    Distinct(b, b);
    OrOwn(w, Mask(b));
  }

  lemma ShiftBit(w: bv16, c: nat)
    requires c < 16
    ensures Bit(w << 1, c) <==> c < 15 && Bit(w, c + 1)
  {
  }

  /** The C test "word < 0". */
  lemma TopBit(w: bv16)
    ensures Bit(w, 0) <==> w >= 0x8000
  {
  }

  lemma SomeBit(w: bv16) returns (b: nat)
    requires w != 0
    ensures b < 16 && Bit(w, b)
  {
    assert Bit(w, 0) || Bit(w, 1) || Bit(w, 2) || Bit(w, 3) || Bit(w, 4) || Bit(w, 5) || Bit(w, 6) || Bit(w, 7)
        || Bit(w, 8) || Bit(w, 9) || Bit(w, 10) || Bit(w, 11) || Bit(w, 12) || Bit(w, 13) || Bit(w, 14) || Bit(w, 15);
    if Bit(w, 0) { b := 0; } else if Bit(w, 1) { b := 1; } else if Bit(w, 2) { b := 2; } else if Bit(w, 3) { b := 3; }
    else if Bit(w, 4) { b := 4; } else if Bit(w, 5) { b := 5; } else if Bit(w, 6) { b := 6; }
      else if Bit(w, 7) { b := 7; }
    else if Bit(w, 8) { b := 8; } else if Bit(w, 9) { b := 9; } else if Bit(w, 10) { b := 10; }
      else if Bit(w, 11) { b := 11; }
    else if Bit(w, 12) { b := 12; } else if Bit(w, 13) { b := 13; } else if Bit(w, 14) { b := 14; } else { b := 15; }
  }

  lemma NoBit(b: nat)
    requires b < 16
    ensures !Bit(0, b)
  {
  }

  /** v is what is left of w after t shifts. */
  predicate Rest(v: bv16, w: bv16, t: nat) {
    forall c: nat {:trigger Bit(v, c)} :: c < 16 ==> (Bit(v, c) <==> t + c < 16 && Bit(w, t + c))
  }

  function Shifted(v: bv16): bv16 {
    v << 1
  }

  lemma RestStep(v: bv16, w: bv16, t: nat)
    requires Rest(v, w, t) && v != 0
    ensures t < 16 && (v >= 0x8000 <==> Bit(w, t))
    ensures Rest(Shifted(v), w, t + 1)
  {
    hide Bit;
    var b := SomeBit(v);
    TopBit(v);
    assert Bit(v, 0) <==> t + 0 < 16 && Bit(w, t + 0);
    forall c: nat | c < 16 ensures Bit(Shifted(v), c) <==> t + 1 + c < 16 && Bit(w, t + 1 + c) {
      ShiftBit(v, c);
      if c < 15 { assert Bit(v, c + 1) <==> t + (c + 1) < 16 && Bit(w, t + (c + 1)); }
    }
  }

  lemma RestEmpty(w: bv16, t: nat)
    requires Rest(0, w, t)
    ensures forall b: nat {:trigger Bit(w, b)} :: t <= b < 16 ==> !Bit(w, b)
  {
    hide Bit;
    forall b: nat | t <= b < 16 ensures !Bit(w, b) {
      NoBit(b - t);
      assert Bit(0, b - t) <==> t + (b - t) < 16 && Bit(w, t + (b - t));
    }
  }

  lemma RestAll(w: bv16)
    ensures Rest(w, w, 0)
  {
    hide Bit;
    forall c: nat | c < 16 ensures Bit(w, c) <==> 0 + c < 16 && Bit(w, 0 + c) {
      assert 0 + c == c;
    }
  }
}
