/** Exclusive or and rotation of words of 32 and 64 bits are those of machine words, given by bit vectors. */
module BitWords {
  import opened Align
  import opened ExclusiveOr
  import opened Words

  function V64(w: bv64): nat { w as nat }

  // ----- bit by bit

  function V63(w: bv63): nat { w as nat }
  function V1(w: bv1): nat { w as nat }

  lemma Digits(w: bv64)
    ensures V64(w) == 2 * V64(w >> 1) + V64(w & 1)
  {
    hide *;
    AsParts(w);
    OfParts(w, (w >> 1) as bv63, (w & 1) as bv1);
  }

  lemma AsParts(w: bv64)
    ensures var h, l := (w >> 1) as bv63, (w & 1) as bv1;
      w == (((h as bv64) << 1) | (l as bv64)) && w >> 1 == h as bv64 && w & 1 == l as bv64
  {
  }

  lemma OfParts(w: bv64, h: bv63, l: bv1)
    requires w == (((h as bv64) << 1) | (l as bv64)) && w >> 1 == h as bv64 && w & 1 == l as bv64
    ensures V64(w) == 2 * V64(w >> 1) + V64(w & 1)
  {
    hide *;
    JoinBit(h, l);
    Longer(h, l);
  }

  lemma JoinBit(h: bv63, l: bv1)
    ensures V64(((h as bv64) << 1) | (l as bv64)) == 2 * V63(h) + V1(l)
  {
  }

  lemma Longer(h: bv63, l: bv1)
    ensures V64(h as bv64) == V63(h) && V64(l as bv64) == V1(l)
  {
  }

  lemma Smallest(w: bv64)
    ensures V64(0) == 0 && V64(1) == 1 && (V64(w) == 0 <==> w == 0) && (w & 1 == 0 || w & 1 == 1)
  {
  }

  lemma {:induction false} Xor64(x: bv64, y: bv64)
    ensures Xor(V64(x), V64(y)) == V64(x ^ y)
    decreases V64(x) + V64(y)
  {
    hide *;
    Smallest(x);
    Smallest(y);
    if x == 0 && y == 0 {
      XorZero();
    } else {
      Digits(x);
      Digits(y);
      Digits(x ^ y);
      XorBits(x, y);
      XorLast(x, y);
      Xor64(x >> 1, y >> 1);
      XorDigits(V64(x >> 1), V64(x & 1), V64(y >> 1), V64(y & 1));
    }
  }

  lemma XorZero()
    ensures Xor(0, 0) == 0 && (0 as bv64) ^ 0 == 0
  {
  }

  lemma XorDigits(a: nat, b: nat, c: nat, d: nat)
    requires b < 2 && d < 2
    ensures Xor(2 * a + b, 2 * c + d) == 2 * Xor(a, c) + if b == d then 0 else 1
  {
  }

  lemma XorLast(x: bv64, y: bv64)
    ensures V64(x & 1) < 2 && V64(y & 1) < 2
    ensures V64((x ^ y) & 1) == if V64(x & 1) == V64(y & 1) then 0 else 1
  {
    XorBits(x, y);
    Smallest(x);
    Smallest(y);
    hide V64;
    assert (0 as bv64) ^ 1 == 1 && (1 as bv64) ^ 0 == 1 && (1 as bv64) ^ 1 == 0 && (0 as bv64) ^ 0 == 0;
  }

  lemma XorBits(x: bv64, y: bv64)
    ensures (x ^ y) >> 1 == (x >> 1) ^ (y >> 1) && (x ^ y) & 1 == (x & 1) ^ (y & 1)
  {
  }

  // ----- addition, one at a time

  const MAX_64: bv64 := 0xffff_ffff_ffff_ffff

  function Inc(z: bv64): bv64 { z + 1 }
  function Plus64(x: bv64, y: bv64): bv64 { x + y }

  lemma {:induction false} Next(z: bv64)
    ensures V64(Inc(z)) == if z == MAX_64 then 0 else V64(z) + 1
    decreases V64(z)
  {
    hide *;
    Smallest(z);
    Digits(z);
    Digits(Inc(z));
    NextBits(z);
    if z != MAX_64 && z & 1 == 1 {
      Next(z >> 1);
    } else {
      Smallest(Inc(z));
    }
  }

  lemma NextBits(z: bv64)
    ensures z & 1 == 0 ==> Inc(z) >> 1 == z >> 1 && Inc(z) & 1 == 1 && z != MAX_64
    ensures z & 1 == 1 ==> Inc(z) & 1 == 0 && (Inc(z) >> 1 == if z == MAX_64 then 0 else Inc(z >> 1))
    ensures z == MAX_64 ==> Inc(z) == 0
    ensures z >> 1 != MAX_64
  {
  }

  lemma {:induction false} Sum64(x: bv64, y: bv64)
    ensures V64(Plus64(x, y)) == (V64(x) + V64(y)) % 0x1_0000_0000_0000_0000
    decreases V64(y)
  {
    hide *;
    Smallest(y);
    InRange(x);
    if y == 0 {
      NoMore(x);
    } else {
      var d := y - 1;
      Before(x, y);
      Next(d);
      Sum64(x, d);
      OneMore(x, y, Plus64(x, d));
      Next(Plus64(x, d));
      InRange(Plus64(x, d));
      InRange(y);
    }
  }

  lemma InRange(x: bv64)
    ensures V64(x) < 0x1_0000_0000_0000_0000
    ensures V64(x) == 0xffff_ffff_ffff_ffff <==> x == MAX_64
  {
  }

  lemma NoMore(x: bv64)
    ensures Plus64(x, 0) == x
  {
  }

  lemma Before(x: bv64, y: bv64)
    ensures Plus64(x, y - 1) == x + (y - 1) && Inc(y - 1) == y && (y != 0 ==> y - 1 != MAX_64)
  {
  }

  lemma OneMore(x: bv64, y: bv64, u: bv64)
    requires u == x + (y - 1)
    ensures Inc(u) == Plus64(x, y)
  {
    hide *;
    IncOf(x, y);
  }

  lemma IncOf(x: bv64, y: bv64)
    ensures Inc(x + (y - 1)) == Plus64(x, y)
  {
  }

  // ----- 32 bits

  function V32(w: bv32): nat { w as nat }

  lemma Long(x: bv32)
    ensures V64(x as bv64) == V32(x)
  {
  }

  lemma LongXor(x: bv32, y: bv32, w: bv32)
    requires w == x ^ y
    ensures w as bv64 == (x as bv64) ^ (y as bv64)
  {
  }

  lemma Xor32Of(x: bv64, y: bv64, w: bv64)
    requires w == x ^ y
    ensures Xor(V64(x), V64(y)) == V64(w)
  {
    hide *;
    Xor64(x, y);
  }

  lemma Xor32As(x: bv32, y: bv32, w: bv32)
    requires w == x ^ y
    ensures Xor(V32(x), V32(y)) == V32(w)
  {
    hide *;
    Long(x);
    Long(y);
    Long(w);
    LongXor(x, y, w);
    Xor32Of(x as bv64, y as bv64, w as bv64);
  }

  lemma Xor32(x: bv32, y: bv32)
    ensures Xor(V32(x), V32(y)) == V32(x ^ y)
  {
    hide *;
    Xor32As(x, y, x ^ y);
  }

  function Plus32(x: bv32, y: bv32): bv32 { x + y }

  lemma LowHalf(h: bv32, l: bv32)
    ensures V64(((h as bv64) << 32) | (l as bv64)) == 0x1_0000_0000 * V32(h) + V32(l)
  {
  }

  lemma Halves(x: bv32, y: bv32) returns (h: bv32)
    ensures Plus64(x as bv64, y as bv64) == ((h as bv64) << 32) | (Plus32(x, y) as bv64)
  {
    var s := (x as bv64) + (y as bv64);
    h := (s >> 32) as bv32;
  }

  lemma InRange32(x: bv32)
    ensures V32(x) < 0x1_0000_0000
  {
  }

  lemma Sum32(x: bv32, y: bv32)
    ensures V32(Plus32(x, y)) == (V32(x) + V32(y)) % 0x1_0000_0000
  {
    hide *;
    Long(x);
    Long(y);
    Sum64(x as bv64, y as bv64);
    InRange32(x);
    InRange32(y);
    var h := Halves(x, y);
    LowHalf(h, Plus32(x, y));
    InRange32(Plus32(x, y));
  }
}
