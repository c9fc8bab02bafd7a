/** Rotation of words, by the numbers of bits that are used, is that of machine words. */
module Rotations {
  import opened Align
  import opened Words
  import opened BitWords

  /** The two parts of a word change places. */
  lemma Turned(w: nat, h: nat, l: nat, n: nat, bits: nat)
    requires n <= bits && w == Pow2(n) * h + l && l < Pow2(n)
    ensures RotateRight(w, n, bits) == h + Pow2(bits - n) * l
  {
    Quotient(Pow2(n), h, l);
  }

  lemma SmallPowers()
    ensures Pow2(1) == 0x2 && Pow2(7) == 0x80 && Pow2(8) == 0x100 && Pow2(12) == 0x1000 && Pow2(16) == 0x1_0000
    ensures Pow2(20) == 0x10_0000 && Pow2(24) == 0x100_0000 && Pow2(25) == 0x200_0000 && Pow2(32) == 0x1_0000_0000
    ensures Pow2(40) == 0x100_0000_0000 && Pow2(48) == 0x1_0000_0000_0000 && Pow2(63) == 0x8000_0000_0000_0000
  {
    Powers();
    assert Pow2(4) == 0x10 && Pow2(7) == 0x80;
    Pow2Sum(8, 4);
    Pow2Sum(16, 4);
    Pow2Sum(16, 8);
    Pow2Sum(24, 1);
    Pow2Sum(32, 8);
    Pow2Sum(32, 16);
    assert Pow2(64) == 2 * Pow2(63);
  }

  // ----- 32 bits by 16

  ghost predicate Cut32By16(w: bv32, r: bv32, h: bv16, l: bv16) {
    w == ((h as bv32) << 16) | (l as bv32) && r == ((l as bv32) << 16) | (h as bv32)
  }

  lemma Parts32By16(h: bv16, l: bv16)
    ensures V32(((h as bv32) << 16) | (l as bv32)) == 0x1_0000 * (h as nat) + (l as nat) && l as nat < 0x1_0000
    ensures V32(((l as bv32) << 16) | (h as bv32)) == (h as nat) + 0x1_0000 * (l as nat)
  {
  }

  lemma Turn32By16(w: bv32, r: bv32, h: bv16, l: bv16)
    requires Cut32By16(w, r, h, l)
    ensures RotateRight(V32(w), 16, 32) == V32(r)
  {
    hide V32, RotateRight, Pow2;
    Parts32By16(h, l);
    SmallPowers();
    Turned(V32(w), h as nat, l as nat, 16, 32);
  }

  lemma Cuts32By16(w: bv32)
    ensures Cut32By16(w, w.RotateRight(16), (w >> 16) as bv16, (w & 0xffff) as bv16)
  {
  }

  lemma Rotate32By16(w: bv32)
    ensures RotateRight(V32(w), 16, 32) == V32(w.RotateRight(16))
  {
    hide *;
    Cuts32By16(w);
    Turn32By16(w, w.RotateRight(16), (w >> 16) as bv16, (w & 0xffff) as bv16);
  }

  // ----- 32 bits by 12

  ghost predicate Cut32By12(w: bv32, r: bv32, h: bv20, l: bv12) {
    w == ((h as bv32) << 12) | (l as bv32) && r == ((l as bv32) << 20) | (h as bv32)
  }

  lemma Parts32By12(h: bv20, l: bv12)
    ensures V32(((h as bv32) << 12) | (l as bv32)) == 0x1000 * (h as nat) + (l as nat) && l as nat < 0x1000
    ensures V32(((l as bv32) << 20) | (h as bv32)) == (h as nat) + 0x10_0000 * (l as nat)
  {
  }

  lemma Turn32By12(w: bv32, r: bv32, h: bv20, l: bv12)
    requires Cut32By12(w, r, h, l)
    ensures RotateRight(V32(w), 12, 32) == V32(r)
  {
    hide V32, RotateRight, Pow2;
    Parts32By12(h, l);
    SmallPowers();
    Turned(V32(w), h as nat, l as nat, 12, 32);
  }

  lemma Cuts32By12(w: bv32)
    ensures Cut32By12(w, w.RotateRight(12), (w >> 12) as bv20, (w & 0xfff) as bv12)
  {
  }

  lemma Rotate32By12(w: bv32)
    ensures RotateRight(V32(w), 12, 32) == V32(w.RotateRight(12))
  {
    hide *;
    Cuts32By12(w);
    Turn32By12(w, w.RotateRight(12), (w >> 12) as bv20, (w & 0xfff) as bv12);
  }

  // ----- 32 bits by 8

  ghost predicate Cut32By8(w: bv32, r: bv32, h: bv24, l: bv8) {
    w == ((h as bv32) << 8) | (l as bv32) && r == ((l as bv32) << 24) | (h as bv32)
  }

  lemma Parts32By8(h: bv24, l: bv8)
    ensures V32(((h as bv32) << 8) | (l as bv32)) == 0x100 * (h as nat) + (l as nat) && l as nat < 0x100
    ensures V32(((l as bv32) << 24) | (h as bv32)) == (h as nat) + 0x100_0000 * (l as nat)
  {
  }

  lemma Turn32By8(w: bv32, r: bv32, h: bv24, l: bv8)
    requires Cut32By8(w, r, h, l)
    ensures RotateRight(V32(w), 8, 32) == V32(r)
  {
    hide V32, RotateRight, Pow2;
    Parts32By8(h, l);
    SmallPowers();
    Turned(V32(w), h as nat, l as nat, 8, 32);
  }

  lemma Cuts32By8(w: bv32)
    ensures Cut32By8(w, w.RotateRight(8), (w >> 8) as bv24, (w & 0xff) as bv8)
  {
  }

  lemma Rotate32By8(w: bv32)
    ensures RotateRight(V32(w), 8, 32) == V32(w.RotateRight(8))
  {
    hide *;
    Cuts32By8(w);
    Turn32By8(w, w.RotateRight(8), (w >> 8) as bv24, (w & 0xff) as bv8);
  }

  // ----- 32 bits by 7

  ghost predicate Cut32By7(w: bv32, r: bv32, h: bv25, l: bv7) {
    w == ((h as bv32) << 7) | (l as bv32) && r == ((l as bv32) << 25) | (h as bv32)
  }

  lemma Parts32By7(h: bv25, l: bv7)
    ensures V32(((h as bv32) << 7) | (l as bv32)) == 0x80 * (h as nat) + (l as nat) && l as nat < 0x80
    ensures V32(((l as bv32) << 25) | (h as bv32)) == (h as nat) + 0x200_0000 * (l as nat)
  {
  }

  lemma Turn32By7(w: bv32, r: bv32, h: bv25, l: bv7)
    requires Cut32By7(w, r, h, l)
    ensures RotateRight(V32(w), 7, 32) == V32(r)
  {
    hide V32, RotateRight, Pow2;
    Parts32By7(h, l);
    SmallPowers();
    Turned(V32(w), h as nat, l as nat, 7, 32);
  }

  lemma Cuts32By7(w: bv32)
    ensures Cut32By7(w, w.RotateRight(7), (w >> 7) as bv25, (w & 0x7f) as bv7)
  {
  }

  lemma Rotate32By7(w: bv32)
    ensures RotateRight(V32(w), 7, 32) == V32(w.RotateRight(7))
  {
    hide *;
    Cuts32By7(w);
    Turn32By7(w, w.RotateRight(7), (w >> 7) as bv25, (w & 0x7f) as bv7);
  }

  // ----- 64 bits by 32

  ghost predicate Cut64By32(w: bv64, r: bv64, h: bv32, l: bv32) {
    w == ((h as bv64) << 32) | (l as bv64) && r == ((l as bv64) << 32) | (h as bv64)
  }

  lemma Parts64By32(h: bv32, l: bv32)
    ensures V64(((h as bv64) << 32) | (l as bv64)) == 0x1_0000_0000 * (h as nat) + (l as nat)
    ensures l as nat < 0x1_0000_0000
    ensures V64(((l as bv64) << 32) | (h as bv64)) == (h as nat) + 0x1_0000_0000 * (l as nat)
  {
  }

  lemma Turn64By32(w: bv64, r: bv64, h: bv32, l: bv32)
    requires Cut64By32(w, r, h, l)
    ensures RotateRight(V64(w), 32, 64) == V64(r)
  {
    hide V64, RotateRight, Pow2;
    Parts64By32(h, l);
    SmallPowers();
    Turned(V64(w), h as nat, l as nat, 32, 64);
  }

  lemma Cuts64By32(w: bv64)
    ensures Cut64By32(w, w.RotateRight(32), (w >> 32) as bv32, (w & 0xffff_ffff) as bv32)
  {
  }

  lemma Rotate64By32(w: bv64)
    ensures RotateRight(V64(w), 32, 64) == V64(w.RotateRight(32))
  {
    hide *;
    Cuts64By32(w);
    Turn64By32(w, w.RotateRight(32), (w >> 32) as bv32, (w & 0xffff_ffff) as bv32);
  }

  // ----- 64 bits by 24

  ghost predicate Cut64By24(w: bv64, r: bv64, h: bv40, l: bv24) {
    w == ((h as bv64) << 24) | (l as bv64) && r == ((l as bv64) << 40) | (h as bv64)
  }

  lemma Parts64By24(h: bv40, l: bv24)
    ensures V64(((h as bv64) << 24) | (l as bv64)) == 0x100_0000 * (h as nat) + (l as nat) && l as nat < 0x100_0000
    ensures V64(((l as bv64) << 40) | (h as bv64)) == (h as nat) + 0x100_0000_0000 * (l as nat)
  {
  }

  lemma Turn64By24(w: bv64, r: bv64, h: bv40, l: bv24)
    requires Cut64By24(w, r, h, l)
    ensures RotateRight(V64(w), 24, 64) == V64(r)
  {
    hide V64, RotateRight, Pow2;
    Parts64By24(h, l);
    SmallPowers();
    Turned(V64(w), h as nat, l as nat, 24, 64);
  }

  lemma Cuts64By24(w: bv64)
    ensures Cut64By24(w, w.RotateRight(24), (w >> 24) as bv40, (w & 0xff_ffff) as bv24)
  {
  }

  lemma Rotate64By24(w: bv64)
    ensures RotateRight(V64(w), 24, 64) == V64(w.RotateRight(24))
  {
    hide *;
    Cuts64By24(w);
    Turn64By24(w, w.RotateRight(24), (w >> 24) as bv40, (w & 0xff_ffff) as bv24);
  }

  // ----- 64 bits by 16

  ghost predicate Cut64By16(w: bv64, r: bv64, h: bv48, l: bv16) {
    w == ((h as bv64) << 16) | (l as bv64) && r == ((l as bv64) << 48) | (h as bv64)
  }

  lemma Parts64By16(h: bv48, l: bv16)
    ensures V64(((h as bv64) << 16) | (l as bv64)) == 0x1_0000 * (h as nat) + (l as nat) && l as nat < 0x1_0000
    ensures V64(((l as bv64) << 48) | (h as bv64)) == (h as nat) + 0x1_0000_0000_0000 * (l as nat)
  {
  }

  lemma Turn64By16(w: bv64, r: bv64, h: bv48, l: bv16)
    requires Cut64By16(w, r, h, l)
    ensures RotateRight(V64(w), 16, 64) == V64(r)
  {
    hide V64, RotateRight, Pow2;
    Parts64By16(h, l);
    SmallPowers();
    Turned(V64(w), h as nat, l as nat, 16, 64);
  }

  lemma Cuts64By16(w: bv64)
    ensures Cut64By16(w, w.RotateRight(16), (w >> 16) as bv48, (w & 0xffff) as bv16)
  {
  }

  lemma Rotate64By16(w: bv64)
    ensures RotateRight(V64(w), 16, 64) == V64(w.RotateRight(16))
  {
    hide *;
    Cuts64By16(w);
    Turn64By16(w, w.RotateRight(16), (w >> 16) as bv48, (w & 0xffff) as bv16);
  }

  // ----- 64 bits by 63

  ghost predicate Cut64By63(w: bv64, r: bv64, h: bv1, l: bv63) {
    w == ((h as bv64) << 63) | (l as bv64) && r == ((l as bv64) << 1) | (h as bv64)
  }

  lemma Parts64By63(h: bv1, l: bv63)
    ensures V64(((h as bv64) << 63) | (l as bv64)) == 0x8000_0000_0000_0000 * (h as nat) + (l as nat)
    ensures l as nat < 0x8000_0000_0000_0000
    ensures V64(((l as bv64) << 1) | (h as bv64)) == (h as nat) + 0x2 * (l as nat)
  {
  }

  lemma Turn64By63(w: bv64, r: bv64, h: bv1, l: bv63)
    requires Cut64By63(w, r, h, l)
    ensures RotateRight(V64(w), 63, 64) == V64(r)
  {
    hide V64, RotateRight, Pow2;
    Parts64By63(h, l);
    SmallPowers();
    Turned(V64(w), h as nat, l as nat, 63, 64);
  }

  lemma Cuts64By63(w: bv64)
    ensures Cut64By63(w, w.RotateRight(63), (w >> 63) as bv1, (w & 0x7fff_ffff_ffff_ffff) as bv63)
  {
  }

  lemma Rotate64By63(w: bv64)
    ensures RotateRight(V64(w), 63, 64) == V64(w.RotateRight(63))
  {
    hide *;
    Cuts64By63(w);
    Turn64By63(w, w.RotateRight(63), (w >> 63) as bv1, (w & 0x7fff_ffff_ffff_ffff) as bv63);
  }
}
