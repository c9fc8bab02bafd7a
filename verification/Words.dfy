/** Bytes, and words of some number of bits, as natural numbers. */
module Words {
  import opened Align
  import opened ExclusiveOr

  type Byte = x: int | 0 <= x < 256

  // ----- arithmetic on words of `bits` bits

  predicate Fits(x: nat, bits: nat) { x < Pow2(bits) }

  ghost predicate AllFit(v: seq<nat>, bits: nat) {
    forall i :: 0 <= i < |v| ==> Fits(v[i], bits)
  }

  function Sum(x: nat, y: nat, bits: nat): nat { (x + y) % Pow2(bits) }

  function Difference(x: nat, y: nat, bits: nat): nat { (x - y) % Pow2(bits) }

  function Not(x: nat, bits: nat): nat { Xor(x, Pow2(bits) - 1) }

  function RotateRight(x: nat, n: nat, bits: nat): nat
    requires n <= bits
  {
    Swapped(x, Pow2(n), Pow2(bits - n))
  }

  /** The part above `p` goes below, the part below `p` goes above `q`. */
  function Swapped(x: nat, p: nat, q: nat): nat
    requires p > 0
  {
    var hi: nat, lo: nat := x / p, x % p;
    NoSign(lo, q);
    hi + lo * q
  }

  lemma NoSign(a: nat, b: nat)
    ensures a * b >= 0
  {
  }

  lemma SwappedBack(x: nat, p: nat, q: nat)
    requires p > 0 && q > 0 && x < p * q
    ensures Swapped(x, p, q) < p * q && Swapped(Swapped(x, p, q), q, p) == x
  {
    var hi, lo := x / p, x % p;
    assert x == p * hi + lo;
    HighIsLess(p, q, hi, lo);
    HighIsLess(q, p, lo, hi);
    assert lo * q == q * lo && q * p == p * q && hi * p == p * hi;
    Quotient(q, lo, hi);
  }

  function RotateLeft(x: nat, n: nat, bits: nat): nat
    requires n <= bits
  {
    RotateRight(x, bits - n, bits)
  }

  lemma SumBack(x: nat, y: nat, bits: nat)
    requires Fits(x, bits) && Fits(y, bits)
    ensures Fits(Sum(x, y, bits), bits) && Difference(Sum(x, y, bits), y, bits) == x
    ensures Fits(Difference(x, y, bits), bits) && Sum(Difference(x, y, bits), y, bits) == x
  {
    ModBack(x, y, Pow2(bits));
  }

  lemma ModBack(x: nat, y: nat, m: nat)
    requires x < m && y < m
    ensures ((x + y) % m - y) % m == x && ((x - y) % m + y) % m == x
  {
    var s := if x + y < m then 0 else 1;
    Quotient(m, s, x + y - m * s);
    Quotient(m, -s, x);
    var d := if y <= x then 0 else 1;
    Quotient(m, -d, x - y + m * d);
    Quotient(m, d, x);
  }

  /** Words rotated one way and the other are as before. */
  lemma RotateBack(x: nat, n: nat, bits: nat)
    requires n <= bits && Fits(x, bits)
    ensures Fits(RotateRight(x, n, bits), bits) && RotateLeft(RotateRight(x, n, bits), n, bits) == x
  {
    Pow2Sum(n, bits - n);
    SwappedBack(x, Pow2(n), Pow2(bits - n));
  }

  /** Bit `k` of a number. */
  function Bit(x: nat, k: nat): nat { x / Pow2(k) % 2 }

  /** A rotation to the right moves bit `k + n`, counted around the word, to place `k`. */
  lemma RotateMovesBits(x: nat, n: nat, bits: nat, k: nat)
    requires n <= bits && Fits(x, bits) && k < bits
    ensures Bit(RotateRight(x, n, bits), k) == Bit(x, if k + n < bits then k + n else k + n - bits)
  {
    var h, l := RotatedParts(x, n, bits);
    hide *;
    if k + n < bits {
      LowBit(h, l, bits - n, k);
      HighBit(h, l, n, k);
    } else {
      HighBit(l, h, bits - n, k + n - bits);
      LowBit(l, h, n, k + n - bits);
    }
  }

  lemma RotatedParts(x: nat, n: nat, bits: nat) returns (h: nat, l: nat)
    requires n <= bits && Fits(x, bits)
    ensures x == l + h * Pow2(n) && l < Pow2(n) && h < Pow2(bits - n)
    ensures RotateRight(x, n, bits) == h + l * Pow2(bits - n)
  {
    h, l := x / Pow2(n), x % Pow2(n);
    Pow2Sum(n, bits - n);
    Parts(x, Pow2(n));
    HighIsLess(Pow2(n), Pow2(bits - n), h, l);
    hide Pow2;
  }

  /** The bits below `n` of a number with `l` below and `h` above. */
  lemma LowBit(l: nat, h: nat, n: nat, k: nat)
    requires k < n
    ensures Bit(l + h * Pow2(n), k) == Bit(l, k)
  {
    hide *;
    var c: nat := PowerAbove(k, n);
    LowPart(l, h, Pow2(k), c);
    NoSign(h, Pow2(n));
    BitIs(l + h * Pow2(n), k);
    BitIs(l, k);
  }

  lemma BitIs(x: nat, k: nat)
    ensures Pow2(k) > 0 && Bit(x, k) == x / Pow2(k) % 2
  {
  }

  lemma PowerAbove(k: nat, n: nat) returns (c: nat)
    requires k < n
    ensures Pow2(n) == Pow2(k) * (2 * c)
  {
    c := Pow2(n - k - 1);
    Pow2Sum(k, n - k);
    assert Pow2(n - k) == 2 * c;
  }

  lemma LowPart(l: nat, h: nat, p: nat, c: nat)
    requires p > 0
    ensures l + h * (p * (2 * c)) >= 0 && (l + h * (p * (2 * c))) / p % 2 == l / p % 2
  {
    hide *;
    var q, r, e := l / p, l % p, h * c;
    Parts(l, p);
    NoSign(h, c);
    Regrouped(h, p, c);
    Distributed(p, q, 2 * e);
    SameParity(l + h * (p * (2 * c)), p, q, e, r);
  }

  lemma SameParity(x: nat, p: nat, q: nat, e: nat, r: nat)
    requires r < p && x == p * (q + 2 * e) + r
    ensures x / p % 2 == q % 2
  {
    Quotient(p, q + 2 * e, r);
  }

  lemma Parts(l: nat, p: nat)
    requires p > 0
    ensures l == p * (l / p) + l % p && 0 <= l % p < p && l / p >= 0
  {
  }

  lemma Regrouped(h: nat, p: nat, c: nat)
    ensures h * (p * (2 * c)) == p * (2 * (h * c)) >= 0
  {
    var d: nat := p * c;
    assert p * (2 * c) == 2 * d && p * (h * c) == h * d;
    assert h * (2 * d) == 2 * (h * d) && p * (2 * (h * c)) == 2 * (p * (h * c));
  }

  lemma Distributed(p: nat, q: nat, e: nat)
    ensures p * (q + e) == p * q + p * e
  {
  }

  /** The bits from `n` on. */
  lemma HighBit(h: nat, l: nat, n: nat, k: nat)
    requires l < Pow2(n)
    ensures Bit(l + h * Pow2(n), n + k) == Bit(h, k)
  {
    Pow2Sum(n, k);
    DivTwice(l + h * Pow2(n), Pow2(n), Pow2(k));
    Quotient(Pow2(n), h, l);
    assert h * Pow2(n) == Pow2(n) * h;
  }

  lemma DivTwice(x: nat, p: nat, q: nat)
    requires p > 0 && q > 0
    ensures p * q > 0 && x / (p * q) == x / p / q
  {
    hide *;
    var a, b := x / p, x % p;
    var c, d := a / q, a % q;
    Parts(x, p);
    Parts(a, q);
    Nested(p, q, c, d, b);
    Quotient(p * q, c, p * d + b);
  }

  lemma Nested(p: nat, q: nat, c: nat, d: nat, b: nat)
    requires d < q && b < p
    ensures p * (q * c + d) + b == (p * q) * c + (p * d + b) && 0 <= p * d + b < p * q
  {
    assert p * (q * c + d) == p * (q * c) + p * d && p * (q * c) == (p * q) * c;
    HighIsLess(p, q, d, b);
    NoSign(p, d);
  }

  lemma HighIsLess(p: nat, q: nat, hi: nat, lo: nat)
    requires p > 0 && lo < p
    ensures p * hi + lo < p * q <==> hi < q
  {
    MulAtLeast(p, q - hi);
    assert p * q - p * hi == p * (q - hi);
  }

  lemma XorFitsBits(x: nat, y: nat, bits: nat)
    requires Fits(x, bits) && Fits(y, bits)
    ensures Fits(Xor(x, y), bits)
  {
    TwiceIsPow2(bits);
    XorFits(x, y, bits);
  }

  lemma {:induction false} TwiceIsPow2(n: nat)
    ensures Twice(1, n) == Pow2(n)
  {
    if n > 0 {
      TwiceIsPow2(n - 1);
    }
  }

  // ----- words in bytes, the lowest byte first

  function FromBytes(bytes: seq<Byte>): nat {
    if bytes == [] then 0 else bytes[0] + 256 * FromBytes(bytes[1..])
  }

  function ToBytes(w: nat, n: nat): (r: seq<Byte>)
    ensures |r| == n
  {
    if n == 0 then [] else [w % 256] + ToBytes(w / 256, n - 1)
  }

  /** `little_to_native` of the word number `i` of `n` bytes each. */
  function Load(bytes: seq<Byte>, i: nat, n: nat): nat
    requires i * n + n <= |bytes|
  {
    FromBytes(bytes[i * n..i * n + n])
  }

  function Loaded(block: seq<Byte>, n: nat): (m: seq<nat>)
    requires |block| == 16 * n
    ensures |m| == 16
  {
    seq(16, i requires 0 <= i < 16 => (WordInBlock(i, n); Load(block, i, n)))
  }

  lemma WordInBlock(i: nat, n: nat)
    requires i < 16
    ensures i * n + n <= 16 * n
  {
    MulAtLeast(n, 16 - i);
  }

  /** The words as bytes, `n` for each. */
  function AllBytes(words: seq<nat>, n: nat): (r: seq<Byte>)
    ensures |r| == |words| * n
  {
    if words == [] then [] else ToBytes(words[0], n) + AllBytes(words[1..], n)
  }

  lemma {:induction false} BytesThere(w: nat, n: nat)
    requires w < Pow2(8 * n)
    ensures FromBytes(ToBytes(w, n)) == w
  {
    if n > 0 {
      Pow2Sum(8, 8 * (n - 1));
      assert Pow2(8) == 256 && 8 + 8 * (n - 1) == 8 * n;
      BytesThere(w / 256, n - 1);
      assert ToBytes(w, n)[1..] == ToBytes(w / 256, n - 1);
    }
  }

  lemma {:induction false} BytesBack(bytes: seq<Byte>)
    ensures ToBytes(FromBytes(bytes), |bytes|) == bytes
  {
    if bytes != [] {
      BytesBack(bytes[1..]);
      LowByte(bytes[0], FromBytes(bytes[1..]));
      assert bytes == [bytes[0]] + bytes[1..];
    }
  }

  /** Four bytes as a number, the lowest first. */
  function Number4(a: int, b: int, c: int, d: int): int { a + 0x100 * b + 0x1_0000 * c + 0x100_0000 * d }

  lemma From4(b: seq<Byte>)
    requires |b| == 4
    ensures FromBytes(b) == Number4(b[0], b[1], b[2], b[3])
  {
    var n: nat := FromBytes(b[2..]);
    assert b[1..][1..] == b[2..] && b[2..][1..][1..] == [];
    assert n == b[2] + 256 * FromBytes(b[2..][1..]);
  }

  lemma Load4(bytes: seq<Byte>, i: nat)
    requires i * 4 + 4 <= |bytes|
    ensures var k := i * 4; Load(bytes, i, 4) == Number4(bytes[k], bytes[k + 1], bytes[k + 2], bytes[k + 3])
  {
    From4(bytes[i * 4..i * 4 + 4]);
  }

  lemma Bytes4(a: Byte, b: Byte, c: Byte, d: Byte)
    ensures ToBytes(Number4(a, b, c, d), 4) == [a, b, c, d]
  {
    From4([a, b, c, d]);
    BytesBack([a, b, c, d]);
  }

  lemma Bytes8(a: Byte, b: Byte, c: Byte, d: Byte, e: Byte, f: Byte, g: Byte, h: Byte)
    ensures ToBytes(Number4(a, b, c, d) + 0x1_0000_0000 * Number4(e, f, g, h), 8) == [a, b, c, d, e, f, g, h]
  {
    var all := [a, b, c, d, e, f, g, h];
    From4(all[..4]);
    From4(all[4..]);
    Powers();
    FromConcat(all[..4], all[4..]);
    assert all == all[..4] + all[4..] && 8 * 4 == 32;
    BytesBack(all);
  }

  lemma {:induction false} AllBytesConcat(x: seq<nat>, y: seq<nat>, n: nat)
    ensures AllBytes(x + y, n) == AllBytes(x, n) + AllBytes(y, n)
  {
    hide AllBytes;
    if x == [] {
      assert x + y == y;
      AllBytesNone(n);
    } else {
      AllBytesConcat(x[1..], y, n);
      AllBytesFirst(x, n);
      AllBytesFirst(x + y, n);
      assert (x + y)[1..] == x[1..] + y;
    }
  }

  lemma AllBytesNone(n: nat)
    ensures AllBytes([], n) == []
  {
  }

  lemma AllBytesFirst(x: seq<nat>, n: nat)
    requires x != []
    ensures AllBytes(x, n) == ToBytes(x[0], n) + AllBytes(x[1..], n)
  {
  }

  lemma AllBytes2(a: nat, b: nat, n: nat)
    ensures AllBytes([a, b], n) == ToBytes(a, n) + ToBytes(b, n)
  {
    hide ToBytes;
    assert [a, b][1..] == [b] && [b][1..] == [];
  }

  lemma AllBytes8(a: nat, b: nat, c: nat, d: nat, e: nat, f: nat, g: nat, h: nat, n: nat)
    ensures AllBytes([a, b, c, d, e, f, g, h], n)
         == (ToBytes(a, n) + ToBytes(b, n)) + (ToBytes(c, n) + ToBytes(d, n))
            + ((ToBytes(e, n) + ToBytes(f, n)) + (ToBytes(g, n) + ToBytes(h, n)))
  {
    hide ToBytes, AllBytes;
    AllBytes2(a, b, n);
    AllBytes2(c, d, n);
    AllBytes2(e, f, n);
    AllBytes2(g, h, n);
    AllBytesConcat([a, b], [c, d], n);
    AllBytesConcat([e, f], [g, h], n);
    AllBytesConcat([a, b] + [c, d], [e, f] + [g, h], n);
    assert [a, b] + [c, d] + ([e, f] + [g, h]) == [a, b, c, d, e, f, g, h];
  }

  lemma {:induction false} FromConcat(x: seq<Byte>, y: seq<Byte>)
    ensures FromBytes(x + y) == FromBytes(x) + Pow2(8 * |x|) * FromBytes(y)
  {
    if x == [] {
      assert x + y == y;
    } else {
      var p, f: nat, r: nat := Pow2(8 * |x[1..]|), FromBytes(y), FromBytes(x[1..]);
      FromConcat(x[1..], y);
      assert (x + y)[1..] == x[1..] + y;
      Pow2Sum(8, 8 * |x[1..]|);
      assert Pow2(8) == 256 && Pow2(8 * |x|) == 256 * p;
      assert FromBytes(x) == x[0] + 256 * r && FromBytes(x + y) == x[0] + 256 * (r + p * f);
      hide *;
      Scaled(r, p, f);
    }
  }

  lemma Scaled(r: nat, p: nat, f: nat)
    ensures 256 * (r + p * f) == 256 * r + (256 * p) * f
  {
  }

  lemma LowByte(b: Byte, rest: nat)
    ensures (b + 256 * rest) % 256 == b && (b + 256 * rest) / 256 == rest
  {
  }

  /** Four different places in sixteen words. */
  predicate Four(v: seq<nat>, a: nat, b: nat, c: nat, d: nat) {
    |v| == 16 && a < 16 && b < 16 && c < 16 && d < 16 && a != b && a != c && a != d && b != c && b != d && c != d
  }

  // ----- exclusive or, byte by byte

  function XorByte(a: Byte, b: Byte): Byte {
    ByteFits(a, b);
    Xor(a, b)
  }

  lemma ByteFits(a: Byte, b: Byte)
    ensures Xor(a, b) < 256
  {
    Powers();
    XorFitsBits(a, b, 8);
  }

  lemma XorByteTwice(a: Byte, b: Byte)
    ensures XorByte(XorByte(a, b), b) == a
  {
    XorTwice(a, b);
  }

  function High(x: nat, n: nat): nat {
    if n == 0 then x else High(x / 2, n - 1)
  }

  function Low(x: nat, n: nat): nat {
    if n == 0 then 0 else x % 2 + 2 * Low(x / 2, n - 1)
  }

  lemma XorStep(a: nat, b: nat)
    ensures Xor(a, b) / 2 == Xor(a / 2, b / 2) && Xor(a, b) % 2 == if a % 2 == b % 2 then 0 else 1
  {
  }

  /** The low bits and the high bits go their own ways. */
  lemma {:induction false} XorSplit(a: nat, b: nat, n: nat)
    ensures High(Xor(a, b), n) == Xor(High(a, n), High(b, n))
    ensures Low(Xor(a, b), n) == Xor(Low(a, n), Low(b, n))
  {
    if n > 0 {
      XorSplit(a / 2, b / 2, n - 1);
      XorStep(a, b);
      XorStep(Low(a, n), Low(b, n));
      assert Low(a, n) / 2 == Low(a / 2, n - 1) && Low(b, n) / 2 == Low(b / 2, n - 1);
    }
  }

  lemma ByteParts(x: nat)
    ensures High(x, 8) == x / 256 && Low(x, 8) == x % 256
  {
    assert Pow2(4) == 16;
    NibbleParts(x);
    NibbleParts(x / 16);
    HighLow(x, 4, 4);
  }

  lemma NibbleParts(x: nat)
    ensures High(x, 4) == x / 16 && Low(x, 4) == x % 16
  {
    assert Pow2(2) == 4;
    TwoParts(x);
    TwoParts(x / 4);
    HighLow(x, 2, 2);
  }

  lemma TwoParts(x: nat)
    ensures High(x, 2) == x / 4 && Low(x, 2) == x % 4
  {
    assert High(x / 2, 1) == x / 2 / 2 && Low(x / 2, 1) == x / 2 % 2;
  }

  lemma {:induction false} HighLow(x: nat, n: nat, m: nat)
    ensures High(x, n + m) == High(High(x, n), m)
    ensures Low(x, n + m) == Low(x, n) + Pow2(n) * Low(High(x, n), m)
  {
    if n > 0 {
      HighLow(x / 2, n - 1, m);
      assert n + m - 1 == n - 1 + m && High(x, n) == High(x / 2, n - 1);
      var l := Low(High(x, n), m);
      assert Low(x, n + m) == 2 * (Low(x / 2, n - 1) + Pow2(n - 1) * l) + x % 2;
      assert Low(x, n) == 2 * Low(x / 2, n - 1) + x % 2 && Pow2(n) == 2 * Pow2(n - 1);
      hide *;
      DoubleSum(Low(x / 2, n - 1), Pow2(n - 1), l);
    }
  }

  lemma DoubleSum(a: nat, p: nat, l: nat)
    ensures 2 * (a + p * l) == 2 * a + (2 * p) * l
  {
  }

  lemma {:induction false} XorBytes(bytes: seq<Byte>, w: nat)
    ensures var r := ToBytes(Xor(FromBytes(bytes), w), |bytes|);
      forall k :: 0 <= k < |bytes| ==> r[k] == XorByte(bytes[k], ToBytes(w, |bytes|)[k])
  {
    if bytes != [] {
      var rest := FromBytes(bytes[1..]);
      XorBytes(bytes[1..], w / 256);
      var all := FromBytes(bytes);
      assert all / 256 == rest && all % 256 == bytes[0];
      XorSplit(all, w, 8);
      ByteParts(all);
      ByteParts(w);
      ByteParts(Xor(all, w));
    }
  }

  /** Where the bytes of word `i` are. */
  lemma {:induction false} AllBytesAt(words: seq<nat>, n: nat, i: nat, k: nat, j: nat)
    requires i < |words| && k < n && j == i * n + k
    ensures j < |words| * n && AllBytes(words, n)[j] == ToBytes(words[i], n)[k]
  {
    BelowAll(i, k, n, |words|);
    hide ToBytes;
    if i > 0 {
      OneLess(i, n);
      AllBytesAt(words[1..], n, i - 1, k, j - n);
    }
  }

  lemma OneLess(i: nat, n: nat)
    ensures (i - 1) * n == i * n - n
  {
  }

  lemma BelowAll(i: nat, k: nat, n: nat, len: nat)
    requires i < len && k < n
    ensures i * n + k < len * n
    ensures i > 0 ==> i * n + k >= n
  {
    MulAtLeast(n, len - i);
    assert len * n - i * n == n * (len - i);
    MulAtLeast(n, i);
  }
}
