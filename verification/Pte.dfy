/** Page table entries and addresses of Sv39, section 4.4 of the RISC-V Privileged Architecture 20211203. */
module Pte {
  import opened Align
  import opened Integers
  import opened PhysicalMemory

  type Two = x: int | 0 <= x < 4
  type Ten = x: int | 0 <= x < 1024

  /** `struct pte`. */
  datatype Entry = Entry(valid: bool, readable: bool, writable: bool, executable: bool, user: bool, global: bool,
                         accessed: bool, dirty: bool, rsvd1: Two, ppn: Frame, rsvd0: Ten) {
    /** A valid entry that points to the next level; the bits that are reserved in such an entry are clear. */
    predicate Pointer() {
      valid && !readable && !writable && !executable && !user && !accessed && !dirty && rsvd0 == 0
    }
    /** A valid entry that maps memory; writable pages must be readable, and the reserved bits are clear. */
    predicate Leaf() { valid && (readable || executable) && (writable ==> readable) && rsvd0 == 0 }
  }

  /** Bit fields of one bit, the lowest first, and what is above them. */
  function FromBits(bits: seq<bool>, above: nat): nat {
    if bits == [] then above else 2 * FromBits(bits[1..], above) + if bits[0] then 1 else 0
  }

  function ToBits(w: nat, n: nat): (r: (seq<bool>, nat))
    ensures |r.0| == n
  {
    if n == 0 then ([], w) else var (bits, above) := ToBits(w / 2, n - 1); ([w % 2 == 1] + bits, above)
  }

  lemma {:induction false} BitsThere(bits: seq<bool>, above: nat)
    ensures ToBits(FromBits(bits, above), |bits|) == (bits, above)
  {
    if bits != [] {
      BitsThere(bits[1..], above);
      var rest := FromBits(bits[1..], above);
      assert FromBits(bits, above) / 2 == rest;
      assert [bits[0]] + bits[1..] == bits;
    }
  }

  lemma {:induction false} BitsBack(w: nat, n: nat)
    ensures FromBits(ToBits(w, n).0, ToBits(w, n).1) == w
  {
    if n > 0 {
      BitsBack(w / 2, n - 1);
      assert ToBits(w, n).0[1..] == ToBits(w / 2, n - 1).0;
    }
  }

  /** The fields of `struct pte`: eight flags, then the wider ones. */
  function Flags(e: Entry): seq<bool> {
    [e.valid, e.readable, e.writable, e.executable, e.user, e.global, e.accessed, e.dirty]
  }

  function Above(e: Entry): nat {
    e.rsvd1 + 4 * (e.ppn + 0x1000_0000_0000 * e.rsvd0)
  }

  function Shifted(n: nat, x: nat): nat {
    if n == 0 then x else 2 * Shifted(n - 1, x)
  }

  lemma {:induction false} BitsFit(bits: seq<bool>, above: nat, limit: nat)
    requires above < limit
    ensures FromBits(bits, above) < Shifted(|bits|, limit)
  {
    if bits != [] {
      BitsFit(bits[1..], above, limit);
    }
  }

  function Encode(e: Entry): u64 {
    EntryFits(e);
    FromBits(Flags(e), Above(e))
  }

  lemma EntryFits(e: Entry)
    ensures FromBits(Flags(e), Above(e)) < 0x1_0000_0000_0000_0000
  {
    BitsFit(Flags(e), Above(e), 0x100_0000_0000_0000);
    assert Shifted(8, 0x100_0000_0000_0000) == 0x1_0000_0000_0000_0000;
  }

  function Decode(w: u64): Entry {
    var (f, above) := ToBits(w, 8);
    AboveFits(w, 8, 0x100_0000_0000_0000);
    Entry(f[0], f[1], f[2], f[3], f[4], f[5], f[6], f[7],
          above % 4, above / 4 % 0x1000_0000_0000, above / 4 / 0x1000_0000_0000)
  }

  lemma {:induction false} AboveFits(w: nat, n: nat, limit: nat)
    requires w < Shifted(n, limit)
    ensures ToBits(w, n).1 < limit
  {
    if n > 0 {
      AboveFits(w / 2, n - 1, limit);
    }
  }

  /** Which bits of the word are which field. */
  lemma FieldsOf(w: u64)
    ensures var e := Decode(w);
      && (e.valid <==> w % 2 == 1) && (e.readable <==> w / 2 % 2 == 1) && (e.writable <==> w / 4 % 2 == 1)
      && (e.executable <==> w / 8 % 2 == 1) && (e.user <==> w / 16 % 2 == 1) && (e.global <==> w / 32 % 2 == 1)
      && (e.accessed <==> w / 64 % 2 == 1) && (e.dirty <==> w / 128 % 2 == 1)
      && e.rsvd1 == w / 0x100 % 4 && e.ppn == w / 0x400 % 0x1000_0000_0000 && e.rsvd0 == w / 0x40_0000_0000_0000
  {
    var (f, above) := ToBits(w, 8);
    BitAt(w, 8, 0);
    BitAt(w, 8, 1);
    BitAt(w, 8, 2);
    BitAt(w, 8, 3);
    BitAt(w, 8, 4);
    BitAt(w, 8, 5);
    BitAt(w, 8, 6);
    BitAt(w, 8, 7);
    AboveIs(w, 8);
    SmallShifts();
    hide ToBits, Shifted;
    assert w / 0x100 / 4 == w / 0x400 && w / 0x400 / 0x1000_0000_0000 == w / 0x40_0000_0000_0000;
  }

  lemma SmallShifts()
    ensures Shifted(0, 1) == 1 && Shifted(1, 1) == 2 && Shifted(2, 1) == 4 && Shifted(3, 1) == 8
    ensures Shifted(4, 1) == 16 && Shifted(5, 1) == 32 && Shifted(6, 1) == 64 && Shifted(7, 1) == 128
    ensures Shifted(8, 1) == 256
  {
    assert Shifted(4, 1) == 16;
  }

  /** Bit `k` of a word, and what is above bit `n`. */
  lemma {:induction false} BitAt(w: nat, n: nat, k: nat)
    requires k < n
    ensures Shifted(k, 1) > 0 && ToBits(w, n).0[k] == (w / Shifted(k, 1) % 2 == 1)
  {
    if k > 0 {
      BitAt(w / 2, n - 1, k - 1);
      HalfAgain(w, Shifted(k - 1, 1));
    }
  }

  lemma {:induction false} AboveIs(w: nat, n: nat)
    ensures Shifted(n, 1) > 0 && ToBits(w, n).1 == w / Shifted(n, 1)
  {
    if n > 0 {
      AboveIs(w / 2, n - 1);
      HalfAgain(w, Shifted(n - 1, 1));
    }
  }

  lemma HalfAgain(w: nat, m: nat)
    requires m > 0
    ensures w / 2 / m == w / (2 * m)
  {
    var q, r := w / 2 / m, w / 2 % m;
    assert w == 2 * (m * q + r) + w % 2;
    var s := 2 * r + w % 2;
    assert w == (2 * m) * q + s && 0 <= s < 2 * m;
    Quotient(2 * m, q, s);
  }

  lemma DecodeEncode(e: Entry)
    ensures Decode(Encode(e)) == e
  {
    BitsThere(Flags(e), Above(e));
  }

  lemma EncodeDecode(w: u64)
    ensures Encode(Decode(w)) == w
  {
    hide FromBits, ToBits;
    BitsBack(w, 8);
    var (f, above) := ToBits(w, 8);
    assert f == Flags(Decode(w));
    assert above == Above(Decode(w));
  }

  /** The zero word is not a valid entry. */
  lemma ZeroIsInvalid()
    ensures !Decode(0).valid
  {
    assert ToBits(0, 8).0[0] == (0 % 2 == 1);
  }

  // ----- addresses

  /** The index of an address at each level of the tree, from the root down. */
  function KeyOf(va: nat): (k: seq<nat>)
    ensures |k| == 3 && forall i :: 0 <= i < 3 ==> k[i] < 512
  {
    [va / 0x4000_0000 % 512, va / 0x20_0000 % 512, va / 0x1000 % 512]
  }

  /** What `assert((uaddr)(((iaddr)va >> 39) + 1) <= 1)` lets through: bits 63 to 39 are equal. */
  predicate Asserted(va: nat) {
    va < 0x1_0000_0000_0000_0000 && (va / 0x80_0000_0000 == 0 || va / 0x80_0000_0000 == 0x1ff_ffff)
  }

  /** What Sv39 requires: bits 63 to 38 are equal. */
  predicate Canonical(va: nat) {
    va < 0x1_0000_0000_0000_0000 && (va / 0x40_0000_0000 == 0 || va / 0x40_0000_0000 == 0x3ff_ffff)
  }

  /** Two canonical pages have different keys, so the tables can map every one of them. */
  lemma CanonicalKeys(a: nat, b: nat)
    requires Canonical(a) && Canonical(b) && a % 0x1000 == 0 && b % 0x1000 == 0 && KeyOf(a) == KeyOf(b)
    ensures a == b
  {
    hide *;
    KeyIsPage(a);
    KeyIsPage(b);
    CanonicalPage(a);
    CanonicalPage(b);
  }

  /** The low 27 bits of its page number determine a canonical page. */
  lemma CanonicalPage(va: nat)
    requires Canonical(va) && va % 0x1000 == 0
    ensures var q := va / 0x1000 % 0x800_0000;
      va == q * 0x1000 + if q < 0x400_0000 then 0 else 0xffff_ff80_0000_0000
  {
    var p := va / 0x1000;
    assert va == p * 0x1000;
    assert p / 0x400_0000 == va / 0x40_0000_0000;
    if p / 0x400_0000 == 0 {
      assert p % 0x800_0000 == p;
    } else {
      assert p == 0x1ff_ffff * 0x800_0000 + (p - 0x1ff_ffff * 0x800_0000);
      assert 0x400_0000 <= p - 0x1ff_ffff * 0x800_0000 < 0x800_0000;
    }
  }

  lemma KeyIsPage(va: nat)
    ensures var k := KeyOf(va); va / 0x1000 % 0x800_0000 == k[0] * 0x4_0000 + k[1] * 0x200 + k[2]
  {
    var p := va / 0x1000;
    assert va / 0x20_0000 == p / 0x200 && va / 0x4000_0000 == p / 0x200 / 0x200;
  }

  lemma Low9(x: nat, c: nat)
    ensures (x + 0x200 * c) % 512 == x % 512
  {
  }

  /** The bits from 39 on have no part in the key. */
  lemma KeyOfLow(low: nat, high: nat)
    requires low < 0x80_0000_0000
    ensures KeyOf(low + high * 0x80_0000_0000) == KeyOf(low)
  {
    var va := low + high * 0x80_0000_0000;
    assert va / 0x4000_0000 == low / 0x4000_0000 + 0x200 * high;
    assert va / 0x20_0000 == low / 0x20_0000 + 0x4_0000 * high;
    assert va / 0x1000 == low / 0x1000 + 0x800_0000 * high;
    Low9(low / 0x4000_0000, high);
    Low9(low / 0x20_0000, 0x200 * high);
    Low9(low / 0x1000, 0x4_0000 * high);
  }

  /** The canonical address of the same page. */
  function Canonised(va: nat): nat {
    var low := va % 0x80_0000_0000;
    if low < 0x40_0000_0000 then low else 0xffff_ff80_0000_0000 + low
  }

  /**
    The source's assertion lets addresses through that share their table entry with a canonical
    address of another page; it does so exactly for those that are not canonical.
   */
  lemma AliasIffNotCanonical(va: nat)
    requires Asserted(va) && va % 0x1000 == 0
    ensures Canonical(Canonised(va)) && KeyOf(Canonised(va)) == KeyOf(va)
    ensures Canonised(va) == va <==> Canonical(va)
  {
    hide *;
    var high, high' := va / 0x80_0000_0000, Canonised(va) / 0x80_0000_0000;
    CanonisedIs(va);
    KeyOfLow(va % 0x80_0000_0000, high);
    KeyOfLow(va % 0x80_0000_0000, high');
  }

  /** An address that the assertion lets through and that no Sv39 page has. */
  lemma NotCanonical()
    ensures Asserted(0x40_0000_0000) && !Canonical(0x40_0000_0000)
    ensures KeyOf(0x40_0000_0000) == KeyOf(0xffff_ffc0_0000_0000) && Canonical(0xffff_ffc0_0000_0000)
  {
  }

  lemma CanonisedIs(va: nat)
    requires Asserted(va)
    ensures Canonical(Canonised(va)) && Canonised(va) % 0x80_0000_0000 == va % 0x80_0000_0000
    ensures Canonised(va) == va <==> Canonical(va)
  {
    var low := va % 0x80_0000_0000;
    assert va == low || va == 0xffff_ff80_0000_0000 + low;
    assert low / 0x40_0000_0000 == 0 <==> low < 0x40_0000_0000;
    assert (0xffff_ff80_0000_0000 + low) / 0x40_0000_0000 == 0x3ff_fffe + low / 0x40_0000_0000;
  }
}
