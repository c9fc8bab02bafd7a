/** `mm/alloc/size_classes.h` and the index arithmetic of `mm/alloc/heap.h`. */
module SizeClasses {

  const HUGE_SENTINEL: nat := 17

  predicate SizeIsSmall(size: nat) { size <= 8 * 1024 }
  predicate SizeIsHuge(size: nat) { 512 * 1024 < size }
  predicate ClassIsValid(c: nat) { c < 17 }
  predicate ClassIsSmall(c: nat) { c < 11 }

  function SizeOfClass(c: nat): (s: nat)
    ensures s >= 8
  {
    if c == 0 then 8 else 2 * SizeOfClass(c - 1)
  }

  predicate InPagesDirect(c: nat) { SizeOfClass(c) <= 1024 }

  /** The number of doublings from `s` on until `size` fits: `stdc_bit_ceil` and the count of its zeros. */
  function Doublings(size: nat, s: nat): nat
    requires s > 0
    decreases if size > s then size - s else 0
  {
    if size <= s then 0 else 1 + Doublings(size, 2 * s)
  }

  function ClassOfSize(size: nat): nat {
    Doublings(size, 8)
  }

  lemma {:induction false} ClassIsLeast(size: nat, from: nat)
    ensures var c := from + Doublings(size, SizeOfClass(from));
      size <= SizeOfClass(c) && (c > from ==> SizeOfClass(c - 1) < size)
    decreases if size > SizeOfClass(from) then size - SizeOfClass(from) else 0
  {
    if size > SizeOfClass(from) {
      ClassIsLeast(size, from + 1);
    }
  }

  lemma {:induction false} SizesGrow(a: nat, b: nat)
    requires a < b
    ensures 2 * SizeOfClass(a) <= SizeOfClass(b)
  {
    if a + 1 < b {
      SizesGrow(a, b - 1);
    }
  }

  /** The class of a size is the least one whose blocks are large enough. */
  lemma ClassOfSizeIs(size: nat, c: nat)
    ensures ClassOfSize(size) <= c <==> size <= SizeOfClass(c)
  {
    ClassIsLeast(size, 0);
    var k := ClassOfSize(size);
    if k < c {
      SizesGrow(k, c);
    } else if c + 1 < k {
      SizesGrow(c, k - 1);
    }
  }

  // ----- pages_direct

  function DirectIndex(size: nat): nat
    requires 0 < size <= 1024
  {
    (size + 7) / 8 - 1
  }

  function SizeOfIndex(i: nat): nat {
    (i + 1) * 8
  }

  /** The entries that `heap_update_pages_direct` sets for a class. */
  function FirstIndex(c: nat): nat
    requires InPagesDirect(c)
  {
    if c == 0 then DirectIndex(1)
    else assert SizeOfClass(c) == 2 * SizeOfClass(c - 1); DirectIndex(SizeOfClass(c - 1) + 1)
  }

  function LastIndex(c: nat): nat
    requires InPagesDirect(c)
  {
    DirectIndex(SizeOfClass(c))
  }

  lemma {:induction false} SizesAreEights(c: nat)
    ensures SizeOfClass(c) % 8 == 0
  {
    if c > 0 {
      SizesAreEights(c - 1);
    }
  }

  /** The entry for a size is one of the class of that size. */
  lemma DirectIndexClass(size: nat)
    requires 0 < size <= 1024
    ensures DirectIndex(size) < 128 && size <= SizeOfIndex(DirectIndex(size))
    ensures ClassOfSize(SizeOfIndex(DirectIndex(size))) == ClassOfSize(size) && InPagesDirect(ClassOfSize(size))
    ensures ClassOfSize(size) <= 7
  {
    var r := SizeOfIndex(DirectIndex(size));
    forall c: nat
      ensures size <= SizeOfClass(c) <==> r <= SizeOfClass(c)
    {
      SizesAreEights(c);
    }
    ClassOfSizeIs(size, ClassOfSize(size));
    ClassOfSizeIs(r, ClassOfSize(r));
    ClassOfSizeIs(size, ClassOfSize(r));
    ClassOfSizeIs(r, ClassOfSize(size));
    assert SizeOfClass(7) == 1024;
    ClassOfSizeIs(size, 7);
    if ClassOfSize(size) < 7 {
      SizesGrow(ClassOfSize(size), 7);
    }
  }

  /** The entries between the first and the last index of a class are those whose sizes are in the class. */
  lemma IndexRange(c: nat, i: nat)
    requires InPagesDirect(c)
    ensures ClassOfSize(SizeOfIndex(i)) == c <==> FirstIndex(c) <= i <= LastIndex(c)
    ensures FirstIndex(c) <= LastIndex(c) < 128
  {
    var size := SizeOfIndex(i);
    ClassOfSizeIs(size, c);
    SizesAreEights(c);
    if c > 0 {
      ClassOfSizeIs(size, c - 1);
      SizesAreEights(c - 1);
    }
  }
}
