/** Bitwise exclusive or on natural numbers. */
module ExclusiveOr {

  function Xor(a: nat, b: nat): nat
    decreases a + b
  {
    if a == 0 && b == 0 then 0 else 2 * Xor(a / 2, b / 2) + if a % 2 == b % 2 then 0 else 1
  }

  /** A second exclusive or undoes the first. */
  lemma {:induction false} XorTwice(a: nat, c: nat)
    ensures Xor(Xor(a, c), c) == a
    decreases a + c
  {
    if a != 0 || c != 0 {
      XorTwice(a / 2, c / 2);
      var r := Xor(a, c);
      assert r / 2 == Xor(a / 2, c / 2) && r % 2 == if a % 2 == c % 2 then 0 else 1;
    }
  }

  function Twice(x: nat, n: nat): nat {
    if n == 0 then x else 2 * Twice(x, n - 1)
  }

  /** Numbers of `n` bits give a number of `n` bits. */
  lemma {:induction false} XorFits(a: nat, b: nat, n: nat)
    requires a < Twice(1, n) && b < Twice(1, n)
    ensures Xor(a, b) < Twice(1, n)
  {
    if n > 0 {
      XorFits(a / 2, b / 2, n - 1);
    }
  }

  lemma XorOdd(x: nat, y: nat)
    ensures Xor(2 * x, 2 * y + 1) == 2 * Xor(x, y) + 1
  {
  }

  /** A number that ends in three zeros and a cookie that ends in three ones. */
  lemma XorLow3(a: nat, c: nat)
    requires a % 8 == 0 && c % 8 == 7
    ensures Xor(a, c) % 8 == 7
  {
    hide Xor;
    var x, y := a / 8, c / 8;
    XorOdd(x, y);
    XorOdd(2 * x, 2 * y + 1);
    XorOdd(4 * x, 4 * y + 3);
  }
}
