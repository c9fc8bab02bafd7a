/** Hashing block by block, as section 3.3 of RFC 7693 does it for any compression function. */
module BlockHash {
  import opened Align
  import opened Words

  /** A compression function: chaining value, block, offset counter, and whether the block is the last. */
  type Compression<!H> = (H, seq<Byte>, nat, bool) -> H

  function Zeros(n: nat): seq<Byte> {
    seq(n, i => 0)
  }

  /** The bytes, filled up with zeros to one block. */
  function Padded(bytes: seq<Byte>, bb: nat): (r: seq<Byte>)
    requires |bytes| <= bb
    ensures |r| == bb
  {
    bytes + Zeros(bb - |bytes|)
  }

  /** The input is cut into blocks of `bb` bytes; the last is filled up, and there always is one. */
  function BlockCount(n: nat, bb: nat): nat
    requires bb > 0
  {
    if n == 0 then 1 else (n + bb - 1) / bb
  }

  function BlockAt(input: seq<Byte>, bb: nat, i: nat): (r: seq<Byte>)
    requires i * bb <= |input|
    ensures |r| == bb
  {
    if (i + 1) * bb <= |input| then input[i * bb..(i + 1) * bb] else Padded(input[i * bb..], bb)
  }

  /** The chaining value after the first `n` blocks, none of which is the last. */
  function Absorbed<H>(f: Compression<H>, h: H, input: seq<Byte>, bb: nat, n: nat): H
    requires n * bb <= |input|
  {
    if n == 0 then h
    else
      assert (n - 1) * bb <= n * bb;
      f(Absorbed(f, h, input, bb, n - 1), BlockAt(input, bb, n - 1), n * bb, false)
  }

  lemma {:induction false} BlockCountIs(n: nat, bb: nat)
    requires bb > 0
    ensures var c := BlockCount(n, bb); c >= 1 && (c - 1) * bb <= n <= c * bb && (n > 0 ==> (c - 1) * bb < n)
  {
    if n > 0 {
      var q := (n + bb - 1) / bb;
      assert n + bb - 1 == bb * q + (n + bb - 1) % bb;
      assert (q - 1) * bb == bb * q - bb;
    }
  }

  /** The algorithm as the RFC states it: key block and data are `input`, the last block is told apart. */
  function Digest<H>(f: Compression<H>, h: H, input: seq<Byte>, bb: nat): H
    requires bb > 0
  {
    BlockCountIs(|input|, bb);
    var last := BlockCount(|input|, bb) - 1;
    f(Absorbed(f, h, input, bb, last), BlockAt(input, bb, last), |input|, true)
  }

  /** Input of at most one block is compressed at once. */
  lemma DigestOneBlock<H>(f: Compression<H>, h: H, input: seq<Byte>, bb: nat)
    requires 0 < |input| <= bb
    ensures Digest(f, h, input, bb) == f(h, Padded(input, bb), |input|, true)
  {
    OneBlockCount(|input|, bb);
    FirstBlock(input, bb);
  }

  lemma OneBlockCount(n: nat, bb: nat)
    requires 0 < n <= bb
    ensures BlockCount(n, bb) == 1
  {
    Quotient(bb, 1, n - 1);
  }

  lemma FirstBlock(input: seq<Byte>, bb: nat)
    requires 0 < |input| <= bb
    ensures BlockAt(input, bb, 0) == Padded(input, bb)
  {
    assert input[0..] == input && (|input| == bb ==> input[..bb] == input && Zeros(0) == []);
  }

  lemma DigestIs<H>(f: Compression<H>, h: H, input: seq<Byte>, bb: nat)
    requires bb > 0
    ensures var n := Held(|input|, bb);
      && n * bb <= |input|
      && Digest(f, h, input, bb) == f(Absorbed(f, h, input, bb, n), BlockAt(input, bb, n), |input|, true)
  {
    BlockCountIs(|input|, bb);
  }

  /** The key block, if there is a key, and the data. */
  function Keyed(key: seq<Byte>, data: seq<Byte>, bb: nat): seq<Byte>
    requires |key| <= bb
  {
    if key == [] then data else Padded(key, bb) + data
  }

  /** More input does not change the blocks that were there in full. */
  lemma {:induction false} AbsorbedPrefix<H>(f: Compression<H>, h: H, input: seq<Byte>, more: seq<Byte>, bb: nat,
                                             n: nat)
    requires n * bb <= |input|
    ensures n * bb <= |input + more| && Absorbed(f, h, input + more, bb, n) == Absorbed(f, h, input, bb, n)
  {
    if n > 0 {
      assert (n - 1) * bb + bb == n * bb;
      AbsorbedPrefix(f, h, input, more, bb, n - 1);
      assert (input + more)[(n - 1) * bb..n * bb] == input[(n - 1) * bb..n * bb];
    }
  }

  /** How many blocks a streaming hash has compressed: a full last block is held back. */
  function Held(n: nat, bb: nat): nat
    requires bb > 0
  {
    BlockCountIs(n, bb);
    BlockCount(n, bb) - 1
  }

  lemma HeldIs(n: nat, bb: nat, k: nat)
    requires bb > 0 && k * bb <= n <= (k + 1) * bb && (n == k * bb ==> n == 0)
    ensures Held(n, bb) == k
  {
    BlockCountIs(n, bb);
    var c := BlockCount(n, bb) - 1;
    Monotone(c + 1, k, bb);
    Monotone(k + 1, c, bb);
  }

  lemma Monotone(a: nat, b: nat, m: nat)
    ensures a <= b ==> a * m <= b * m
  {
  }

  /** A block that lies in the input as a whole is compressed next. */
  lemma NextAbsorbed<H>(f: Compression<H>, h: H, input: seq<Byte>, bb: nat, n: nat)
    requires n * bb + bb <= |input|
    ensures n * bb <= (n + 1) * bb <= |input| && (n + 1) * bb == n * bb + bb
    ensures Absorbed(f, h, input, bb, n + 1) ==
      f(Absorbed(f, h, input, bb, n), input[n * bb..n * bb + bb], (n + 1) * bb, false)
  {
    assert (n + 1) * bb == n * bb + bb;
  }

  /** The block at the end of the input is what is in the buffer, filled up. */
  lemma LastBlock(input: seq<Byte>, bb: nat, n: nat)
    requires n * bb <= |input| <= n * bb + bb
    ensures BlockAt(input, bb, n) == Padded(input[n * bb..], bb)
  {
    assert (n + 1) * bb == n * bb + bb;
    if (n + 1) * bb <= |input| {
      assert input[n * bb..(n + 1) * bb] == input[n * bb..];
      assert Padded(input[n * bb..], bb) == input[n * bb..];
    }
  }

  /** Something is held back, unless there is no input. */
  lemma HeldBelow(n: nat, bb: nat)
    requires bb > 0
    ensures n > 0 ==> Held(n, bb) * bb < n
  {
    BlockCountIs(n, bb);
  }
}
