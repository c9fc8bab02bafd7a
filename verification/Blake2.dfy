/** BLAKE2 of `crypto/subtle/rfc7693.c`: what BLAKE2s and BLAKE2b share, after RFC 7693. */
module Blake2 {
  import opened Align
  import opened ExclusiveOr
  import opened Words
  import opened BlockHash

  /** Bytes and bits in a word, bytes in a block, rounds, rotations and constants, section 2.1 of RFC 7693. */
  datatype Variant = Variant(bytes: nat, bits: nat, block: nat, rounds: nat, r1: nat, r2: nat, r3: nat, r4: nat,
                             iv: seq<nat>) {
    predicate Ok() {
      && (bytes == 4 || bytes == 8) && bits == 8 * bytes && block == 16 * bytes && rounds <= 12 && |iv| == 8
      && r1 <= bits && r2 <= bits && r3 <= bits && r4 <= bits
    }
  }

  const BLAKE2S: Variant := Variant(4, 32, 64, 10, 16, 12, 8, 7, [
    0x6a09e667, 0xbb67ae85, 0x3c6ef372, 0xa54ff53a, 0x510e527f, 0x9b05688c, 0x1f83d9ab, 0x5be0cd19
  ])

  const BLAKE2B: Variant := Variant(8, 64, 128, 12, 32, 24, 16, 63, [
    0x6a09e667f3bcc908, 0xbb67ae8584caa73b, 0x3c6ef372fe94f82b, 0xa54ff53a5f1d36f1,
    0x510e527fade682d1, 0x9b05688c2b3e6c1f, 0x1f83d9abfb41bd6b, 0x5be0cd19137e2179
  ])

  /** A row of the schedule has sixteen indices of words of a block. */
  predicate IsRow(s: seq<nat>) {
    |s| == 16 && forall i :: 0 <= i < 16 ==> s[i] < 16
  }

  type Row = s: seq<nat> | IsRow(s) witness seq(16, i => 0)

  /** The message schedule, section 2.7 of RFC 7693. */
  const ROW_0: Row := [0, 1, 2, 3, 4, 5, 6, 7, 8, 9, 10, 11, 12, 13, 14, 15]
  const ROW_1: Row := [14, 10, 4, 8, 9, 15, 13, 6, 1, 12, 0, 2, 11, 7, 5, 3]
  const ROW_2: Row := [11, 8, 12, 0, 5, 2, 15, 13, 10, 14, 3, 6, 7, 1, 9, 4]
  const ROW_3: Row := [7, 9, 3, 1, 13, 12, 11, 14, 2, 6, 5, 10, 4, 0, 15, 8]
  const ROW_4: Row := [9, 0, 5, 7, 2, 4, 10, 15, 14, 1, 11, 12, 6, 8, 3, 13]
  const ROW_5: Row := [2, 12, 6, 10, 0, 11, 8, 3, 4, 13, 7, 5, 15, 14, 1, 9]
  const ROW_6: Row := [12, 5, 1, 15, 14, 13, 4, 10, 0, 7, 6, 3, 9, 2, 8, 11]
  const ROW_7: Row := [13, 11, 7, 14, 12, 1, 3, 9, 5, 0, 15, 4, 8, 6, 2, 10]
  const ROW_8: Row := [6, 15, 14, 9, 11, 3, 0, 8, 12, 2, 13, 7, 1, 4, 10, 5]
  const ROW_9: Row := [10, 2, 8, 4, 7, 6, 1, 5, 15, 11, 9, 14, 3, 12, 13, 0]

  const SIGMA: seq<Row> := [ROW_0, ROW_1, ROW_2, ROW_3, ROW_4, ROW_5, ROW_6, ROW_7, ROW_8, ROW_9, ROW_0, ROW_1]

  /** Every row of the schedule takes every word of a block, so each once. */
  lemma RowsArePermutations(i: nat, k: nat)
    requires i < 12 && k < 16
    ensures |SIGMA[i]| == 16 && k in SIGMA[i]
  {
    var s := SIGMA[i];
    assert i < 10 ==> s == [ROW_0, ROW_1, ROW_2, ROW_3, ROW_4, ROW_5, ROW_6, ROW_7, ROW_8, ROW_9][i];
    assert k in ROW_0;
    assert k in ROW_1;
    assert k in ROW_2;
    assert k in ROW_3;
    assert k in ROW_4;
    assert k in ROW_5;
    assert k in ROW_6;
    assert k in ROW_7;
    assert k in ROW_8;
    assert k in ROW_9;
  }

  const PRIMES: seq<nat> := [2, 3, 5, 7, 11, 13, 17, 19]
  /** The square roots of the primes, rounded down. */
  const ROOTS: seq<nat> := [1, 1, 2, 2, 3, 3, 4, 4]

  /** The initial vectors are the first 64 and 32 bits of the fractional parts of the square roots of the primes. */
  lemma IvIsRoots(i: nat)
    requires i < 8
    ensures var r := ROOTS[i] * 0x1_0000_0000_0000_0000 + BLAKE2B.iv[i]; var p := PRIMES[i];
      r * r <= p * 0x1_0000_0000_0000_0000_0000_0000_0000_0000 < (r + 1) * (r + 1)
    ensures ROOTS[i] * ROOTS[i] <= PRIMES[i] < (ROOTS[i] + 1) * (ROOTS[i] + 1)
    ensures BLAKE2S.iv[i] == BLAKE2B.iv[i] / 0x1_0000_0000
  {
  }

  // ----- sections 3.1 and 3.2 of RFC 7693

  /** Exclusive or, then a rotation to the right. */
  function Turn(x: nat, y: nat, n: nat, bits: nat): nat
    requires n <= bits
  {
    RotateRight(Xor(x, y), n, bits)
  }

  /** The mixing function G on four words. */
  function G(p: Variant, a: nat, b: nat, c: nat, d: nat, x: nat, y: nat): (nat, nat, nat, nat)
    requires p.Ok()
  {
    var a1 := Sum(a, Sum(b, x, p.bits), p.bits);
    var d1 := Turn(d, a1, p.r1, p.bits);
    var c1 := Sum(c, d1, p.bits);
    var b1 := Turn(b, c1, p.r2, p.bits);
    var a2 := Sum(a1, Sum(b1, y, p.bits), p.bits);
    var d2 := Turn(d1, a2, p.r3, p.bits);
    var c2 := Sum(c1, d2, p.bits);
    (a2, Turn(b1, c2, p.r4, p.bits), c2, d2)
  }

  function Mixed(p: Variant, v: seq<nat>, a: nat, b: nat, c: nat, d: nat, x: nat, y: nat): (r: seq<nat>)
    requires p.Ok() && Four(v, a, b, c, d)
    ensures |r| == 16
  {
    var (a', b', c', d') := G(p, v[a], v[b], v[c], v[d], x, y);
    v[a := a'][b := b'][c := c'][d := d']
  }

  function MixedColumns(p: Variant, v: seq<nat>, m: seq<nat>, s: Row): (r: seq<nat>)
    requires p.Ok() && |v| == 16 && |m| == 16
    ensures |r| == 16
  {
    var v1 := Mixed(p, v, 0, 4, 8, 12, m[s[0]], m[s[1]]);
    var v2 := Mixed(p, v1, 1, 5, 9, 13, m[s[2]], m[s[3]]);
    var v3 := Mixed(p, v2, 2, 6, 10, 14, m[s[4]], m[s[5]]);
    Mixed(p, v3, 3, 7, 11, 15, m[s[6]], m[s[7]])
  }

  function MixedDiagonals(p: Variant, v: seq<nat>, m: seq<nat>, s: Row): (r: seq<nat>)
    requires p.Ok() && |v| == 16 && |m| == 16
    ensures |r| == 16
  {
    var v1 := Mixed(p, v, 0, 5, 10, 15, m[s[8]], m[s[9]]);
    var v2 := Mixed(p, v1, 1, 6, 11, 12, m[s[10]], m[s[11]]);
    var v3 := Mixed(p, v2, 2, 7, 8, 13, m[s[12]], m[s[13]]);
    Mixed(p, v3, 3, 4, 9, 14, m[s[14]], m[s[15]])
  }

  /** One round: the columns, then the diagonals. */
  function Round(p: Variant, v: seq<nat>, m: seq<nat>, s: Row): (r: seq<nat>)
    requires p.Ok() && |v| == 16 && |m| == 16
    ensures |r| == 16
  {
    MixedDiagonals(p, MixedColumns(p, v, m, s), m, s)
  }

  /** The four columns do not touch each other. */
  lemma ColumnsIs(p: Variant, v: seq<nat>, m: seq<nat>, s: Row)
    requires p.Ok() && |v| == 16 && |m| == 16
    ensures
      var (a0, b0, c0, d0) := G(p, v[0], v[4], v[8], v[12], m[s[0]], m[s[1]]);
      var (a1, b1, c1, d1) := G(p, v[1], v[5], v[9], v[13], m[s[2]], m[s[3]]);
      var (a2, b2, c2, d2) := G(p, v[2], v[6], v[10], v[14], m[s[4]], m[s[5]]);
      var (a3, b3, c3, d3) := G(p, v[3], v[7], v[11], v[15], m[s[6]], m[s[7]]);
      MixedColumns(p, v, m, s) == [a0, a1, a2, a3, b0, b1, b2, b3, c0, c1, c2, c3, d0, d1, d2, d3]
  {
    hide G;
  }

  /** Nor do the diagonals. */
  lemma DiagonalsIs(p: Variant, v: seq<nat>, m: seq<nat>, s: Row)
    requires p.Ok() && |v| == 16 && |m| == 16
    ensures
      var (a0, b1, c2, d3) := G(p, v[0], v[5], v[10], v[15], m[s[8]], m[s[9]]);
      var (a1, b2, c3, d0) := G(p, v[1], v[6], v[11], v[12], m[s[10]], m[s[11]]);
      var (a2, b3, c0, d1) := G(p, v[2], v[7], v[8], v[13], m[s[12]], m[s[13]]);
      var (a3, b0, c1, d2) := G(p, v[3], v[4], v[9], v[14], m[s[14]], m[s[15]]);
      MixedDiagonals(p, v, m, s) == [a0, a1, a2, a3, b0, b1, b2, b3, c0, c1, c2, c3, d0, d1, d2, d3]
  {
    hide G;
  }

  function Rounds(p: Variant, v: seq<nat>, m: seq<nat>, n: nat): (r: seq<nat>)
    requires p.Ok() && |v| == 16 && |m| == 16 && n <= 12
    ensures |r| == 16
  {
    if n == 0 then v else Round(p, Rounds(p, v, m, n - 1), m, SIGMA[n - 1])
  }

  /** The halves of the offset counter and the last-block flag go in. */
  function WithMarks(p: Variant, v: seq<nat>, lo: nat, hi: nat, last: bool): (r: seq<nat>)
    requires |v| == 16
    ensures |r| == 16
  {
    var w := v[12 := Xor(v[12], lo)][13 := Xor(v[13], hi)];
    if last then w[14 := Not(w[14], p.bits)] else w
  }

  /** Both halves of the words go into the chaining value. */
  function Folded(h: seq<nat>, v: seq<nat>): (r: seq<nat>)
    requires |h| == 8 && |v| == 16
    ensures |r| == 8
  {
    seq(8, i requires 0 <= i < 8 => Xor(Xor(h[i], v[i]), v[i + 8]))
  }

  type State = h: seq<nat> | |h| == 8 witness [0, 0, 0, 0, 0, 0, 0, 0]

  /** The compression function F, with the offset counter `t`. */
  function F(p: Variant, h: State, m: seq<nat>, t: nat, last: bool): (r: State)
    requires p.Ok() && |m| == 16
  {
    var lo, hi := t % Pow2(p.bits), t / Pow2(p.bits);
    Folded(h, Rounds(p, WithMarks(p, h + p.iv, lo, hi, last), m, p.rounds))
  }

  /** F on a block of bytes; blocks of other lengths do not arise. */
  function Compress(p: Variant, h: State, block: seq<Byte>, t: nat, last: bool): State
    requires p.Ok()
  {
    if |block| == p.block then F(p, h, Loaded(block, p.bytes), t, last) else h
  }

  /** F on a block of bytes, as a compression function; blocks of other lengths do not arise. */
  function Compressor(p: Variant): Compression<State>
    requires p.Ok()
  {
    (h, block, t, last) => Compress(p, h, block, t, last)
  }

  // ----- section 3.3 of RFC 7693

  function Initial(p: Variant, hashLen: nat, keyLen: nat): State
    requires p.Ok()
  {
    p.iv[0 := Xor(p.iv[0], Xor(Xor(0x0101_0000, 256 * keyLen), hashLen))]
  }

  /** The hash of section 3.3. */
  function Hash(p: Variant, hashLen: nat, key: seq<Byte>, data: seq<Byte>): seq<Byte>
    requires p.Ok() && hashLen <= 8 * p.bytes && |key| <= 8 * p.bytes
  {
    AllBytes(Digest(Compressor(p), Initial(p, hashLen, |key|), Keyed(key, data, p.block), p.block), p.bytes)[..hashLen]
  }

  lemma CompressIs(p: Variant, h: State, block: seq<Byte>, t: nat, last: bool)
    requires p.Ok() && |block| == p.block
    ensures Compressor(p)(h, block, t, last) == F(p, h, Loaded(block, p.bytes), t, last)
  {
  }

  /** Data of at most one block, without a key, is compressed at once. */
  lemma HashOneBlock(p: Variant, hashLen: nat, data: seq<Byte>)
    requires p.Ok() && hashLen <= 8 * p.bytes && 0 < |data| <= p.block
    ensures Hash(p, hashLen, [], data)
         == AllBytes(F(p, Initial(p, hashLen, 0), Loaded(Padded(data, p.block), p.bytes), |data|, true),
                     p.bytes)[..hashLen]
  {
    hide F, Initial, AllBytes, Loaded, Compressor;
    DigestOneBlock(Compressor(p), Initial(p, hashLen, 0), data, p.block);
    CompressIs(p, Initial(p, hashLen, 0), Padded(data, p.block), |data|, true);
  }

  lemma {:induction false} FromZeros(n: nat)
    ensures FromBytes(Zeros(n)) == 0
  {
    if n > 0 {
      FromZeros(n - 1);
      assert Zeros(n)[1..] == Zeros(n - 1);
    }
  }

  /** The block of "abc" as words. */
  lemma LoadedAbc(block: seq<Byte>, n: nat)
    requires n >= 4 && |block| == 16 * n && block == [0x61, 0x62, 0x63] + Zeros(16 * n - 3)
    ensures Loaded(block, n) == [0x0063_6261] + seq(15, i => 0)
  {
    forall i | 0 <= i < 16
      ensures i * n + n <= |block| && Load(block, i, n) == if i == 0 then 0x0063_6261 else 0
    {
      WordInBlock(i, n);
      var b := block[i * n..i * n + n];
      if i > 0 {
        MulAtLeast(n, i);
        assert b == Zeros(n);
        FromZeros(n);
      } else {
        assert 0 * n == 0 && b == [0x61, 0x62, 0x63] + Zeros(n - 3);
        FromAbc(Zeros(n - 3));
        FromZeros(n - 3);
      }
    }
  }

  lemma FromAbc(rest: seq<Byte>)
    ensures FromBytes([0x61, 0x62, 0x63] + rest) == 0x0063_6261 + 0x100_0000 * FromBytes(rest)
  {
    var b1, b2 := [0x62, 0x63] + rest, [0x63] + rest;
    assert ([0x61, 0x62, 0x63] + rest)[1..] == b1 && b1[1..] == b2 && b2[1..] == rest;
    assert FromBytes(b2) == 0x63 + 256 * FromBytes(rest);
    assert FromBytes(b1) == 0x62 + 256 * FromBytes(b2);
  }

  // ----- words stay words

  lemma TurnFits(x: nat, y: nat, n: nat, bits: nat)
    requires n <= bits && Fits(x, bits) && Fits(y, bits)
    ensures Fits(Turn(x, y, n, bits), bits)
  {
    XorFitsBits(x, y, bits);
    RotateBack(Xor(x, y), n, bits);
  }

  lemma SumFits(x: nat, y: nat, bits: nat)
    ensures Fits(Sum(x, y, bits), bits)
  {
  }

  lemma MixedFits(p: Variant, v: seq<nat>, a: nat, b: nat, c: nat, d: nat, x: nat, y: nat)
    requires p.Ok() && Four(v, a, b, c, d) && AllFit(v, p.bits)
    ensures AllFit(Mixed(p, v, a, b, c, d, x, y), p.bits)
  {
    hide Sum, Turn, Fits;
    var n := p.bits;
    var a1 := Sum(v[a], Sum(v[b], x, n), n);
    var d1 := Turn(v[d], a1, p.r1, n);
    var c1 := Sum(v[c], d1, n);
    var b1 := Turn(v[b], c1, p.r2, n);
    var a2 := Sum(a1, Sum(b1, y, n), n);
    var d2 := Turn(d1, a2, p.r3, n);
    SumFits(v[a], Sum(v[b], x, n), n);
    TurnFits(v[d], a1, p.r1, n);
    SumFits(v[c], d1, n);
    TurnFits(v[b], c1, p.r2, n);
    SumFits(a1, Sum(b1, y, n), n);
    TurnFits(d1, a2, p.r3, n);
    SumFits(c1, d2, n);
    TurnFits(b1, Sum(c1, d2, n), p.r4, n);
  }

  lemma RoundFits(p: Variant, v: seq<nat>, m: seq<nat>, s: Row)
    requires p.Ok() && |v| == 16 && |m| == 16 && AllFit(v, p.bits)
    ensures AllFit(Round(p, v, m, s), p.bits)
  {
    hide Mixed, AllFit;
    var v1 := Mixed(p, v, 0, 4, 8, 12, m[s[0]], m[s[1]]);
    var v2 := Mixed(p, v1, 1, 5, 9, 13, m[s[2]], m[s[3]]);
    var v3 := Mixed(p, v2, 2, 6, 10, 14, m[s[4]], m[s[5]]);
    var v4 := Mixed(p, v3, 3, 7, 11, 15, m[s[6]], m[s[7]]);
    var v5 := Mixed(p, v4, 0, 5, 10, 15, m[s[8]], m[s[9]]);
    var v6 := Mixed(p, v5, 1, 6, 11, 12, m[s[10]], m[s[11]]);
    var v7 := Mixed(p, v6, 2, 7, 8, 13, m[s[12]], m[s[13]]);
    MixedFits(p, v, 0, 4, 8, 12, m[s[0]], m[s[1]]);
    MixedFits(p, v1, 1, 5, 9, 13, m[s[2]], m[s[3]]);
    MixedFits(p, v2, 2, 6, 10, 14, m[s[4]], m[s[5]]);
    MixedFits(p, v3, 3, 7, 11, 15, m[s[6]], m[s[7]]);
    MixedFits(p, v4, 0, 5, 10, 15, m[s[8]], m[s[9]]);
    MixedFits(p, v5, 1, 6, 11, 12, m[s[10]], m[s[11]]);
    MixedFits(p, v6, 2, 7, 8, 13, m[s[12]], m[s[13]]);
    MixedFits(p, v7, 3, 4, 9, 14, m[s[14]], m[s[15]]);
  }

  lemma {:induction false} RoundsFit(p: Variant, v: seq<nat>, m: seq<nat>, n: nat)
    requires p.Ok() && |v| == 16 && |m| == 16 && n <= 12 && AllFit(v, p.bits)
    ensures AllFit(Rounds(p, v, m, n), p.bits)
  {
    hide Round, AllFit;
    if n > 0 {
      RoundsFit(p, v, m, n - 1);
      RoundFits(p, Rounds(p, v, m, n - 1), m, SIGMA[n - 1]);
    }
  }

  /** Chaining values stay words of the variant's width. */
  lemma FFits(p: Variant, h: State, m: seq<nat>, t: nat, last: bool)
    requires p.Ok() && |m| == 16 && AllFit(h, p.bits) && AllFit(p.iv, p.bits) && t / Pow2(p.bits) < Pow2(p.bits)
    ensures AllFit(F(p, h, m, t, last), p.bits)
  {
    var lo, hi := t % Pow2(p.bits), t / Pow2(p.bits);
    var start := WithMarks(p, h + p.iv, lo, hi, last);
    MarksFit(p, h + p.iv, lo, hi, last);
    RoundsFit(p, start, m, p.rounds);
    var v := Rounds(p, start, m, p.rounds);
    hide Rounds, WithMarks, Pow2;
    forall i | 0 <= i < 8
      ensures Fits(Folded(h, v)[i], p.bits)
    {
      XorFitsBits(h[i], v[i], p.bits);
      XorFitsBits(Xor(h[i], v[i]), v[i + 8], p.bits);
    }
  }

  /** The constants of both variants are words of their width. */
  lemma ConstantsFit()
    ensures AllFit(BLAKE2S.iv, BLAKE2S.bits) && AllFit(BLAKE2B.iv, BLAKE2B.bits)
  {
    Powers();
    hide Pow2;
    assert forall i :: 0 <= i < 8 ==> BLAKE2S.iv[i] < 0x1_0000_0000;
    assert forall i :: 0 <= i < 8 ==> BLAKE2B.iv[i] < 0x1_0000_0000_0000_0000;
  }

  lemma MarksFit(p: Variant, v: seq<nat>, lo: nat, hi: nat, last: bool)
    requires |v| == 16 && AllFit(v, p.bits) && Fits(lo, p.bits) && Fits(hi, p.bits)
    ensures AllFit(WithMarks(p, v, lo, hi, last), p.bits)
  {
    hide Xor, Pow2;
    XorFitsBits(v[12], lo, p.bits);
    XorFitsBits(v[13], hi, p.bits);
    XorFitsBits(v[14], Pow2(p.bits) - 1, p.bits);
  }

  // ----- the compression, in place

  /** `blake2s_mix_quarter_round` and `blake2b_mix_quarter_round`. */
  method MixQuarterRound(p: Variant, words: array<nat>, a: nat, b: nat, c: nat, d: nat, x: nat, y: nat)
    requires p.Ok() && Four(words[..], a, b, c, d)
    modifies words
    ensures words[..] == Mixed(p, old(words[..]), a, b, c, d, x, y)
  {
    hide Sum, Turn;
    words[a] := Sum(words[a], Sum(words[b], x, p.bits), p.bits);
    words[d] := Turn(words[d], words[a], p.r1, p.bits);
    words[c] := Sum(words[c], words[d], p.bits);
    words[b] := Turn(words[b], words[c], p.r2, p.bits);
    words[a] := Sum(words[a], Sum(words[b], y, p.bits), p.bits);
    words[d] := Turn(words[d], words[a], p.r3, p.bits);
    words[c] := Sum(words[c], words[d], p.bits);
    words[b] := Turn(words[b], words[c], p.r4, p.bits);
  }

  /** `blake2s_mix_double_round` and `blake2b_mix_double_round`. */
  method MixDoubleRound(p: Variant, words: array<nat>, chunk: seq<nat>, i: nat)
    requires p.Ok() && words.Length == 16 && |chunk| == 16 && i < 12
    modifies words
    ensures words[..] == Round(p, old(words[..]), chunk, SIGMA[i])
  {
    hide Mixed;
    var s := SIGMA[i];
    MixQuarterRound(p, words, 0, 4, 8, 12, chunk[s[0]], chunk[s[1]]);
    MixQuarterRound(p, words, 1, 5, 9, 13, chunk[s[2]], chunk[s[3]]);
    MixQuarterRound(p, words, 2, 6, 10, 14, chunk[s[4]], chunk[s[5]]);
    MixQuarterRound(p, words, 3, 7, 11, 15, chunk[s[6]], chunk[s[7]]);
    MixQuarterRound(p, words, 0, 5, 10, 15, chunk[s[8]], chunk[s[9]]);
    MixQuarterRound(p, words, 1, 6, 11, 12, chunk[s[10]], chunk[s[11]]);
    MixQuarterRound(p, words, 2, 7, 8, 13, chunk[s[12]], chunk[s[13]]);
    MixQuarterRound(p, words, 3, 4, 9, 14, chunk[s[14]], chunk[s[15]]);
  }

  /** `blake2s_compress` and `blake2b_compress`, with the counter in two halves. */
  method CompressInPlace(p: Variant, state: array<nat>, chunk: seq<nat>, lo: nat, hi: nat, last: bool)
    requires p.Ok() && state.Length == 8 && |chunk| == 16 && Fits(lo, p.bits)
    modifies state
    ensures state[..] == F(p, old(state[..]), chunk, hi * Pow2(p.bits) + lo, last)
  {
    hide Round, Xor, Not, Pow2;
    ghost var h := state[..];
    var words := new nat[16];
    CopyWords(words, state[..], p.iv);
    words[12] := Xor(words[12], lo);
    words[13] := Xor(words[13], hi);
    if last {
      words[14] := Not(words[14], p.bits);
    }
    ghost var start := WithMarks(p, h + p.iv, lo, hi, last);
    assert words[..] == start;
    for i := 0 to p.rounds
      invariant words[..] == Rounds(p, start, chunk, i)
      invariant state[..] == h
    {
      MixDoubleRound(p, words, chunk, i);
    }
    FoldIn(state, words[..]);
    Halves(lo, hi, Pow2(p.bits));
  }

  lemma Halves(lo: nat, hi: nat, m: nat)
    requires lo < m
    ensures (hi * m + lo) % m == lo && (hi * m + lo) / m == hi
  {
    Quotient(m, hi, lo);
    assert hi * m == m * hi;
  }

  /** The two loops that copy the chaining value and the constants. */
  method CopyWords(words: array<nat>, h: seq<nat>, iv: seq<nat>)
    requires words.Length == 16 && |h| == 8 && |iv| == 8
    modifies words
    ensures words[..] == h + iv
  {
    for i := 0 to 8
      invariant words[..i] == h[..i]
    {
      words[i] := h[i];
    }
    for i := 0 to 8
      invariant words[..8 + i] == h + iv[..i]
    {
      words[8 + i] := iv[i];
    }
    assert words[..16] == words[..] && iv[..8] == iv;
  }

  /** The two loops that fold the words into the chaining value. */
  method FoldIn(state: array<nat>, v: seq<nat>)
    requires state.Length == 8 && |v| == 16
    modifies state
    ensures state[..] == Folded(old(state[..]), v)
  {
    hide Xor;
    ghost var h := state[..];
    for i := 0 to 8
      invariant forall j :: 0 <= j < 8 ==> state[j] == if j < i then Xor(h[j], v[j]) else h[j]
    {
      state[i] := Xor(state[i], v[i]);
    }
    for i := 0 to 8
      invariant forall j :: 0 <= j < i ==> state[j] == Folded(h, v)[j]
      invariant forall j :: i <= j < 8 ==> state[j] == Xor(h[j], v[j])
    {
      state[i] := Xor(state[i], v[i + 8]);
    }
  }
}
