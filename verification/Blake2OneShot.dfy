/** BLAKE2b of `crypto/subtle/rfc7693.c`, in one go. */
module Blake2OneShot {
  import opened Integers
  import opened Align
  import opened Words
  import opened BlockHash
  import opened Blake2

  lemma Parameters()
    ensures BLAKE2B.Ok() && BLAKE2B.bytes == 8 && BLAKE2B.bits == 64 && BLAKE2B.block == 128
    ensures Pow2(64) == 0x1_0000_0000_0000_0000
  {
    Powers();
  }

  function Compress2b(): Compression<State> {
    Compressor(BLAKE2B)
  }

  /** `blake2b_compress` on the bytes of a block. */
  method CompressBlock(state: array<nat>, block: seq<Byte>, lo: u64, hi: u64, last: bool)
    requires state.Length == 8 && |block| == 128
    modifies state
    ensures state[..] == Compress2b()(old(state[..]), block, hi * 0x1_0000_0000_0000_0000 + lo, last)
  {
    Parameters();
    hide F, Loaded;
    CompressIs(BLAKE2B, state[..], block, hi * 0x1_0000_0000_0000_0000 + lo, last);
    CompressInPlace(BLAKE2B, state, Loaded(block, 8), lo, hi, last);
  }

  /** `ckd_add` on the low half, with the carry into the high half. */
  method CountUp(lo: u64, hi: u64, n: nat) returns (lo': u64, hi': u64)
    requires n <= 128 && hi < 0xffff_ffff_ffff_ffff
    ensures hi' * 0x1_0000_0000_0000_0000 + lo' == hi * 0x1_0000_0000_0000_0000 + lo + n
  {
    lo', hi' := (lo + n) % 0x1_0000_0000_0000_0000, hi;
    if lo + n >= 0x1_0000_0000_0000_0000 {
      hi' := hi + 1;
    }
  }

  /** Before the block that begins at `n * 128`, or when all is done. */
  ghost predicate Reached(state: seq<nat>, initial: State, input: seq<Byte>, n: nat, all: bool) {
    if all then state == Digest(Compress2b(), initial, input, 128)
    else n * 128 < |input| && state == Absorbed(Compress2b(), initial, input, 128, n)
  }

  lemma WholeBlock(input: seq<Byte>, n: nat, t: nat)
    requires n * 128 <= t <= |input| && t <= n * 128 + 128
    ensures t == n * 128 + 128 ==> Padded(input[n * 128..t], 128) == input[n * 128..n * 128 + 128]
    ensures t == |input| ==> input[n * 128..t] == input[n * 128..]
  {
  }

  /** What one block, the last or another, does to the state. */
  lemma OneBlock(state: seq<nat>, initial: State, input: seq<Byte>, n: nat, block: seq<Byte>, t: nat, last: bool)
    requires |state| == 8 && n * 128 <= |input| && (n * 128 == |input| ==> input == [])
    requires state == Absorbed(Compress2b(), initial, input, 128, n)
    requires t == (if |input| < n * 128 + 128 then |input| else n * 128 + 128) && last == (t == |input|)
    requires block == Padded(input[n * 128..t], 128)
    ensures Reached(Compress2b()(state, block, t, last), initial, input, n + 1, last)
  {
    WholeBlock(input, n, t);
    hide Compress2b, Absorbed, Digest, Padded, BlockAt, Held;
    if last {
      HeldIs(|input|, 128, n);
      DigestIs(Compress2b(), initial, input, 128);
      LastBlock(input, 128, n);
    } else {
      NextAbsorbed(Compress2b(), initial, input, 128, n);
    }
  }

  /** One call of `blake2b_compress`. */
  method Block(state: array<nat>, bytes: seq<Byte>, lo: u64, hi: u64, last: bool, ghost initial: State,
               ghost input: seq<Byte>, ghost n: nat)
    requires state.Length == 8 && |bytes| <= 128 && n * 128 <= |input| && (n * 128 == |input| ==> input == [])
    requires state[..] == Absorbed(Compress2b(), initial, input, 128, n)
    requires hi * 0x1_0000_0000_0000_0000 + lo == n * 128 + |bytes|
    requires n * 128 + |bytes| == if |input| < n * 128 + 128 then |input| else n * 128 + 128
    requires bytes == input[n * 128..n * 128 + |bytes|] && last == (n * 128 + |bytes| == |input|)
    modifies state
    ensures Reached(state[..], initial, input, n + 1, last)
  {
    hide *;
    OneBlock(state[..], initial, input, n, Padded(bytes, 128), n * 128 + |bytes|, last);
    CompressBlock(state, Padded(bytes, 128), lo, hi, last);
  }

  /** `blake2b_hash`. */
  method HashAll(hashLen: nat, key: seq<Byte>, data: seq<Byte>) returns (out: seq<Byte>)
    requires 1 <= hashLen <= 64 && |key| <= 64 && |data| < 0x1_0000_0000_0000_0000
    ensures out == Hash(BLAKE2B, hashLen, key, data)
  {
    hide *;
    Parameters();
    ghost var initial, input := Initial(BLAKE2B, hashLen, |key|), Keyed(key, data, 128);
    var state := InitialState(hashLen, |key|);
    KeyedIs(key, data);
    NothingAbsorbed(initial, input);
    var lo: u64, hi: u64 := 0, 0;
    ghost var n := 0;
    if |key| > 0 {
      lo, hi := CountUp(lo, hi, 128);
      Block(state, Padded(key, 128), lo, hi, |data| == 0, initial, input, n);
      n := 1;
    }
    if |key| == 0 && |data| == 0 {
      Block(state, [], 0, 0, true, initial, input, n);
    }
    BeforeData(state[..], initial, input, n, |data| == 0);
    var done := 0;
    while done < |data|
      invariant done <= |data| && |input| == |data| + (if |key| > 0 then 128 else 0)
      invariant Reached(state[..], initial, input, n, done == |data|) && hi <= 1
      invariant done < |data| ==> hi * 0x1_0000_0000_0000_0000 + lo == n * 128 == done + if |key| > 0 then 128 else 0
    {
      var chunkLen := if |data| - done < 128 then |data| - done else 128;
      lo, hi := CountUp(lo, hi, chunkLen);
      ChunkOfInput(key, data, done, done + chunkLen);
      ReachedIs(state[..], initial, input, n);
      Block(state, data[done..done + chunkLen], lo, hi, chunkLen == |data| - done, initial, input, n);
      n := n + 1;
      done := done + chunkLen;
    }
    ReachedAll(state[..], initial, input, n);
    HashIs(hashLen, key, data);
    out := AllBytes(state[..], 8)[..hashLen];
  }

  method InitialState(hashLen: nat, keyLen: nat) returns (state: array<nat>)
    requires hashLen <= 64 && keyLen <= 64
    ensures fresh(state) && state.Length == 8 && state[..] == Initial(BLAKE2B, hashLen, keyLen)
  {
    state := new nat[8](i requires 0 <= i < 8 => Initial(BLAKE2B, hashLen, keyLen)[i]);
    assert state[..] == Initial(BLAKE2B, hashLen, keyLen);
  }

  lemma KeyedIs(key: seq<Byte>, data: seq<Byte>)
    requires |key| <= 64
    ensures |Keyed(key, data, 128)| == |data| + (if |key| > 0 then 128 else 0)
    ensures key == [] ==> Keyed(key, data, 128) == data
    ensures key != [] ==> |Padded(key, 128)| == 128 && Keyed(key, data, 128)[..128] == Padded(key, 128)
  {
  }

  lemma ChunkOfInput(key: seq<Byte>, data: seq<Byte>, a: nat, b: nat)
    requires |key| <= 64 && a <= b <= |data|
    ensures var k := if |key| > 0 then 128 else 0;
      && k + b <= |Keyed(key, data, 128)| && Keyed(key, data, 128)[k + a..k + b] == data[a..b]
  {
  }

  lemma NothingAbsorbed(initial: State, input: seq<Byte>)
    ensures Absorbed(Compress2b(), initial, input, 128, 0) == initial
  {
  }

  lemma BeforeData(state: seq<nat>, initial: State, input: seq<Byte>, n: nat, all: bool)
    requires (n == 1 && Reached(state, initial, input, 1, all))
      || (n == 0 && all && Reached(state, initial, input, 1, true))
      || (n == 0 && !all && input != [] && state == Absorbed(Compress2b(), initial, input, 128, 0))
    ensures Reached(state, initial, input, n, all)
  {
  }

  lemma ReachedIs(state: seq<nat>, initial: State, input: seq<Byte>, n: nat)
    requires Reached(state, initial, input, n, false)
    ensures n * 128 < |input| && state == Absorbed(Compress2b(), initial, input, 128, n)
  {
  }

  lemma ReachedAll(state: seq<nat>, initial: State, input: seq<Byte>, n: nat)
    requires Reached(state, initial, input, n, true)
    ensures state == Digest(Compress2b(), initial, input, 128)
  {
  }

  lemma HashIs(hashLen: nat, key: seq<Byte>, data: seq<Byte>)
    requires hashLen <= 64 && |key| <= 64
    ensures Hash(BLAKE2B, hashLen, key, data)
         == AllBytes(Digest(Compress2b(), Initial(BLAKE2B, hashLen, |key|), Keyed(key, data, 128), 128), 8)[..hashLen]
  {
  }
}
