/** BLAKE2s of `crypto/subtle/rfc7693.c`: streaming, with a full block held back for the last-block flag. */
module Blake2Streaming {
  import opened Integers
  import opened Align
  import opened Words
  import opened BlockHash
  import opened Blake2

  lemma Parameters()
    ensures BLAKE2S.Ok() && BLAKE2S.bytes == 4 && BLAKE2S.bits == 32 && BLAKE2S.block == 64 && Pow2(32) == 0x1_0000_0000
  {
    Powers();
  }

  function Compress2s(): Compression<State> {
    Compressor(BLAKE2S)
  }

  /** `blake2s_compress` on the bytes of a block. */
  method CompressBlock(state: array<nat>, block: seq<Byte>, lo: u32, hi: u32, last: bool)
    requires state.Length == 8 && |block| == 64
    modifies state
    ensures state[..] == Compress2s()(old(state[..]), block, hi * 0x1_0000_0000 + lo, last)
  {
    Parameters();
    hide F, Loaded;
    CompressIs(BLAKE2S, state[..], block, hi * 0x1_0000_0000 + lo, last);
    CompressInPlace(BLAKE2S, state, Loaded(block, 4), lo, hi, last);
  }

  /** `struct blake2s_hasher`. */
  class Hasher {
    const buffer: array<Byte>
    const hashState: array<nat>
    var byteCountLo: u32
    var byteCountHi: u32
    var bufferLen: nat
    var hashLen: nat

    /** All bytes hashed so far, the key block among them, and the chaining value at the start. */
    ghost var input: seq<Byte>
    ghost var initial: State

    /** The first `n` blocks of the input are compressed, the rest of it is in the buffer. */
    ghost predicate After(n: nat)
      reads this, buffer, hashState
    {
      && buffer.Length == 64 && hashState.Length == 8 && 1 <= hashLen <= 32 && |input| < 0x1_0000_0000_0000_0000
      && n * 64 <= |input| && bufferLen == |input| - n * 64 <= 64
      && byteCountHi * 0x1_0000_0000 + byteCountLo == n * 64
      && buffer[..bufferLen] == input[n * 64..]
      && hashState[..] == Absorbed(Compress2s(), initial, input, 64, n)
    }

    /** Everything the hasher holds is determined by the input. */
    ghost predicate Valid()
      reads this, buffer, hashState
    {
      After(Held(|input|, 64))
    }

    /** `blake2s_init`. */
    constructor (hashLen: nat, key: seq<Byte>)
      requires 1 <= hashLen <= 32 && |key| <= 32
      ensures Valid() && this.hashLen == hashLen && input == Keyed(key, [], 64)
      ensures initial == Initial(BLAKE2S, hashLen, |key|)
      ensures fresh(buffer) && fresh(hashState)
    {
      this.hashLen := hashLen;
      buffer := new Byte[64];
      hashState := new nat[8](i requires 0 <= i < 8 => Initial(BLAKE2S, hashLen, |key|)[i]);
      byteCountLo, byteCountHi, bufferLen := 0, 0, 0;
      input, initial := [], Initial(BLAKE2S, hashLen, |key|);
      new;
      assert hashState[..] == Initial(BLAKE2S, hashLen, |key|);
      if |key| > 0 {
        Update(Padded(key, 64));
        assert byteCountLo == 0 && byteCountHi == 0 && bufferLen == 64;
      }
    }

    /** `blake2s_update`: the input grows by the data; how it is cut does not matter. */
    method Update(data: seq<Byte>)
      requires Valid() && |input| + |data| < 0x1_0000_0000_0000_0000
      modifies this, buffer, hashState
      ensures Valid() && input == old(input) + data && hashLen == old(hashLen) && initial == old(initial)
    {
      hide *;
      ghost var before := input;
      var done := 0;
      assert data[..0] == [] && before + [] == before;
      while done < |data|
        invariant done <= |data| && Valid() && input == before + data[..done] && hashLen == old(hashLen)
        invariant initial == old(initial)
      {
        ghost var n := Held(|input|, 64);
        InBuffer();
        if bufferLen == 64 {
          Flush(n);
          n := n + 1;
        }
        var chunkLen := if |data| - done < 64 - bufferLen then |data| - done else 64 - bufferLen;
        Append(data[done..done + chunkLen], n);
        assert data[..done] + data[done..done + chunkLen] == data[..done + chunkLen];
        assert before + data[..done] + data[done..done + chunkLen] == before + data[..done + chunkLen];
        done := done + chunkLen;
      }
      assert data[..|data|] == data;
    }

    lemma InBuffer()
      requires Valid()
      ensures After(Held(|input|, 64)) && bufferLen <= 64
    {
    }

    /** Hashers that started alike and have had the same bytes agree, however the bytes were cut. */
    lemma Determined(other: Hasher)
      requires Valid() && other.Valid() && input == other.input && initial == other.initial
      ensures hashState[..] == other.hashState[..] && bufferLen == other.bufferLen
      ensures buffer[..bufferLen] == other.buffer[..bufferLen]
      ensures byteCountLo == other.byteCountLo && byteCountHi == other.byteCountHi
      ensures input != [] ==> 0 < bufferLen <= 64
      ensures byteCountHi * 0x1_0000_0000 + byteCountLo + bufferLen == |input|
    {
      hide *;
      InBuffer();
      other.InBuffer();
      HeldBelow(|input|, 64);
      Alike(other, Held(|input|, 64));
    }

    lemma Alike(other: Hasher, n: nat)
      requires After(n) && other.After(n) && input == other.input && initial == other.initial
      requires input != [] ==> n * 64 < |input|
      ensures hashState[..] == other.hashState[..] && bufferLen == other.bufferLen
      ensures buffer[..bufferLen] == other.buffer[..bufferLen]
      ensures byteCountLo == other.byteCountLo && byteCountHi == other.byteCountHi
      ensures input != [] ==> 0 < bufferLen <= 64
      ensures byteCountHi * 0x1_0000_0000 + byteCountLo + bufferLen == |input|
    {
      hide Absorbed, Compress2s;
    }

    /** The full buffer is compressed, and counted. */
    method Flush(ghost n: nat)
      requires After(n) && bufferLen == 64
      modifies this`byteCountLo, this`byteCountHi, this`bufferLen, hashState
      ensures After(n + 1) && bufferLen == 0
    {
      hide Compress2s, Absorbed, Held, BlockAt, Padded, Digest, AllBytes, Initial;
      NextAbsorbed(Compress2s(), initial, input, 64, n);
      byteCountLo, byteCountHi := CountUp(byteCountLo, byteCountHi, 64);
      assert buffer[..64] == buffer[..] == input[n * 64..n * 64 + 64];
      CompressBlock(hashState, buffer[..], byteCountLo, byteCountHi, false);
      bufferLen := 0;
      assert buffer[..0] == [] == input[(n + 1) * 64..];
    }

    /** Bytes go into the buffer. */
    method Append(bytes: seq<Byte>, ghost n: nat)
      requires After(n) && bytes != [] && bufferLen + |bytes| <= 64 && |input| + |bytes| < 0x1_0000_0000_0000_0000
      modifies this`input, this`bufferLen, buffer
      ensures Valid() && input == old(input) + bytes
    {
      hide Compress2s, Absorbed, Held, BlockAt, Padded, Digest, AllBytes, Initial;
      AbsorbedPrefix(Compress2s(), initial, input, bytes, 64, n);
      HeldIs(|input| + |bytes|, 64, n);
      forall i | 0 <= i < |bytes| {
        buffer[bufferLen + i] := bytes[i];
      }
      input := input + bytes;
      bufferLen := bufferLen + |bytes|;
      assert buffer[..bufferLen] == input[n * 64..];
    }

    /** `blake2s_finish`: the hash of everything that went in; the hasher stays as it is. */
    method Finish() returns (out: seq<Byte>)
      requires Valid()
      ensures out == AllBytes(Digest(Compress2s(), initial, input, 64), 4)[..hashLen]
    {
      hide Compress2s, Absorbed, Held, BlockAt, Padded, Digest, AllBytes, Initial;
      ghost var n := Held(|input|, 64);
      DigestIs(Compress2s(), initial, input, 64);
      LastBlock(input, 64, n);
      var state := new nat[8](i requires 0 <= i < 8 && hashState.Length == 8 reads this, hashState => hashState[i]);
      assert state[..] == hashState[..];
      var lo, hi := CountUp(byteCountLo, byteCountHi, bufferLen);
      CompressBlock(state, Padded(buffer[..bufferLen], 64), lo, hi, true);
      out := AllBytes(state[..], 4)[..hashLen];
    }
  }

  /** `ckd_add` on the low half, with the carry into the high half. */
  method CountUp(lo: u32, hi: u32, n: nat) returns (lo': u32, hi': u32)
    requires n <= 64 && hi * 0x1_0000_0000 + lo + n < 0x1_0000_0000_0000_0000
    ensures hi' * 0x1_0000_0000 + lo' == hi * 0x1_0000_0000 + lo + n
  {
    lo', hi' := (lo + n) % 0x1_0000_0000, hi;
    if lo + n >= 0x1_0000_0000 {
      hi' := hi + 1;
    }
  }

  lemma KeyedIs(key: seq<Byte>, data: seq<Byte>)
    requires |key| <= 32
    ensures |Keyed(key, [], 64)| <= 64 && Keyed(key, [], 64) + data == Keyed(key, data, 64)
  {
  }

  lemma HashIs(hashLen: nat, key: seq<Byte>, data: seq<Byte>)
    requires hashLen <= 32 && |key| <= 32
    ensures Hash(BLAKE2S, hashLen, key, data)
         == AllBytes(Digest(Compress2s(), Initial(BLAKE2S, hashLen, |key|), Keyed(key, data, 64), 64), 4)[..hashLen]
  {
  }

  /** `blake2s_hash`. */
  method HashAll(hashLen: nat, key: seq<Byte>, data: seq<Byte>) returns (out: seq<Byte>)
    requires 1 <= hashLen <= 32 && |key| <= 32 && |data| + 64 < 0x1_0000_0000_0000_0000
    ensures out == Hash(BLAKE2S, hashLen, key, data)
  {
    hide *;
    KeyedIs(key, data);
    var hasher := new Hasher(hashLen, key);
    hasher.Update(data);
    HashIs(hashLen, key, data);
    out := hasher.Finish();
  }
}
