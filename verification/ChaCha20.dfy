/** ChaCha20 of `crypto/subtle/rfc7539.c`, after RFC 7539. */
module ChaCha20 {
  import opened Integers
  import opened ExclusiveOr
  import opened Words

  function Plus(x: nat, y: nat): nat { Sum(x, y, 32) }
  function Minus(x: nat, y: nat): nat { Difference(x, y, 32) }

  /** Exclusive or, then a rotation to the left. */
  function Turn(x: nat, y: nat, n: nat): nat
    requires n <= 32
  {
    RotateLeft(Xor(x, y), n, 32)
  }

  /** The other way round. */
  function Back(x: nat, y: nat, n: nat): nat
    requires n <= 32
  {
    Xor(RotateRight(x, n, 32), y)
  }

  predicate Is32(x: nat) { Fits(x, 32) }

  lemma PlusBack(x: nat, y: nat)
    requires Is32(x) && Is32(y)
    ensures Is32(Plus(x, y)) && Is32(Minus(x, y)) && Minus(Plus(x, y), y) == x && Plus(Minus(x, y), y) == x
  {
    SumBack(x, y, 32);
  }

  lemma TurnBack(x: nat, y: nat, n: nat)
    requires Is32(x) && Is32(y) && n <= 32
    ensures Is32(Turn(x, y, n)) && Back(Turn(x, y, n), y, n) == x
    ensures Is32(Back(x, y, n)) && Turn(Back(x, y, n), y, n) == x
  {
    XorFitsBits(x, y, 32);
    RotateBack(Xor(x, y), 32 - n, 32);
    XorTwice(x, y);
    RotateBack(x, n, 32);
    XorFitsBits(RotateRight(x, n, 32), y, 32);
    XorTwice(RotateRight(x, n, 32), y);
  }

  // ----- section 2.1 of RFC 7539

  function Quarter(a: nat, b: nat, c: nat, d: nat): (nat, nat, nat, nat) {
    var a1 := Plus(a, b);
    var d1 := Turn(d, a1, 16);
    var c1 := Plus(c, d1);
    var b1 := Turn(b, c1, 12);
    var a2 := Plus(a1, b1);
    var d2 := Turn(d1, a2, 8);
    var c2 := Plus(c1, d2);
    (a2, Turn(b1, c2, 7), c2, d2)
  }

  function QuarterBack(a: nat, b: nat, c: nat, d: nat): (nat, nat, nat, nat) {
    var b1 := Back(b, c, 7);
    var c1 := Minus(c, d);
    var d1 := Back(d, a, 8);
    var a1 := Minus(a, b1);
    var b0 := Back(b1, c1, 12);
    var c0 := Minus(c1, d1);
    var d0 := Back(d1, a1, 16);
    (Minus(a1, b0), b0, c0, d0)
  }

  predicate Four32(a: nat, b: nat, c: nat, d: nat) { Is32(a) && Is32(b) && Is32(c) && Is32(d) }

  /** The quarter round is a bijection. */
  lemma QuarterUndone(a: nat, b: nat, c: nat, d: nat)
    requires Four32(a, b, c, d)
    ensures var (a', b', c', d') := Quarter(a, b, c, d);
      Four32(a', b', c', d') && QuarterBack(a', b', c', d') == (a, b, c, d)
  {
    hide Plus, Minus, Turn, Back, Is32;
    var a1 := Plus(a, b);
    PlusBack(a, b);
    var d1 := Turn(d, a1, 16);
    TurnBack(d, a1, 16);
    var c1 := Plus(c, d1);
    PlusBack(c, d1);
    var b1 := Turn(b, c1, 12);
    TurnBack(b, c1, 12);
    var a2 := Plus(a1, b1);
    PlusBack(a1, b1);
    var d2 := Turn(d1, a2, 8);
    TurnBack(d1, a2, 8);
    PlusBack(c1, d2);
    TurnBack(b1, Plus(c1, d2), 7);
  }

  lemma QuarterDone(a: nat, b: nat, c: nat, d: nat)
    requires Four32(a, b, c, d)
    ensures var (a', b', c', d') := QuarterBack(a, b, c, d);
      Four32(a', b', c', d') && Quarter(a', b', c', d') == (a, b, c, d)
  {
    hide Plus, Minus, Turn, Back, Is32;
    var b1 := Back(b, c, 7);
    TurnBack(b, c, 7);
    var c1 := Minus(c, d);
    PlusBack(c, d);
    var d1 := Back(d, a, 8);
    TurnBack(d, a, 8);
    var a1 := Minus(a, b1);
    PlusBack(a, b1);
    var b0 := Back(b1, c1, 12);
    TurnBack(b1, c1, 12);
    PlusBack(c1, d1);
    TurnBack(d1, a1, 16);
    PlusBack(a1, b0);
  }

  // ----- rounds

  function Put(v: seq<nat>, a: nat, b: nat, c: nat, d: nat, w: (nat, nat, nat, nat)): (r: seq<nat>)
    requires Four(v, a, b, c, d)
    ensures |r| == 16
  {
    v[a := w.0][b := w.1][c := w.2][d := w.3]
  }

  function Mixed(v: seq<nat>, a: nat, b: nat, c: nat, d: nat): (r: seq<nat>)
    requires Four(v, a, b, c, d)
    ensures |r| == 16
  {
    Put(v, a, b, c, d, Quarter(v[a], v[b], v[c], v[d]))
  }

  function Unmixed(v: seq<nat>, a: nat, b: nat, c: nat, d: nat): (r: seq<nat>)
    requires Four(v, a, b, c, d)
    ensures |r| == 16
  {
    Put(v, a, b, c, d, QuarterBack(v[a], v[b], v[c], v[d]))
  }

  lemma MixedBack(v: seq<nat>, a: nat, b: nat, c: nat, d: nat)
    requires Four(v, a, b, c, d) && AllFit(v, 32)
    ensures AllFit(Mixed(v, a, b, c, d), 32) && Unmixed(Mixed(v, a, b, c, d), a, b, c, d) == v
    ensures AllFit(Unmixed(v, a, b, c, d), 32) && Mixed(Unmixed(v, a, b, c, d), a, b, c, d) == v
  {
    QuarterUndone(v[a], v[b], v[c], v[d]);
    QuarterDone(v[a], v[b], v[c], v[d]);
    PutBack(v, a, b, c, d, Quarter(v[a], v[b], v[c], v[d]));
    PutBack(v, a, b, c, d, QuarterBack(v[a], v[b], v[c], v[d]));
    hide Quarter, QuarterBack, Fits, Put, AllFit;
  }

  lemma PutBack(v: seq<nat>, a: nat, b: nat, c: nat, d: nat, w: (nat, nat, nat, nat))
    requires Four(v, a, b, c, d)
    ensures var r := Put(v, a, b, c, d, w);
      && (r[a], r[b], r[c], r[d]) == w && Put(r, a, b, c, d, (v[a], v[b], v[c], v[d])) == v
      && (AllFit(v, 32) && Four32(w.0, w.1, w.2, w.3) ==> AllFit(r, 32))
  {
  }

  type State = v: seq<nat> | |v| == 16 witness [0, 0, 0, 0, 0, 0, 0, 0, 0, 0, 0, 0, 0, 0, 0, 0]

  function Columns(v: State): State {
    Mixed(Mixed(Mixed(Mixed(v, 0, 4, 8, 12), 1, 5, 9, 13), 2, 6, 10, 14), 3, 7, 11, 15)
  }

  function Diagonals(v: State): State {
    Mixed(Mixed(Mixed(Mixed(v, 0, 5, 10, 15), 1, 6, 11, 12), 2, 7, 8, 13), 3, 4, 9, 14)
  }

  /** The four columns do not touch each other. */
  lemma ColumnsIs(v: State)
    ensures
      var (a0, b0, c0, d0) := Quarter(v[0], v[4], v[8], v[12]);
      var (a1, b1, c1, d1) := Quarter(v[1], v[5], v[9], v[13]);
      var (a2, b2, c2, d2) := Quarter(v[2], v[6], v[10], v[14]);
      var (a3, b3, c3, d3) := Quarter(v[3], v[7], v[11], v[15]);
      Columns(v) == [a0, a1, a2, a3, b0, b1, b2, b3, c0, c1, c2, c3, d0, d1, d2, d3]
  {
    hide Quarter;
  }

  /** Nor do the diagonals. */
  lemma DiagonalsIs(v: State)
    ensures
      var (a0, b1, c2, d3) := Quarter(v[0], v[5], v[10], v[15]);
      var (a1, b2, c3, d0) := Quarter(v[1], v[6], v[11], v[12]);
      var (a2, b3, c0, d1) := Quarter(v[2], v[7], v[8], v[13]);
      var (a3, b0, c1, d2) := Quarter(v[3], v[4], v[9], v[14]);
      Diagonals(v) == [a0, a1, a2, a3, b0, b1, b2, b3, c0, c1, c2, c3, d0, d1, d2, d3]
  {
    hide Quarter;
  }

  function ColumnsBack(v: State): State {
    Unmixed(Unmixed(Unmixed(Unmixed(v, 3, 7, 11, 15), 2, 6, 10, 14), 1, 5, 9, 13), 0, 4, 8, 12)
  }

  function DiagonalsBack(v: State): State {
    Unmixed(Unmixed(Unmixed(Unmixed(v, 3, 4, 9, 14), 2, 7, 8, 13), 1, 6, 11, 12), 0, 5, 10, 15)
  }

  lemma ColumnsUndone(v: State)
    requires AllFit(v, 32)
    ensures AllFit(Columns(v), 32) && ColumnsBack(Columns(v)) == v
    ensures AllFit(ColumnsBack(v), 32) && Columns(ColumnsBack(v)) == v
  {
    hide Mixed, Unmixed, AllFit;
    var v1 := Mixed(v, 0, 4, 8, 12);
    var v2 := Mixed(v1, 1, 5, 9, 13);
    var v3 := Mixed(v2, 2, 6, 10, 14);
    MixedBack(v, 0, 4, 8, 12);
    MixedBack(v1, 1, 5, 9, 13);
    MixedBack(v2, 2, 6, 10, 14);
    MixedBack(v3, 3, 7, 11, 15);
    var w1 := Unmixed(v, 3, 7, 11, 15);
    var w2 := Unmixed(w1, 2, 6, 10, 14);
    var w3 := Unmixed(w2, 1, 5, 9, 13);
    MixedBack(v, 3, 7, 11, 15);
    MixedBack(w1, 2, 6, 10, 14);
    MixedBack(w2, 1, 5, 9, 13);
    MixedBack(w3, 0, 4, 8, 12);
  }

  lemma DiagonalsUndone(v: State)
    requires AllFit(v, 32)
    ensures AllFit(Diagonals(v), 32) && DiagonalsBack(Diagonals(v)) == v
    ensures AllFit(DiagonalsBack(v), 32) && Diagonals(DiagonalsBack(v)) == v
  {
    hide Mixed, Unmixed, AllFit;
    var v1 := Mixed(v, 0, 5, 10, 15);
    var v2 := Mixed(v1, 1, 6, 11, 12);
    var v3 := Mixed(v2, 2, 7, 8, 13);
    MixedBack(v, 0, 5, 10, 15);
    MixedBack(v1, 1, 6, 11, 12);
    MixedBack(v2, 2, 7, 8, 13);
    MixedBack(v3, 3, 4, 9, 14);
    var w1 := Unmixed(v, 3, 4, 9, 14);
    var w2 := Unmixed(w1, 2, 7, 8, 13);
    var w3 := Unmixed(w2, 1, 6, 11, 12);
    MixedBack(v, 3, 4, 9, 14);
    MixedBack(w1, 2, 7, 8, 13);
    MixedBack(w2, 1, 6, 11, 12);
    MixedBack(w3, 0, 5, 10, 15);
  }

  function Rounds(v: State, n: nat): State
    decreases n
  {
    if n == 0 then v else Diagonals(Columns(Rounds(v, n - 1)))
  }

  function RoundsBack(v: State, n: nat): State
    decreases n
  {
    if n == 0 then v else RoundsBack(ColumnsBack(DiagonalsBack(v)), n - 1)
  }

  /** Any number of double rounds is a bijection on states. */
  lemma {:induction false} RoundsUndone(v: State, n: nat)
    requires AllFit(v, 32)
    ensures AllFit(Rounds(v, n), 32) && RoundsBack(Rounds(v, n), n) == v
    decreases n
  {
    hide Columns, Diagonals, ColumnsBack, DiagonalsBack, AllFit;
    if n > 0 {
      RoundsUndone(v, n - 1);
      ColumnsUndone(Rounds(v, n - 1));
      DiagonalsUndone(Columns(Rounds(v, n - 1)));
    }
  }

  lemma {:induction false} RoundsDone(v: State, n: nat)
    requires AllFit(v, 32)
    ensures AllFit(RoundsBack(v, n), 32) && Rounds(RoundsBack(v, n), n) == v
    decreases n
  {
    hide Columns, Diagonals, ColumnsBack, DiagonalsBack, AllFit;
    if n > 0 {
      DiagonalsUndone(v);
      ColumnsUndone(DiagonalsBack(v));
      RoundsDone(ColumnsBack(DiagonalsBack(v)), n - 1);
    }
  }

  // ----- sections 2.3 and 2.4 of RFC 7539

  datatype Key = Key(key: seq<Byte>, nonce: seq<nat>) {
    ghost predicate Ok() { |key| == 32 && |nonce| == 3 }
  }

  /** The constants, the key, the block counter and the nonce. */
  function Init(k: Key, blockCount: u32): State
    requires |k.key| == 32 && |k.nonce| == 3
  {
    [0x61707865, 0x3320646e, 0x79622d32, 0x6b206574]
    + seq(8, i requires 0 <= i < 8 => Load(k.key, i, 4)) + [blockCount] + k.nonce
  }

  function Block(v: State): State {
    hide Rounds;
    var w := Rounds(v, 10);
    seq(16, i requires 0 <= i < 16 => Plus(v[i], w[i]))
  }

  /** The counter of the block with byte `i` of the stream: it wraps around. */
  function Counter(blockCount: u32, i: nat): u32 {
    (blockCount + i / 64) % 0x1_0000_0000
  }

  function BlockBytes(k: Key, blockCount: u32): (r: seq<Byte>)
    requires |k.key| == 32 && |k.nonce| == 3
    ensures |r| == 64
  {
    AllBytes(Block(Init(k, blockCount)), 4)
  }

  /** Byte `i` of the key stream. */
  function StreamByte(k: Key, blockCount: u32, i: nat): Byte
    requires |k.key| == 32 && |k.nonce| == 3
  {
    BlockBytes(k, Counter(blockCount, i))[i % 64]
  }

  function Stream(k: Key, blockCount: u32, len: nat): (r: seq<Byte>)
    requires |k.key| == 32 && |k.nonce| == 3
    ensures |r| == len
  {
    seq(len, i requires 0 <= i < len => StreamByte(k, blockCount, i))
  }

  function Encrypted(k: Key, blockCount: u32, data: seq<Byte>): (r: seq<Byte>)
    requires |k.key| == 32 && |k.nonce| == 3
    ensures |r| == |data|
  {
    seq(|data|, i requires 0 <= i < |data| => XorByte(data[i], StreamByte(k, blockCount, i)))
  }

  /** Encryption is exclusive or with the key stream. */
  lemma EncryptedIsXor(k: Key, blockCount: u32, data: seq<Byte>, i: nat)
    requires |k.key| == 32 && |k.nonce| == 3 && i < |data|
    ensures Encrypted(k, blockCount, data)[i] == XorByte(data[i], Stream(k, blockCount, |data|)[i])
  {
  }

  /** Encrypting twice gives the data back. */
  lemma EncryptTwice(k: Key, blockCount: u32, data: seq<Byte>)
    requires |k.key| == 32 && |k.nonce| == 3
    ensures Encrypted(k, blockCount, Encrypted(k, blockCount, data)) == data
  {
    var once := Encrypted(k, blockCount, data);
    var twice := Encrypted(k, blockCount, once);
    forall i | 0 <= i < |data|
      ensures twice[i] == data[i]
    {
      XorByteTwice(data[i], StreamByte(k, blockCount, i));
    }
  }

  lemma StreamShift(k: Key, blockCount: u32, n: nat, i: nat)
    requires |k.key| == 32 && |k.nonce| == 3 && n % 64 == 0
    ensures StreamByte(k, blockCount, n + i) == StreamByte(k, Counter(blockCount, n), i)
  {
    hide BlockBytes;
    assert (n + i) / 64 == n / 64 + i / 64 && (n + i) % 64 == i % 64;
    CountTwice(blockCount + n / 64, i / 64);
  }

  lemma CountTwice(a: nat, b: nat)
    ensures (a % 0x1_0000_0000 + b) % 0x1_0000_0000 == (a + b) % 0x1_0000_0000
  {
  }

  /** Data can be encrypted in two parts, if the first is a number of whole blocks. */
  lemma EncryptInParts(k: Key, blockCount: u32, first: seq<Byte>, second: seq<Byte>)
    requires |k.key| == 32 && |k.nonce| == 3 && |first| % 64 == 0
    ensures Encrypted(k, blockCount, first + second)
         == Encrypted(k, blockCount, first) + Encrypted(k, Counter(blockCount, |first|), second)
  {
    hide StreamByte, XorByte;
    forall i | 0 <= i < |second|
      ensures StreamByte(k, blockCount, |first| + i) == StreamByte(k, Counter(blockCount, |first|), i)
    {
      StreamShift(k, blockCount, |first|, i);
    }
  }

  // ----- in place

  /** `chacha20_quarter_round`. */
  method QuarterRound(words: array<nat>, a: nat, b: nat, c: nat, d: nat)
    requires Four(words[..], a, b, c, d)
    modifies words
    ensures words[..] == Mixed(old(words[..]), a, b, c, d)
  {
    hide Plus, Turn;
    words[a] := Plus(words[a], words[b]);
    words[d] := Turn(words[d], words[a], 16);
    words[c] := Plus(words[c], words[d]);
    words[b] := Turn(words[b], words[c], 12);
    words[a] := Plus(words[a], words[b]);
    words[d] := Turn(words[d], words[a], 8);
    words[c] := Plus(words[c], words[d]);
    words[b] := Turn(words[b], words[c], 7);
  }

  /** `chacha20_double_round`. */
  method DoubleRound(words: array<nat>)
    requires words.Length == 16
    modifies words
    ensures words[..] == Diagonals(Columns(old(words[..])))
  {
    hide Mixed;
    QuarterRound(words, 0, 4, 8, 12);
    QuarterRound(words, 1, 5, 9, 13);
    QuarterRound(words, 2, 6, 10, 14);
    QuarterRound(words, 3, 7, 11, 15);
    QuarterRound(words, 0, 5, 10, 15);
    QuarterRound(words, 1, 6, 11, 12);
    QuarterRound(words, 2, 7, 8, 13);
    QuarterRound(words, 3, 4, 9, 14);
  }

  /** `chacha20_state_init`. */
  method StateInit(state: array<nat>, k: Key, blockCount: u32)
    requires state.Length == 16 && |k.key| == 32 && |k.nonce| == 3
    modifies state
    ensures state[..] == Init(k, blockCount)
  {
    state[0], state[1], state[2], state[3] := 0x61707865, 0x3320646e, 0x79622d32, 0x6b206574;
    for i := 0 to 8
      invariant state[..4] == [0x61707865, 0x3320646e, 0x79622d32, 0x6b206574]
      invariant forall j :: 0 <= j < i ==> state[4 + j] == Load(k.key, j, 4)
    {
      state[4 + i] := Load(k.key, i, 4);
    }
    state[12] := blockCount;
    state[13], state[14], state[15] := k.nonce[0], k.nonce[1], k.nonce[2];
  }

  /** `chacha20_block`. */
  method BlockInPlace(state: array<nat>)
    requires state.Length == 16
    modifies state
    ensures state[..] == Block(old(state[..]))
  {
    hide Columns, Diagonals, Plus;
    ghost var v := state[..];
    var working := new nat[16](i requires 0 <= i < 16 && state.Length == 16 reads state => state[i]);
    assert working[..] == v;
    for i := 0 to 10
      invariant working[..] == Rounds(v, i) && state[..] == v
    {
      DoubleRound(working);
    }
    for i := 0 to 16
      invariant working[..] == Rounds(v, 10)
      invariant forall j :: 0 <= j < 16 ==> state[j] == if j < i then Plus(v[j], working[j]) else v[j]
    {
      state[i] := Plus(state[i], working[i]);
    }
    assert forall j :: 0 <= j < 16 ==> state[j] == Block(v)[j];
  }

  /** The bytes of one block of the key stream, into the first words of `state`. */
  method StreamBlock(state: array<nat>, k: Key, blockCount: u32) returns (bytes: seq<Byte>)
    requires state.Length == 16 && |k.key| == 32 && |k.nonce| == 3
    modifies state
    ensures bytes == BlockBytes(k, blockCount) == AllBytes(state[..], 4)
  {
    hide Block, Init;
    StateInit(state, k, blockCount);
    BlockInPlace(state);
    bytes := AllBytes(state[..], 4);
  }

  lemma InBlock(k: Key, blockCount: u32, done: nat, i: nat)
    requires |k.key| == 32 && |k.nonce| == 3 && done % 64 == 0 && i < 64
    ensures StreamByte(k, blockCount, done + i) == BlockBytes(k, Counter(blockCount, done))[i]
  {
    hide BlockBytes;
    assert (done + i) / 64 == done / 64 && (done + i) % 64 == i;
  }

  lemma NextCounter(blockCount: u32, done: nat)
    requires done % 64 == 0
    ensures Counter(blockCount, done + 64) == (Counter(blockCount, done) + 1) % 0x1_0000_0000
  {
    assert (done + 64) / 64 == done / 64 + 1;
  }

  /** All chunks but the last have 64 bytes. */
  lemma NextChunk(done: nat, length: nat)
    requires done % 64 == 0 && done < length
    ensures var n := if length - done < 64 then length - done else 64; done + n < length ==>
      n == 64 && (done + n) % 64 == 0
  {
  }

  /** `chacha20_keystream`. */
  method KeyStream(k: Key, blockCount: u32, buf: array<Byte>)
    requires |k.key| == 32 && |k.nonce| == 3
    modifies buf
    ensures buf[..] == Stream(k, blockCount, buf.Length)
  {
    hide BlockBytes, StreamByte, Counter;
    var state := new nat[16];
    var done: nat, count: u32 := 0, blockCount;
    CounterAtStart(blockCount);
    while done < buf.Length
      invariant done <= buf.Length && (done < buf.Length ==> done % 64 == 0 && count == Counter(blockCount, done))
      invariant forall j :: 0 <= j < done ==> buf[j] == StreamByte(k, blockCount, j)
    {
      var bytes := StreamBlock(state, k, count);
      var chunkLen := if buf.Length - done < 64 then buf.Length - done else 64;
      NextCounter(blockCount, done);
      NextChunk(done, buf.Length);
      forall j | 0 <= j < chunkLen
        ensures bytes[j] == StreamByte(k, blockCount, done + j)
      {
        InBlock(k, blockCount, done, j);
      }
      forall j | done <= j < done + chunkLen {
        buf[j] := bytes[j - done];
      }
      done, count := done + chunkLen, (count + 1) % 0x1_0000_0000;
    }
  }

  lemma CounterAtStart(blockCount: u32)
    ensures Counter(blockCount, 0) == blockCount
  {
  }

  /** `chacha20_encrypt`: the data in the buffer is encrypted, or decrypted, in place. */
  method Encrypt(k: Key, blockCount: u32, buf: array<Byte>)
    requires |k.key| == 32 && |k.nonce| == 3
    modifies buf
    ensures buf[..] == Encrypted(k, blockCount, old(buf[..]))
  {
    hide BlockBytes, StreamByte, Counter, XorByte;
    ghost var data := buf[..];
    var state := new nat[16];
    var done: nat, count: u32 := 0, blockCount;
    CounterAtStart(blockCount);
    while done < buf.Length
      invariant done <= buf.Length && (done < buf.Length ==> done % 64 == 0 && count == Counter(blockCount, done))
      invariant forall j :: 0 <= j < done ==> buf[j] == XorByte(data[j], StreamByte(k, blockCount, j))
      invariant forall j :: done <= j < buf.Length ==> buf[j] == data[j]
    {
      ghost var stream := StreamBlock(state, k, count);
      var chunkLen := if buf.Length - done < 64 then buf.Length - done else 64;
      var bytes := XorWords(buf[done..done + chunkLen], state[..]);
      NextCounter(blockCount, done);
      NextChunk(done, buf.Length);
      forall j | 0 <= j < chunkLen
        ensures bytes[j] == XorByte(data[done + j], StreamByte(k, blockCount, done + j))
      {
        InBlock(k, blockCount, done, j);
      }
      forall j | done <= j < done + chunkLen {
        buf[j] := bytes[j - done];
      }
      done, count := done + chunkLen, (count + 1) % 0x1_0000_0000;
    }
  }

  /** The middle of `chacha20_encrypt`: the bytes, filled up to sixteen words, meet the words of the stream. */
  method XorWords(bytes: seq<Byte>, words: seq<nat>) returns (out: seq<Byte>)
    requires |bytes| <= 64 && |words| == 16
    ensures |out| == |bytes| && forall j :: 0 <= j < |bytes| ==> out[j] == XorByte(bytes[j], AllBytes(words, 4)[j])
  {
    var padded := bytes + seq(64 - |bytes|, i => 0);
    var chunk := new nat[16];
    for i := 0 to 16
      invariant forall j :: 0 <= j < i ==> chunk[j] == Load(padded, j, 4)
    {
      chunk[i] := Load(padded, i, 4);
    }
    for i := 0 to 16
      invariant forall j :: 0 <= j < 16 ==>
        chunk[j] == if j < i then Xor(Load(padded, j, 4), words[j]) else Load(padded, j, 4)
    {
      chunk[i] := Xor(chunk[i], words[i]);
    }
    forall j | 0 <= j < |bytes|
      ensures AllBytes(chunk[..], 4)[j] == XorByte(bytes[j], AllBytes(words, 4)[j])
    {
      XorAt(padded, words, chunk[..], j);
    }
    out := AllBytes(chunk[..], 4)[..|bytes|];
  }

  lemma XorAt(padded: seq<Byte>, words: seq<nat>, chunk: seq<nat>, j: nat)
    requires |padded| == 64 && |words| == |chunk| == 16 && j < 64
    requires forall i :: 0 <= i < 16 ==> chunk[i] == Xor(Load(padded, i, 4), words[i])
    ensures AllBytes(chunk, 4)[j] == XorByte(padded[j], AllBytes(words, 4)[j])
  {
    hide XorByte, Xor, AllBytes, FromBytes, ToBytes;
    var i, n := j / 4, j % 4;
    assert chunk[i] == Xor(FromBytes(padded[i * 4..i * 4 + 4]), words[i]);
    AllBytesAt(chunk, 4, i, n, j);
    AllBytesAt(words, 4, i, n, j);
    XorBytes(padded[i * 4..i * 4 + 4], words[i]);
  }
}
