/** Physical memory as `include/physical.h` reads and writes it: frames of 512 words of 64 bits. */
module PhysicalMemory {
  import opened Integers

  type Frame = x: int | 0 <= x < 0x1000_0000_0000
  type Memory = map<Frame, seq<u64>>

  const PAGE_SIZE := 4096

  /** The frames are whole ones. */
  ghost predicate MemoryOk(m: Memory) {
    forall f :: f in m ==> |m[f]| == 512
  }

  /** The two memories have the same frames, and those outside `fs` hold the same. */
  ghost predicate SameOutside(m: Memory, m': Memory, fs: set<Frame>) {
    m'.Keys == m.Keys && forall f :: f in m && f !in fs ==> m'[f] == m[f]
  }

  function Stored(m: Memory, f: Frame, index: nat, w: u64): Memory
    requires f in m && index < |m[f]|
  {
    var words: seq<u64> := m[f][index := w];
    m[f := words]
  }

  /** The memory itself; words are addressed by their frame and their index in it. */
  class Ram {
    var frames: Memory

    /** `copy_from_physical` of one word. */
    method Read(f: Frame, index: nat) returns (w: u64)
      requires MemoryOk(frames) && f in frames && index < 512
      ensures w == frames[f][index]
    {
      w := frames[f][index];
    }

    /** `copy_to_physical` of one word. */
    method Write(f: Frame, index: nat, w: u64)
      requires MemoryOk(frames) && f in frames && index < 512
      modifies this
      ensures MemoryOk(frames) && frames == Stored(old(frames), f, index, w)
    {
      frames := Stored(frames, f, index, w);
    }

    /** `bzero_physical` of a whole frame. */
    method Zero(f: Frame)
      requires MemoryOk(frames) && f in frames
      modifies this
      ensures MemoryOk(frames) && SameOutside(old(frames), frames, {f})
      ensures forall i :: 0 <= i < 512 ==> frames[f][i] == 0
    {
      frames := frames[f := seq(512, i => 0)];
    }
  }
}
