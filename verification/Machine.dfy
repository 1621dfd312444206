/** Byte-addressed memory behind load and store instructions, with 64-bit address
    arithmetic and a ghost record of every address touched. */
module Machines {
  import opened Wrappers

  type Byte = b: nat | b < 256

  /** A register holds its value modulo 2^64. */
  function Wrap(x: int): (w: int)
    ensures 0 <= w < TWO64
    ensures 0 <= x < TWO64 ==> w == x
  {
    x % TWO64
  }

  predicate Between(lo: int, i: int, hi: int) { lo <= i < hi }

  /** The addresses from `lo` up to, not including, `hi`. */
  ghost function Range(lo: int, hi: int): set<int> {
    set i | lo <= i < hi && Between(lo, i, hi)
  }

  /** `now` is `was` with the bytes `v` written at `a`. */
  ghost predicate Patched(was: seq<Byte>, now: seq<Byte>, a: int, v: seq<Byte>) {
    && |now| == |was| && 0 <= a && a + |v| <= |was|
    && forall i {:trigger now[i]} :: 0 <= i < |was| ==> now[i] == if a <= i < a + |v| then v[i - a] else was[i]
  }

  /** The machine: one flat memory, whose first byte has address zero. */
  class Machine {
    var mem: seq<Byte>
    ghost var loaded: set<int>
    ghost var stored: set<int>

    method Load(a: int, width: nat) returns (v: seq<Byte>)
      requires 0 <= a && a + width <= |mem|
      modifies this`loaded
      ensures v == mem[a..a + width]
      ensures loaded == old(loaded) + Range(a, a + width)
    {
      loaded := loaded + Range(a, a + width);
      v := mem[a..a + width];
    }

    method Store(a: int, v: seq<Byte>)
      requires 0 <= a && a + |v| <= |mem|
      modifies this`mem, this`stored
      ensures Patched(old(mem), mem, a, v)
      ensures stored == old(stored) + Range(a, a + |v|)
    {
      stored := stored + Range(a, a + |v|);
      mem := mem[..a] + v + mem[a + |v|..];
    }
  }
}
