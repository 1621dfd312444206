/** The reachable part of `memset` of `aarch64/memset.S`, instruction by instruction.

    Register variables hold integers that stand for the register modulo 2^64; a mask such as
    `& 0x30` of a negative count reads the two's complement bits, which is what the remainder
    by a power of two gives. */
module Memset {
  import opened Machines
  import opened Wrappers
  import Bits

  // ---- the replicated byte ----

  /** The little-endian bytes of a register. */
  function Bytes(x: nat, width: nat): (v: seq<Byte>)
    ensures |v| == width
  {
    if width == 0 then [] else [x % 256] + Bytes(x / 256, width - 1)
  }

  /** `width` copies of the byte one. */
  function Ones(width: nat): nat {
    if width == 0 then 0 else 1 + 256 * Ones(width - 1)
  }

  lemma {:induction false} BytesOfOnes(b: Byte, copies: nat, width: nat)
    requires width <= copies
    ensures Bytes(b * Ones(copies), width) == seq(width, _ => b)
  {
    if width > 0 {
      var rest := b * Ones(copies - 1);
      assert b * Ones(copies) == b + 256 * rest;
      assert (b + 256 * rest) % 256 == b && (b + 256 * rest) / 256 == rest;
      BytesOfOnes(b, copies - 1, width - 1);
    }
  }

  lemma SmallMod(x: nat, m: nat)
    requires x < m
    ensures x % m == x
  {}

  /** `orr w7, w7, w7, lsl #8`. */
  lemma Spread8(b: nat)
    requires b < 0x100
    ensures Bits.Or(b, b * 0x100 % 0x1_0000_0000) == b * 0x101 < 0x1_0000
  {
    SmallMod(b * 0x100, 0x1_0000_0000);
    Bits.Pow2Byte(0);
    Bits.OrShifted(b, b, 8);
  }

  /** `orr w7, w7, w7, lsl #16`. */
  lemma Spread16(b: nat)
    requires b < 0x1_0000
    ensures Bits.Or(b, b * 0x1_0000 % 0x1_0000_0000) == b * 0x1_0001 < 0x1_0000_0000
  {
    SmallMod(b * 0x1_0000, 0x1_0000_0000);
    Bits.Pow2Byte(0); Bits.Pow2Byte(8);
    Bits.OrShifted(b, b, 16);
  }

  /** `orr x7, x7, x7, lsl #32`. */
  lemma Spread32(b: nat)
    requires b < 0x1_0000_0000
    ensures Bits.Or(b, b * 0x1_0000_0000 % TWO64) == b * 0x1_0000_0001
  {
    SmallMod(b * 0x1_0000_0000, TWO64);
    Bits.Pow2Byte(0); Bits.Pow2Byte(8); Bits.Pow2Byte(16); Bits.Pow2Byte(24);
    Bits.OrShifted(b, b, 32);
  }

  lemma Replicated(b: nat)
    ensures b * 0x101 * 0x1_0001 * 0x1_0000_0001 == b * 0x0101_0101_0101_0101
  {}

  /** The three or-and-shift instructions fill the register with the low byte of `w1`. */
  method Replicate(w1: nat) returns (x7: nat)
    ensures x7 == w1 % 256 * 0x0101_0101_0101_0101
  {
    var w7 := w1 % 256;
    Spread8(w7);
    w7 := Bits.Or(w7, w7 * 0x100 % 0x1_0000_0000);
    Spread16(w7);
    w7 := Bits.Or(w7, w7 * 0x1_0000 % 0x1_0000_0000);
    Spread32(w7);
    x7 := Bits.Or(w7, w7 * 0x1_0000_0000 % TWO64);
    Replicated(w1 % 256);
  }

  /** A register full of one byte stores that byte, at every width. */
  ghost predicate Holds(x7: nat, b: Byte) {
    forall width: nat :: width <= 8 ==> Bytes(x7, width) == seq(width, _ => b)
  }

  lemma ReplicatedHolds(b: Byte)
    ensures Holds(b * 0x0101_0101_0101_0101, b)
  {
    assert Ones(8) == 0x0101_0101_0101_0101;
    forall width: nat | width <= 8 ensures Bytes(b * 0x0101_0101_0101_0101, width) == seq(width, _ => b) {
      BytesOfOnes(b, 8, width);
    }
  }

  // ---- filling ----

  /** One call: the memory and the store record it finds, and its arguments. */
  datatype Call = Call(was: seq<Byte>, stored: set<int>, loaded: set<int>, s: nat, n: nat, b: Byte) {
    predicate Valid() {
      |was| < TWO64 && s + n <= |was|
    }
  }

  /** Half-way: exactly `done` was stored, each byte of it with the fill byte; nothing was loaded. */
  ghost predicate InCall(m: Machine, c: Call, done: set<int>) reads m {
    && c.Valid() && |m.mem| == |c.was|
    && m.stored == c.stored + done && m.loaded == c.loaded
    && (forall i :: i in done ==> c.s <= i < c.s + c.n)
    && forall i {:trigger m.mem[i]} :: 0 <= i < |c.was| ==> m.mem[i] == if i in done then c.b else c.was[i]
  }

  ghost predicate Covers(done: set<int>, lo: int, hi: int) {
    forall i :: lo <= i < hi ==> i in done
  }

  ghost predicate Finished(m: Machine, c: Call) reads m {
    InCall(m, c, Range(c.s, c.s + c.n))
  }

  lemma Finish(m: Machine, c: Call, done: set<int>)
    requires InCall(m, c, done) && Covers(done, c.s, c.s + c.n)
    ensures Finished(m, c)
  {}

  /** A store of the low `width` bytes of `x7` (16 for the pair) to `[base, disp]`. */
  method St(m: Machine, base: int, disp: int, x7: nat, width: nat, ghost c: Call, ghost done: set<int>)
    returns (ghost done': set<int>)
    requires InCall(m, c, done) && (0 < width <= 8 || width == 16)
    requires Holds(x7, c.b)
    requires c.s <= base + disp && base + disp + width <= c.s + c.n
    modifies m
    ensures done' == done + Range(base + disp, base + disp + width) && InCall(m, c, done')
  {
    var v := if width == 16 then Bytes(x7, 8) + Bytes(x7, 8) else Bytes(x7, width);
    assert forall k :: 0 <= k < width ==> v[k] == c.b;
    m.Store(Wrap(base + disp), v);
    done' := done + Range(base + disp, base + disp + width);
  }

  /** Up to 15 bytes, one store per set bit of the count. */
  method Tail15Tiny(m: Machine, s: int, x2: int, x7: nat, ghost c: Call)
    requires InCall(m, c, {}) && s == c.s && c.n == x2 % 16
    requires Holds(x7, c.b)
    modifies m
    ensures Finished(m, c)
  {
    var x8 := s;
    var b3, b2, b1, b0 := x2 / 8 % 2, x2 / 4 % 2, x2 / 2 % 2, x2 % 2;
    LowBits(x2);
    ghost var done: set<int> := {};
    if b3 == 1 {
      done := St(m, x8, 0, x7, 8, c, done);
      x8 := x8 + 8;
    }
    assert x8 == s + 8 * b3 && Covers(done, s, x8);
    if b2 == 1 {
      done := St(m, x8, 0, x7, 4, c, done);
      x8 := x8 + 4;
    }
    assert x8 == s + 8 * b3 + 4 * b2 && Covers(done, s, x8);
    if b1 == 1 {
      done := St(m, x8, 0, x7, 2, c, done);
      x8 := x8 + 2;
    }
    assert x8 == s + 8 * b3 + 4 * b2 + 2 * b1 && Covers(done, s, x8);
    if b0 == 1 {
      done := St(m, x8, 0, x7, 1, c, done);
    }
    Finish(m, c, done);
  }

  /** The low four bits add up to the remainder by 16. */
  lemma LowBits(x: int)
    ensures x % 16 == 8 * (x / 8 % 2) + 4 * (x / 4 % 2) + 2 * (x / 2 % 2) + x % 2
  {
    var a, b, c := x / 2, x / 2 / 2, x / 2 / 2 / 2;
    Halves(x);
    Halves(a);
    Halves(b);
    Halves(c);
    assert x == 16 * (c / 2) + 8 * (c % 2) + 4 * (b % 2) + 2 * (a % 2) + x % 2;
    assert x / 4 == b && x / 8 == c;
  }

  lemma Halves(x: int)
    ensures x == 2 * (x / 2) + x % 2
  {}

  /** Fewer than 64 bytes left, the count read through its low six bits; the last store
      repeats bytes already set. */
  method Tail63(m: Machine, p: int, count: int, x7: nat, ghost c: Call, ghost before: set<int>)
    requires InCall(m, c, before) && Covers(before, c.s, p)
    requires c.s <= p && p + count % 64 == c.s + c.n && c.n >= 16
    requires Holds(x7, c.b)
    modifies m
    ensures Finished(m, c)
  {
    var x8, x2 := p, count;
    var x3 := x2 / 16 % 4 * 16;
    LowSix(x2);
    ghost var done := TailBlocks(m, x8, x3, x7, c, before);
    x8 := x8 + x3;
    x2 := x2 % 16;
    x8 := x8 + x2;
    done := St(m, x8, -16, x7, 16, c, done);
    Finish(m, c, done);
  }

  lemma LowSix(x: int)
    ensures x % 64 == x / 16 % 4 * 16 + x % 16
    ensures x / 16 % 4 * 16 in {0, 0x10, 0x20, 0x30}
  {}

  /** One, two or three whole 16-byte stores, entered by how many are due. */
  method TailBlocks(m: Machine, p: int, x3: int, x7: nat, ghost c: Call, ghost before: set<int>)
    returns (ghost done: set<int>)
    requires InCall(m, c, before) && Covers(before, c.s, p) && Holds(x7, c.b)
    requires x3 in {0, 0x10, 0x20, 0x30} && c.s <= p && p + x3 <= c.s + c.n
    modifies m
    ensures InCall(m, c, done) && Covers(done, c.s, p + x3)
  {
    done := before;
    if x3 != 0 {
      var x8 := p + x3;
      if x3 == 0x30 {
        done := St(m, x8, -48, x7, 16, c, done);
      }
      if x3 >= 0x20 {
        done := St(m, x8, -32, x7, 16, c, done);
      }
      done := St(m, x8, -16, x7, 16, c, done);
    }
  }

  /** At least 64 bytes: align with one overlapping store, then 64 bytes a pass. */
  method NotShort(m: Machine, s: int, n: int, x7: nat, ghost c: Call)
    requires InCall(m, c, {}) && s == c.s && 64 <= n == c.n
    requires Holds(x7, c.b)
    modifies m
    ensures Finished(m, c)
  {
    var x8, x2 := s, n;
    ghost var done: set<int> := {};
    var x4 := (-x8) % 16;
    if x4 != 0 {
      x2 := x2 - x4;
      done := St(m, x8, 0, x7, 16, c, done);
      x8 := x8 + x4;
      if x2 <= 63 {
        Tail63(m, x8, x2, x7, c, done);
        return;
      }
    }
    x8 := x8 - 16;
    x2 := x2 - 64;
    var ge := true;
    while ge
      invariant InCall(m, c, done) && Covers(done, c.s, x8 + 16) && c.s <= x8 + 16
      invariant x8 + 16 + x2 + 64 == c.s + c.n && x2 >= -64
      invariant ge <==> x2 >= 0
      decreases x2 + 64
    {
      done := StoreLine(m, x8, x7, c, done);
      x8 := x8 + 64;
      x2 := x2 - 64;
      ge := x2 >= 0;
    }
    x8 := x8 + 16;
    if x2 % 64 != 0 {
      Tail63(m, x8, x2, x7, c, done);
    } else {
      Finish(m, c, done);
    }
  }

  /** The four stores of one pass. */
  method StoreLine(m: Machine, x8: int, x7: nat, ghost c: Call, ghost done: set<int>) returns (ghost done': set<int>)
    requires InCall(m, c, done) && Covers(done, c.s, x8 + 16) && c.s <= x8 + 16 && x8 + 80 <= c.s + c.n
    requires Holds(x7, c.b)
    modifies m
    ensures InCall(m, c, done') && Covers(done', c.s, x8 + 80)
  {
    done' := St(m, x8, 16, x7, 16, c, done);
    done' := St(m, x8, 32, x7, 16, c, done');
    done' := St(m, x8, 48, x7, 16, c, done');
    done' := St(m, x8, 64, x7, 16, c, done');
  }

  /** The count as the signed comparisons see it. */
  function Signed(x: nat): int
    requires x < TWO64
  {
    if x < TWO64 / 2 then x else x - TWO64
  }

  /** How many bytes a call sets. */
  function Extent(n: nat): nat
    requires n < TWO64
  {
    if Signed(n) >= 0 then n else n % 16
  }

  /** The signed comparisons make `memset` do what it promises exactly for counts below 2^63;
      a larger count sets its low four bits' worth of bytes, so 2^63 itself sets none. */
  lemma ExtentIsCount(n: nat)
    requires n < TWO64
    ensures Extent(n) == n <==> n < TWO64 / 2
    ensures Extent(n) <= n
    ensures Extent(TWO64 / 2) == 0
  {}

  /** `memset`. */
  method Fill(m: Machine, x0: nat, w1: nat, x2: nat) returns (r: nat)
    requires |m.mem| < TWO64 && x0 + x2 <= |m.mem|
    modifies m
    ensures r == x0
    ensures |m.mem| == old(|m.mem|)
    ensures forall i :: 0 <= i < |m.mem| ==>
      m.mem[i] == if x0 <= i < x0 + Extent(x2) then w1 % 256 else old(m.mem)[i]
    ensures m.stored == old(m.stored) + Range(x0, x0 + Extent(x2)) && m.loaded == old(m.loaded)
  {
    var x8 := x0;
    var x7 := Replicate(w1);
    ReplicatedHolds(w1 % 256);
    ghost var c := Call(m.mem, m.stored, m.loaded, x0, Extent(x2), w1 % 256);
    assert InCall(m, c, {});
    if Signed(x2) >= 64 {
      NotShort(m, x8, x2, x7, c);
    } else if Signed(x2) <= 15 {
      Tail15Tiny(m, x8, x2, x7, c);
    } else {
      Tail63(m, x8, x2, x7, c, {});
    }
    r := x0;
  }
}
