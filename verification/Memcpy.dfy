/** `memcpy` of `aarch64/memcpy.S`, instruction by instruction.

    A register variable holds an integer that stands for the register modulo 2^64: only the
    biased source pointer of the long copy and the count after its last subtraction can leave
    `[0, 2^64)`, and every address is brought back by `Wrap` when it is used. */
module Memcpy {
  import opened LongCopies
  import opened Machines
  import opened Wrappers

  ghost predicate Starts(m: Machine, c: Call) reads m {
    c.Valid() && m.mem == c.was && m.loaded == c.loaded && m.stored == c.stored
  }

  /** Memory half-way through a copy: the addresses in `done` hold their source byte as it was
      at the start, all others are as they were. */
  ghost predicate Copying(c: Call, now: seq<Byte>, done: set<int>)
    requires c.Valid()
  {
    && |now| == |c.was|
    && (forall i :: i in done ==> c.dst <= i < c.dst + c.n)
    && forall i {:trigger now[i]} :: 0 <= i < |c.was| ==>
         now[i] == if i in done then c.was[c.src + (i - c.dst)] else c.was[i]
  }

  /** The same for the machine: so far exactly `done` was stored, and nothing but source bytes loaded. */
  ghost predicate InCall(m: Machine, c: Call, done: set<int>) reads m {
    && c.Valid() && Copying(c, m.mem, done)
    && m.stored == c.stored + done
    && m.loaded <= c.loaded + Range(c.src, c.src + c.n)
  }

  /** The finished call: exactly the destination was stored, and it holds the original source bytes. */
  ghost predicate Finished(m: Machine, c: Call) reads m {
    InCall(m, c, Range(c.dst, c.dst + c.n))
  }

  predicate Untouched(done: set<int>, lo: int, hi: int) {
    forall i :: i in done ==> !(lo <= i < hi)
  }

  /** Source bytes that no store has reached are still the original ones. */
  lemma StillOriginal(c: Call, now: seq<Byte>, done: set<int>, off: int, width: nat)
    requires c.Valid() && Copying(c, now, done) && 0 <= off && off + width <= c.n
    requires Untouched(done, c.src + off, c.src + off + width)
    ensures now[c.src + off..c.src + off + width] == Piece(c, off, width)
  {}

  /** Storing the right bytes extends the part that is done. */
  lemma Extends(c: Call, mid: seq<Byte>, now: seq<Byte>, done: set<int>, off: int, v: seq<Byte>)
    requires c.Valid() && Copying(c, mid, done) && Patched(mid, now, c.dst + off, v)
    requires 0 <= off && off + |v| <= c.n && v == Piece(c, off, |v|)
    ensures Copying(c, now, done + Range(c.dst + off, c.dst + off + |v|))
  {}

  /** A load from `[base, disp]`, which is offset `off` of the source. */
  method Ld(m: Machine, base: int, disp: int, width: nat, ghost off: int, ghost c: Call, ghost done: set<int>)
    returns (v: seq<Byte>)
    requires InCall(m, c, done)
    requires base + disp == c.src + off && 0 <= off && off + width <= c.n && width > 0
    requires Untouched(done, c.src + off, c.src + off + width)
    modifies m`loaded
    ensures InCall(m, c, done) && v == Piece(c, off, width)
  {
    StillOriginal(c, m.mem, done, off, width);
    v := m.Load(Wrap(base + disp), width);
  }

  /** A store to `[base, disp]`, which is offset `off` of the destination. */
  method St(m: Machine, base: int, disp: int, v: seq<Byte>, ghost off: int, ghost c: Call, ghost done: set<int>)
    returns (ghost done': set<int>)
    requires InCall(m, c, done)
    requires base + disp == c.dst + off && 0 <= off && off + |v| <= c.n
    requires |v| > 0 && v == Piece(c, off, |v|)
    modifies m`stored, m`mem
    ensures InCall(m, c, done') && done' == done + Range(c.dst + off, c.dst + off + |v|)
  {
    ghost var mid := m.mem;
    m.Store(Wrap(base + disp), v);
    Extends(c, mid, m.mem, done, off, v);
    done' := done + Range(c.dst + off, c.dst + off + |v|);
  }

  /** Once every destination byte is done the call is. */
  lemma Finish(m: Machine, c: Call, done: set<int>)
    requires InCall(m, c, done)
    requires forall i :: c.dst <= i < c.dst + c.n ==> i in done
    ensures Finished(m, c)
  {}

  /** 8 to 32 bytes: a head and a tail of one width, which overlap in the middle. */
  method CopyTwoEnds(m: Machine, x0: int, x1: int, x4: int, x5: int, width: int, ghost c: Call)
    requires Starts(m, c) && x0 == c.dst && x1 == c.src && x4 == x1 + c.n && x5 == x0 + c.n
    requires 0 < width <= c.n <= 2 * width
    modifies m
    ensures Finished(m, c)
  {
    ghost var done: set<int> := {};
    assert InCall(m, c, done);
    var head := Ld(m, x1, 0, width, 0, c, done);
    var tail := Ld(m, x4, -width, width, c.n - width, c, done);
    done := St(m, x0, 0, head, 0, c, done);
    done := St(m, x5, -width, tail, c.n - width, c, done);
    Finish(m, c, done);
  }

  /** Up to 3 bytes, without a branch on which: first, middle and last. */
  method CopyTiny(m: Machine, x0: int, x1: int, x2: int, x4: int, x5: int, ghost c: Call)
    requires Starts(m, c) && x0 == c.dst && x1 == c.src && 0 < x2 == c.n <= 3
    requires x4 == x1 + x2 && x5 == x0 + x2
    modifies m
    ensures Finished(m, c)
  {
    ghost var done: set<int> := {};
    assert InCall(m, c, done);
    var x14 := x2 / 2;
    assert x14 == if x2 == 1 then 0 else 1;
    var w6 := Ld(m, x1, 0, 1, 0, c, done);
    var w10 := Ld(m, x4, -1, 1, x2 - 1, c, done);
    var w8 := Ld(m, x1, x14, 1, x14, c, done);
    done := St(m, x0, 0, w6, 0, c, done);
    done := St(m, x0, x14, w8, x14, c, done);
    done := St(m, x5, -1, w10, x2 - 1, c, done);
    Finish(m, c, done);
  }

  /** Up to 32 bytes. */
  method CopySmall(m: Machine, x0: int, x1: int, x2: int, x4: int, x5: int, ghost c: Call)
    requires Starts(m, c) && x0 == c.dst && x1 == c.src && x2 == c.n <= 32
    requires x4 == x1 + x2 && x5 == x0 + x2
    modifies m
    ensures Finished(m, c)
  {
    if x2 >= 16 {
      CopyTwoEnds(m, x0, x1, x4, x5, 16, c);
    } else if x2 / 8 % 2 == 1 {
      CopyTwoEnds(m, x0, x1, x4, x5, 8, c);
    } else if x2 / 4 % 2 == 1 {
      CopyTwoEnds(m, x0, x1, x4, x5, 4, c);
    } else if x2 != 0 {
      CopyTiny(m, x0, x1, x2, x4, x5, c);
    } else {
      assert InCall(m, c, {});
      Finish(m, c, {});
    }
  }

  /** 33 to 64 bytes. */
  method Copy64(m: Machine, x0: int, x1: int, x2: int, x4: int, x5: int, ghost c: Call)
    requires Starts(m, c) && x0 == c.dst && x1 == c.src && 32 < x2 == c.n <= 64
    requires x4 == x1 + x2 && x5 == x0 + x2
    modifies m
    ensures Finished(m, c)
  {
    ghost var done: set<int> := {};
    assert InCall(m, c, done);
    var x6_7 := Ld(m, x1, 0, 16, 0, c, done);
    var x8_9 := Ld(m, x1, 16, 16, 16, c, done);
    var x10_11 := Ld(m, x4, -32, 16, x2 - 32, c, done);
    var x12_13 := Ld(m, x4, -16, 16, x2 - 16, c, done);
    done := St(m, x0, 0, x6_7, 0, c, done);
    done := St(m, x0, 16, x8_9, 16, c, done);
    done := St(m, x5, -32, x10_11, x2 - 32, c, done);
    done := St(m, x5, -16, x12_13, x2 - 16, c, done);
    Finish(m, c, done);
  }

  /** 65 to 128 bytes. */
  method Copy128(m: Machine, x0: int, x1: int, x2: int, x4: int, x5: int, ghost c: Call)
    requires Starts(m, c) && x0 == c.dst && x1 == c.src && 64 < x2 == c.n <= 128
    requires x4 == x1 + x2 && x5 == x0 + x2
    modifies m
    ensures Finished(m, c)
  {
    ghost var done: set<int> := {};
    assert InCall(m, c, done);
    var x6_7 := Ld(m, x1, 0, 16, 0, c, done);
    var x8_9 := Ld(m, x1, 16, 16, 16, c, done);
    var x10_11 := Ld(m, x4, -32, 16, x2 - 32, c, done);
    var x12_13 := Ld(m, x4, -16, 16, x2 - 16, c, done);
    var x14_15 := Ld(m, x1, 32, 16, 32, c, done);
    var x16_17 := Ld(m, x1, 48, 16, 48, c, done);
    if x2 > 96 {
      var x2_3 := Ld(m, x4, -64, 16, x2 - 64, c, done);
      var x1_4 := Ld(m, x4, -48, 16, x2 - 48, c, done);
      done := St(m, x5, -64, x2_3, x2 - 64, c, done);
      done := St(m, x5, -48, x1_4, x2 - 48, c, done);
    }
    Copy96(m, x0, x5, x6_7, x8_9, x10_11, x12_13, x14_15, x16_17, c, done);
  }

  /** The shared end of the 65 to 128 byte copies: the first 64 and the last 32 bytes. */
  method Copy96(m: Machine, x0: int, x5: int, x6_7: seq<Byte>, x8_9: seq<Byte>, x10_11: seq<Byte>,
                x12_13: seq<Byte>, x14_15: seq<Byte>, x16_17: seq<Byte>, ghost c: Call, ghost tails: set<int>)
    requires InCall(m, c, tails) && x0 == c.dst && x5 == x0 + c.n && 64 < c.n <= 128
    requires x6_7 == Piece(c, 0, 16) && x8_9 == Piece(c, 16, 16)
    requires x14_15 == Piece(c, 32, 16) && x16_17 == Piece(c, 48, 16)
    requires x10_11 == Piece(c, c.n - 32, 16) && x12_13 == Piece(c, c.n - 16, 16)
    requires c.n > 96 ==> forall i :: x5 - 64 <= i < x5 - 32 ==> i in tails
    modifies m
    ensures Finished(m, c)
  {
    ghost var done := St(m, x0, 0, x6_7, 0, c, tails);
    done := St(m, x0, 16, x8_9, 16, c, done);
    done := St(m, x0, 32, x14_15, 32, c, done);
    done := St(m, x0, 48, x16_17, 48, c, done);
    done := St(m, x5, -32, x10_11, c.n - 32, c, done);
    done := St(m, x5, -16, x12_13, c.n - 16, c, done);
    Finish(m, c, done);
  }

  // ---- more than 128 bytes ----

  /** Half-way through a long copy, whatever it computes: exactly the first `h` destination bytes
      were stored, nothing but source bytes loaded, and memory outside the destination is as it was. */
  ghost predicate InLongCall(m: Machine, c: Call, h: int) reads m {
    && c.Valid() && |m.mem| == |c.was| && 0 <= h <= c.n
    && m.stored == c.stored + Range(c.dst, c.dst + h)
    && m.loaded <= c.loaded + Range(c.src, c.src + c.n)
    && forall i {:trigger m.mem[i]} :: 0 <= i < |c.was| && !(c.dst <= i < c.dst + c.n) ==> m.mem[i] == c.was[i]
  }

  /** A load from `[base, disp]`, which is offset `x` of the source. */
  method LdPair(m: Machine, base: int, disp: int, ghost x: int, ghost c: Call, ghost h: int)
    returns (v: seq<Byte>)
    requires InLongCall(m, c, h)
    requires base + disp == c.src + x && 0 <= x && x + 16 <= c.n
    modifies m`loaded
    ensures InLongCall(m, c, h) && v == Get(c, m.mem, x)
  {
    v := m.Load(Wrap(base + disp), 16);
  }

  /** A store to `[base, disp]`, which is offset `x` of the destination. */
  method StPair(m: Machine, base: int, disp: int, v: seq<Byte>, ghost x: int,
                ghost c: Call, ghost h: int, ghost h': int)
    requires InLongCall(m, c, h) && |v| == 16
    requires base + disp == c.dst + x && 0 <= x <= h && x + 16 <= c.n && h' == Max(h, x + 16)
    modifies m`stored, m`mem
    ensures InLongCall(m, c, h')
    ensures m.mem == Put(c, old(m.mem), x, v)
  {
    WritePatches(m.mem, c.dst + x, v);
    m.Store(Wrap(base + disp), v);
    assert Range(c.dst, c.dst + h) + Range(c.dst + x, c.dst + x + 16) == Range(c.dst, c.dst + h');
  }

  /** A store to offset `x` of the destination, then a load from offset `y` of the source. */
  method StLdPair(m: Machine, to: int, disp: int, v: seq<Byte>, from: int, disp': int,
                  ghost x: int, ghost y: int, ghost c: Call, ghost h: int, ghost h': int)
    returns (w: seq<Byte>)
    requires InLongCall(m, c, h) && |v| == 16
    requires to + disp == c.dst + x && 0 <= x <= h && x + 16 <= c.n && h' == Max(h, x + 16)
    requires from + disp' == c.src + y && 0 <= y && y + 16 <= c.n
    modifies m
    ensures InLongCall(m, c, h')
    ensures m.mem == Put(c, old(m.mem), x, v) && w == Get(c, m.mem, y)
  {
    StPair(m, to, disp, v, x, c, h, h');
    w := LdPair(m, from, disp', y, c, h');
  }

  /** One pass of the pipelined loop: each pair in flight is stored and refilled 64 bytes on. */
  method Loop64(m: Machine, x1: int, x3: int, p: seq<Byte>, q: seq<Byte>, r: seq<Byte>, s: seq<Byte>,
                ghost off: int, ghost c: Call)
    returns (x6_7: seq<Byte>, x8_9: seq<Byte>, x10_11: seq<Byte>, x12_13: seq<Byte>)
    requires 0 < off && InLongCall(m, c, Max(off, 16)) && Flight(m.mem, p, q, r, s).Fits(c) && off + 128 <= c.n
    requires x3 + 16 == c.dst + off && x1 + 16 == c.src + off + 64
    modifies m
    ensures InLongCall(m, c, off + 64)
    ensures Flight(m.mem, x6_7, x8_9, x10_11, x12_13) == Pass(c, Flight(old(m.mem), p, q, r, s), off)
  {
    ghost var g := Stores(c, Flight(m.mem, p, q, r, s), off);
    ghost var f' := Pass(c, Flight(m.mem, p, q, r, s), off);
    x6_7 := StLdPair(m, x3, 16, p, x1, 16, off, off + 64, c, Max(off, 16), off + 16);
    assert m.mem == g.0;
    assert x6_7 == f'.p;
    x8_9 := StLdPair(m, x3, 32, q, x1, 32, off + 16, off + 80, c, off + 16, off + 32);
    assert m.mem == g.1;
    assert x8_9 == f'.q;
    x10_11 := StLdPair(m, x3, 48, r, x1, 48, off + 32, off + 96, c, off + 32, off + 48);
    assert m.mem == g.2;
    assert x10_11 == f'.r;
    x12_13 := StLdPair(m, x3, 64, s, x1, 64, off + 48, off + 112, c, off + 48, off + 64);
    assert m.mem == f'.mem && x12_13 == f'.s;
  }

  /** The first half of the next: two pairs are stored, three loaded. */
  method LoadEndFirst(m: Machine, x3: int, x4: int, p: seq<Byte>, q: seq<Byte>,
                      ghost off: int, ghost end: int, ghost c: Call)
    returns (x14_15: seq<Byte>, x6_7: seq<Byte>, x8_9: seq<Byte>)
    requires 0 < off && InLongCall(m, c, Max(off, 16)) && |p| == 16 && |q| == 16 && off + 64 <= c.n
    requires x3 + 16 == c.dst + off && x4 == c.src + end + 64 && end == c.n - 64
    modifies m
    ensures InLongCall(m, c, off + 32)
    ensures var m1 := Put(c, old(m.mem), off, p);
      && m.mem == Put(c, m1, off + 16, q) && x14_15 == Get(c, old(m.mem), end)
      && x6_7 == Get(c, m1, end + 16) && x8_9 == Get(c, m.mem, end + 32)
  {
    x14_15 := LdPair(m, x4, -64, end, c, Max(off, 16));
    x6_7 := StLdPair(m, x3, 16, p, x4, -48, off, end + 16, c, Max(off, 16), off + 16);
    x8_9 := StLdPair(m, x3, 32, q, x4, -32, off + 16, end + 32, c, off + 16, off + 32);
  }

  /** What is in flight is stored while the last 64 bytes are loaded. */
  method LoadEnd(m: Machine, x3: int, x4: int, p: seq<Byte>, q: seq<Byte>, r: seq<Byte>, s: seq<Byte>,
                 ghost off: int, ghost end: int, ghost c: Call)
    returns (x14_15: seq<Byte>, x6_7: seq<Byte>, x8_9: seq<Byte>, x10_11: seq<Byte>)
    requires 0 < off && InLongCall(m, c, Max(off, 16)) && Flight(m.mem, p, q, r, s).Fits(c) && off + 64 <= c.n
    requires x3 + 16 == c.dst + off && x4 == c.src + end + 64 && end == c.n - 64
    modifies m
    ensures InLongCall(m, c, off + 64)
    ensures var g := Stores(c, Flight(old(m.mem), p, q, r, s), off);
      && m.mem == g.3 && x14_15 == Get(c, old(m.mem), end) && x6_7 == Get(c, g.0, end + 16)
      && x8_9 == Get(c, g.1, end + 32) && x10_11 == Get(c, g.2, end + 48)
  {
    ghost var g := Stores(c, Flight(m.mem, p, q, r, s), off);
    x14_15, x6_7, x8_9 := LoadEndFirst(m, x3, x4, p, q, off, end, c);
    assert m.mem == g.1;
    x10_11 := StLdPair(m, x3, 48, r, x4, -16, off + 32, end + 48, c, off + 32, off + 48);
    assert m.mem == g.2;
    StPair(m, x3, 64, s, off + 48, c, off + 48, off + 64);
    assert m.mem == g.3;
  }

  method StoreEnd(m: Machine, x5: int, x14_15: seq<Byte>, x6_7: seq<Byte>, x8_9: seq<Byte>, x10_11: seq<Byte>,
                  ghost h: int, ghost c: Call, ghost t: Flight)
    requires InLongCall(m, c, h) && t == Flight(m.mem, x14_15, x6_7, x8_9, x10_11) && t.Fits(c)
    requires 64 <= c.n <= h + 64 && x5 == c.dst + c.n
    modifies m
    ensures InLongCall(m, c, c.n)
    ensures m.mem == Stores(c, t, c.n - 64).3
  {
    StPair(m, x5, -64, x14_15, c.n - 64, c, h, Max(h, c.n - 48));
    StPair(m, x5, -48, x6_7, c.n - 48, c, Max(h, c.n - 48), Max(h, c.n - 32));
    StPair(m, x5, -32, x8_9, c.n - 32, c, Max(h, c.n - 32), Max(h, c.n - 16));
    StPair(m, x5, -16, x10_11, c.n - 16, c, Max(h, c.n - 16), c.n);
  }

  /** What is in flight, and the last 64 bytes again from the end. */
  method Copy64FromEnd(m: Machine, x3: int, x4: int, x5: int,
                       p: seq<Byte>, q: seq<Byte>, r: seq<Byte>, s: seq<Byte>,
                       ghost off: int, ghost c: Call, ghost f: Flight)
    requires 0 < off && InLongCall(m, c, Max(off, 16)) && f == Flight(m.mem, p, q, r, s) && f.Fits(c)
    requires off + 64 <= c.n <= off + 128
    requires x3 + 16 == c.dst + off && x4 == c.src + c.n && x5 == c.dst + c.n
    modifies m
    ensures InLongCall(m, c, c.n)
    ensures m.mem == FromEnd(c, f, off)
  {
    ghost var t := Tail(c, f, off);
    assert FromEnd(c, f, off) == Stores(c, t, c.n - 64).3;
    var x14_15, x6_7, x8_9, x10_11 := LoadEnd(m, x3, x4, p, q, r, s, off, c.n - 64, c);
    StoreEnd(m, x5, x14_15, x6_7, x8_9, x10_11, off + 64, c, t);
  }

  /** Before the loop: the first 16 bytes are copied and 64 more loaded, through the source pointer
      biased so that the destination is aligned. */
  method LongHead(m: Machine, x0: int, src: int, x1: int, ghost c: Call)
    returns (x6_7: seq<Byte>, x8_9: seq<Byte>, x10_11: seq<Byte>, x12_13: seq<Byte>)
    requires Starts(m, c) && x0 == c.dst && src == c.src && x1 == src - x0 % 16 && c.n > 128
    modifies m
    ensures InLongCall(m, c, 16) && Flight(m.mem, x6_7, x8_9, x10_11, x12_13) == Launch(c)
  {
    ghost var off := Start(x0);
    x12_13 := LdPair(m, src, 0, 0, c, 0);
    x6_7 := LdPair(m, x1, 16, off, c, 0);
    StPair(m, x0, 0, x12_13, 0, c, 0, 16);
    assert m.mem == Launch(c).mem;
    x8_9 := LdPair(m, x1, 32, off + 16, c, 16);
    x10_11 := LdPair(m, x1, 48, off + 32, c, 16);
    x12_13 := LdPair(m, x1, 64, off + 48, c, 16);
  }

  method CopyLong(m: Machine, x0: int, src: int, n: int, x4: int, x5: int, ghost c: Call)
    requires Starts(m, c) && x0 == c.dst && src == c.src && 128 < n == c.n
    requires x4 == src + n && x5 == x0 + n
    modifies m
    ensures InLongCall(m, c, c.n) && m.mem == LongCopy(c)
  {
    var x14 := x0 % 16;
    var x3 := x0 - x14;
    var x1 := src - x14;
    var x2 := n + x14;
    var x6_7, x8_9, x10_11, x12_13 := LongHead(m, x0, src, x1, c);
    ghost var off := 16 - x14;
    x1 := x1 + 64;
    var hi := x2 > 128 + 16;
    x2 := x2 - (128 + 16);
    ghost var f := Flight(m.mem, x6_7, x8_9, x10_11, x12_13);
    while hi
      invariant 0 < off && InLongCall(m, c, Max(off, 16)) && off + 64 <= n
      invariant x3 + 16 == c.dst + off && x1 + 16 == c.src + off + 64 && x2 == n - off - 128
      invariant hi <==> x2 > 0
      invariant f == Flight(m.mem, x6_7, x8_9, x10_11, x12_13) && f.Fits(c)
      invariant Passes(c, f, off) == Passes(c, Launch(c), Start(c.dst)) && Last(off, n) == Last(Start(c.dst), n)
      decreases x2
    {
      x6_7, x8_9, x10_11, x12_13 := Loop64(m, x1, x3, x6_7, x8_9, x10_11, x12_13, off, c);
      f := Flight(m.mem, x6_7, x8_9, x10_11, x12_13);
      x3, x1 := x3 + 64, x1 + 64;
      hi := x2 > 64;
      x2 := x2 - 64;
      off := off + 64;
    }
    Copy64FromEnd(m, x3, x4, x5, x6_7, x8_9, x10_11, x12_13, off, c, f);
  }

  /** What the call leaves in memory. Up to 128 bytes are copied whatever the overlap of the two
      buffers; more are when `Tolerates` holds, and otherwise one byte is known that is not. Memory
      outside the destination is as it was. */
  ghost predicate Outcome(c: Call, mem: seq<Byte>)
    requires c.Valid()
  {
    && |mem| == |c.was| && mem[..c.dst] == c.was[..c.dst] && mem[c.dst + c.n..] == c.was[c.dst + c.n..]
    && (c.n <= 128 || Tolerates(c.dst, c.src, c.n) ==> mem[c.dst..c.dst + c.n] == c.was[c.src..c.src + c.n])
    && (!(c.n <= 128 || Tolerates(c.dst, c.src, c.n)) ==> SlipsAt(c, mem, Slip(c.dst, c.src, c.n)))
  }

  /** Exactly the destination was stored, and nothing but the source loaded. */
  ghost predicate Accessed(m: Machine, c: Call) reads m {
    m.stored == c.stored + Range(c.dst, c.dst + c.n) && m.loaded <= c.loaded + Range(c.src, c.src + c.n)
  }

  lemma LongOutcome(c: Call, mem: seq<Byte>)
    requires c.Valid() && c.n > 128 && |mem| == |c.was|
    requires forall i {:trigger mem[i]} :: 0 <= i < |c.was| && !(c.dst <= i < c.dst + c.n) ==> mem[i] == c.was[i]
    requires Tolerates(c.dst, c.src, c.n) ==> CopiedUpTo(c, mem, c.n)
    requires !Tolerates(c.dst, c.src, c.n) ==> SlipsAt(c, mem, Slip(c.dst, c.src, c.n))
    ensures Outcome(c, mem)
  {}

  method LongPath(m: Machine, x0: int, x1: int, x2: int, x4: int, x5: int, ghost c: Call)
    requires Starts(m, c) && x0 == c.dst && x1 == c.src && 128 < x2 == c.n
    requires x4 == x1 + x2 && x5 == x0 + x2
    modifies m
    ensures Accessed(m, c) && Outcome(c, m.mem)
  {
    CopyLong(m, x0, x1, x2, x4, x5, c);
    LongCopyExact(c, m.mem);
    LongOutcome(c, m.mem);
  }

  lemma ShortOutcome(m: Machine, c: Call)
    requires Finished(m, c) && c.n <= 128
    ensures Accessed(m, c) && Outcome(c, m.mem)
  {}

  method ShortPath(m: Machine, x0: int, x1: int, x2: int, x4: int, x5: int, ghost c: Call)
    requires Starts(m, c) && x0 == c.dst && x1 == c.src && x2 == c.n <= 128
    requires x4 == x1 + x2 && x5 == x0 + x2
    modifies m
    ensures Accessed(m, c) && Outcome(c, m.mem)
  {
    if x2 > 64 {
      Copy128(m, x0, x1, x2, x4, x5, c);
    } else if x2 > 32 {
      Copy64(m, x0, x1, x2, x4, x5, c);
    } else {
      CopySmall(m, x0, x1, x2, x4, x5, c);
    }
    ShortOutcome(m, c);
  }

  /** `memcpy`. Returns the destination, stores exactly the destination and loads only the source. */
  method Copy(m: Machine, x0: nat, x1: nat, x2: nat) returns (r: nat)
    requires |m.mem| < TWO64 && x0 + x2 <= |m.mem| && x1 + x2 <= |m.mem|
    modifies m
    ensures r == x0
    ensures |m.mem| == old(|m.mem|)
    ensures x2 <= 128 || Tolerates(x0, x1, x2) ==> m.mem[x0..x0 + x2] == old(m.mem[x1..x1 + x2])
    ensures !(x2 <= 128 || Tolerates(x0, x1, x2)) ==>
      var o := Slip(x0, x1, x2);
      m.mem[x0 + o] == old(m.mem)[x1 + o - (x0 - x1)]
    ensures m.mem[..x0] == old(m.mem[..x0]) && m.mem[x0 + x2..] == old(m.mem[x0 + x2..])
    ensures m.stored == old(m.stored) + Range(x0, x0 + x2)
    ensures m.loaded <= old(m.loaded) + Range(x1, x1 + x2)
  {
    ghost var c := Call(m.mem, m.loaded, m.stored, x0, x1, x2);
    var x4, x5 := x1 + x2, x0 + x2;
    if x2 > 128 {
      LongPath(m, x0, x1, x2, x4, x5, c);
    } else {
      ShortPath(m, x0, x1, x2, x4, x5, c);
    }
    r := x0;
  }
}
