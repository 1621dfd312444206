/** The long path of `aarch64/memcpy.S`, for more than 128 bytes, as a function of memory: what
    it computes for every overlap of the two buffers, and for which overlaps that is a copy. */
module LongCopies {
  import opened Machines
  import opened Wrappers

  /** One call: the memory and the access record it finds, and its three arguments. */
  datatype Call = Call(was: seq<Byte>, loaded: set<int>, stored: set<int>, dst: nat, src: nat, n: nat) {
    /** Both buffers lie in memory and end below the last address. */
    predicate Valid() {
      |was| < TWO64 && src + n <= |was| && dst + n <= |was|
    }
  }

  /** The bytes at offset `off` of the source, as they were at the start. */
  function Piece(c: Call, off: int, width: nat): (v: seq<Byte>)
    requires c.Valid() && 0 <= off && off + width <= c.n
    ensures |v| == width
  {
    c.was[c.src + off..c.src + off + width]
  }

  /** The register pair loaded from offset `x` of the source. */
  function Get(c: Call, mem: seq<Byte>, x: int): (v: seq<Byte>)
    requires c.Valid() && |mem| == |c.was| && 0 <= x && x + 16 <= c.n
    ensures |v| == 16
  {
    mem[c.src + x..c.src + x + 16]
  }

  /** The memory after a register pair is stored at offset `x` of the destination. */
  function Put(c: Call, mem: seq<Byte>, x: int, v: seq<Byte>): (r: seq<Byte>)
    requires c.Valid() && |mem| == |c.was| && 0 <= x && x + 16 <= c.n && |v| == 16
    ensures |r| == |mem|
  {
    Write(mem, c.dst + x, v)
  }

  /** The memory after the bytes `v` are stored from address `a` on. */
  function Write(mem: seq<Byte>, a: int, v: seq<Byte>): (r: seq<Byte>)
    requires 0 <= a && a + |v| <= |mem|
    ensures |r| == |mem|
    decreases |v|
  {
    if v == [] then mem else Write(mem, a, v[..|v| - 1])[a + |v| - 1 := v[|v| - 1]]
  }

  lemma {:induction false} WritePatches(mem: seq<Byte>, a: int, v: seq<Byte>)
    requires 0 <= a && a + |v| <= |mem|
    ensures Patched(mem, Write(mem, a, v), a, v)
    decreases |v|
  {
    if v != [] { WritePatches(mem, a, v[..|v| - 1]); }
  }

  /** Memory, and the four register pairs that are loaded and not yet stored. */
  datatype Flight = Flight(mem: seq<Byte>, p: seq<Byte>, q: seq<Byte>, r: seq<Byte>, s: seq<Byte>) {
    predicate Fits(c: Call) {
      |mem| == |c.was| && |p| == 16 && |q| == 16 && |r| == 16 && |s| == 16
    }
  }

  /** The offset of the destination's first aligned address above its start. */
  function Start(dst: int): int { 16 - dst % 16 }

  /** The first 16 bytes are copied; 64 more are loaded from the aligned offset on, the first 16 of
      them before that store. */
  function Launch(c: Call): (f: Flight)
    requires c.Valid() && c.n > 128
    ensures f.Fits(c)
  {
    var x := Start(c.dst);
    var mem := Put(c, c.was, 0, Get(c, c.was, 0));
    Flight(mem, Get(c, c.was, x), Get(c, mem, x + 16), Get(c, mem, x + 32), Get(c, mem, x + 48))
  }

  /** Memory after each of the four pairs in flight is stored, from offset `off` on. */
  function Stores(c: Call, f: Flight, off: int): (m: (seq<Byte>, seq<Byte>, seq<Byte>, seq<Byte>))
    requires c.Valid() && f.Fits(c) && 0 <= off && off + 64 <= c.n
    ensures |m.0| == |m.1| == |m.2| == |m.3| == |c.was|
  {
    var m1 := Put(c, f.mem, off, f.p);
    var m2 := Put(c, m1, off + 16, f.q);
    var m3 := Put(c, m2, off + 32, f.r);
    (m1, m2, m3, Put(c, m3, off + 48, f.s))
  }

  /** One pass of the pipelined loop: each pair is stored and refilled 64 bytes on. */
  function Pass(c: Call, f: Flight, off: int): (f': Flight)
    requires c.Valid() && f.Fits(c) && 0 <= off && off + 128 <= c.n
    ensures f'.Fits(c)
  {
    var m := Stores(c, f, off);
    Flight(m.3, Get(c, m.0, off + 64), Get(c, m.1, off + 80), Get(c, m.2, off + 96), Get(c, m.3, off + 112))
  }

  /** The loop from offset `off` on. */
  function Passes(c: Call, f: Flight, off: int): (f': Flight)
    requires c.Valid() && f.Fits(c) && 0 <= off
    ensures f'.Fits(c)
    decreases c.n - off
  {
    if off + 128 < c.n then Passes(c, Pass(c, f, off), off + 64) else f
  }

  /** The offset at which the loop ends. */
  function Last(off: int, n: int): (last: int)
    ensures off <= last && n <= last + 128
    ensures off + 64 <= n ==> last + 64 <= n
    decreases n - off
  {
    if off + 128 < n then Last(off + 64, n) else off
  }

  /** The last 64 bytes, loaded while what is in flight is stored. */
  function Tail(c: Call, f: Flight, off: int): (f': Flight)
    requires c.Valid() && f.Fits(c) && 0 <= off && off + 64 <= c.n
    ensures f'.Fits(c)
  {
    var m, end := Stores(c, f, off), c.n - 64;
    Flight(m.3, Get(c, f.mem, end), Get(c, m.0, end + 16), Get(c, m.1, end + 32), Get(c, m.2, end + 48))
  }

  /** The end: what is in flight is stored, then the last 64 bytes. */
  function FromEnd(c: Call, f: Flight, off: int): (mem: seq<Byte>)
    requires c.Valid() && f.Fits(c) && 0 <= off && off + 64 <= c.n
    ensures |mem| == |c.was|
  {
    Stores(c, Tail(c, f, off), c.n - 64).3
  }

  function LongCopy(c: Call): (mem: seq<Byte>)
    requires c.Valid() && c.n > 128
    ensures |mem| == |c.was|
  {
    FromEnd(c, Passes(c, Launch(c), Start(c.dst)), Last(Start(c.dst), c.n))
  }

  // ---- the overlaps for which it is a copy ----

  /** The destination does not reach into the source from above, or starts so little above it that
      the loads stay ahead of the stores: those before the loop, and the first one of the end. */
  predicate Tolerates(dst: int, src: int, n: int) {
    || src + n <= dst
    || (dst - src <= Start(dst) && dst - src <= n - 64 - Last(Start(dst), n))
  }

  /** The first `h` destination bytes hold the source as it was, the rest of memory is as it was. */
  ghost predicate CopiedUpTo(c: Call, mem: seq<Byte>, h: int) {
    && c.Valid() && |mem| == |c.was| && 0 <= h <= c.n
    && forall i {:trigger mem[i]} :: 0 <= i < |mem| ==>
         mem[i] == if c.dst <= i < c.dst + h then c.was[c.src + (i - c.dst)] else c.was[i]
  }

  /** The pairs in flight hold the 64 source bytes at offset `off`, as they were. */
  ghost predicate Carries(c: Call, f: Flight, off: int) {
    && c.Valid() && 0 <= off && off + 64 <= c.n
    && f.p == Piece(c, off, 16) && f.q == Piece(c, off + 16, 16)
    && f.r == Piece(c, off + 32, 16) && f.s == Piece(c, off + 48, 16)
  }

  /** A load that is `k` bytes further into the source than any store into the destination does
      not read what was stored. */
  predicate Trails(c: Call, k: int) {
    c.dst - c.src <= k || c.src + c.n <= c.dst
  }

  function Max(a: int, b: int): int { if a < b then b else a }

  lemma PutCopies(c: Call, mem: seq<Byte>, h: int, x: int, v: seq<Byte>)
    requires CopiedUpTo(c, mem, h) && 0 <= x <= h && x + 16 <= c.n && v == Piece(c, x, 16)
    ensures CopiedUpTo(c, Put(c, mem, x, v), Max(h, x + 16))
  {
    WritePatches(mem, c.dst + x, v);
  }

  lemma GetOriginal(c: Call, mem: seq<Byte>, h: int, x: int)
    requires CopiedUpTo(c, mem, h) && Trails(c, x - h) && 0 <= x && x + 16 <= c.n
    ensures Get(c, mem, x) == Piece(c, x, 16)
  {}

  lemma LaunchCopies(c: Call)
    requires c.Valid() && c.n > 128 && Trails(c, Start(c.dst))
    ensures CopiedUpTo(c, Launch(c).mem, 16) && Carries(c, Launch(c), Start(c.dst))
  {
    var x, mem := Start(c.dst), Launch(c).mem;
    PutCopies(c, c.was, 0, 0, Get(c, c.was, 0));
    assert mem == Put(c, c.was, 0, Get(c, c.was, 0));
    GetOriginal(c, mem, 16, x + 16);
    GetOriginal(c, mem, 16, x + 32);
    GetOriginal(c, mem, 16, x + 48);
  }

  lemma StoresCopy(c: Call, f: Flight, off: int, h: int)
    requires CopiedUpTo(c, f.mem, h) && Carries(c, f, off) && off <= h
    ensures var m := Stores(c, f, off);
      && CopiedUpTo(c, m.0, Max(h, off + 16)) && CopiedUpTo(c, m.1, Max(h, off + 32))
      && CopiedUpTo(c, m.2, Max(h, off + 48)) && CopiedUpTo(c, m.3, Max(h, off + 64))
  {
    var m := Stores(c, f, off);
    PutCopies(c, f.mem, h, off, f.p);
    PutCopies(c, m.0, Max(h, off + 16), off + 16, f.q);
    PutCopies(c, m.1, Max(h, off + 32), off + 32, f.r);
    PutCopies(c, m.2, Max(h, off + 48), off + 48, f.s);
  }

  lemma PassCopies(c: Call, f: Flight, off: int)
    requires CopiedUpTo(c, f.mem, Max(off, 16)) && Carries(c, f, off)
    requires 0 < off && off + 128 <= c.n && Trails(c, 16)
    ensures CopiedUpTo(c, Pass(c, f, off).mem, off + 64) && Carries(c, Pass(c, f, off), off + 64)
  {
    var m := Stores(c, f, off);
    StoresCopy(c, f, off, Max(off, 16));
    GetOriginal(c, m.0, off + 16, off + 64);
    GetOriginal(c, m.1, off + 32, off + 80);
    GetOriginal(c, m.2, off + 48, off + 96);
    GetOriginal(c, m.3, off + 64, off + 112);
  }

  lemma {:induction false} PassesCopies(c: Call, f: Flight, off: int)
    requires f.Fits(c) && CopiedUpTo(c, f.mem, Max(off, 16)) && Carries(c, f, off)
    requires 0 < off && Trails(c, 16)
    ensures CopiedUpTo(c, Passes(c, f, off).mem, Max(Last(off, c.n), 16))
    ensures Carries(c, Passes(c, f, off), Last(off, c.n))
    decreases c.n - off
  {
    if off + 128 < c.n {
      PassCopies(c, f, off);
      PassesCopies(c, Pass(c, f, off), off + 64);
    }
  }

  lemma TailCopies(c: Call, f: Flight, off: int)
    requires CopiedUpTo(c, f.mem, Max(off, 16)) && Carries(c, f, off)
    requires 0 < off && off + 64 <= c.n <= off + 128 && c.n > 128 && Trails(c, c.n - 64 - off) && Trails(c, 16)
    ensures CopiedUpTo(c, Tail(c, f, off).mem, off + 64) && Carries(c, Tail(c, f, off), c.n - 64)
  {
    var m := Stores(c, f, off);
    StoresCopy(c, f, off, Max(off, 16));
    GetOriginal(c, f.mem, Max(off, 16), c.n - 64);
    GetOriginal(c, m.0, off + 16, c.n - 48);
    GetOriginal(c, m.1, off + 32, c.n - 32);
    GetOriginal(c, m.2, off + 48, c.n - 16);
  }

  lemma StoresEndCopies(c: Call, f: Flight, h: int)
    requires CopiedUpTo(c, f.mem, h) && c.n - 64 <= h && Carries(c, f, c.n - 64)
    ensures CopiedUpTo(c, Stores(c, f, c.n - 64).3, c.n)
  {
    StoresCopy(c, f, c.n - 64, h);
  }

  lemma FromEndCopies(c: Call, f: Flight, off: int)
    requires CopiedUpTo(c, f.mem, Max(off, 16)) && Carries(c, f, off)
    requires 0 < off && off + 64 <= c.n <= off + 128 && c.n > 128 && Trails(c, c.n - 64 - off) && Trails(c, 16)
    ensures CopiedUpTo(c, FromEnd(c, f, off), c.n)
  {
    var t := Tail(c, f, off);
    assert CopiedUpTo(c, t.mem, off + 64) && Carries(c, t, c.n - 64) by {
      TailCopies(c, f, off);
    }
    StoresEndCopies(c, t, off + 64);
    assert FromEnd(c, f, off) == Stores(c, t, c.n - 64).3;
  }

  lemma TolerableCopies(c: Call)
    requires c.Valid() && c.n > 128 && Tolerates(c.dst, c.src, c.n)
    ensures CopiedUpTo(c, LongCopy(c), c.n)
  {
    var x := Start(c.dst);
    LaunchCopies(c);
    PassesCopies(c, Launch(c), x);
    FromEndCopies(c, Passes(c, Launch(c), x), Last(x, c.n));
  }

  // ---- the overlaps for which it is not ----

  /** An offset of the destination that a copy with an intolerable overlap gets wrong. */
  function Slip(dst: int, src: int, n: int): (o: int)
    requires 128 < n && !Tolerates(dst, src, n)
    ensures 0 < dst - src <= o < n
  {
    if dst - src <= Start(dst) then n - 64 else if dst - src + 15 < n then dst - src + 15 else n - 1
  }

  /** Offset `o` of the source, and of the destination once it is behind, holds the byte `b`; so
      does whatever is in flight for it, or for the offset `j` whose store overwrites it. */
  ghost predicate Slipping(c: Call, f: Flight, off: int, o: int, j: int, b: Byte) {
    && c.Valid() && f.Fits(c) && 0 <= off && 0 <= j < o < c.n && c.src + o == c.dst + j
    && f.mem[c.src + o] == b && (o < off ==> f.mem[c.dst + o] == b)
    && Holds(f.p, o - off, b) && Holds(f.q, o - off - 16, b)
    && Holds(f.r, o - off - 32, b) && Holds(f.s, o - off - 48, b)
    && Holds(f.p, j - off, b) && j < off + 16
  }

  predicate Holds(v: seq<Byte>, k: int, b: Byte) {
    0 <= k < |v| ==> v[k] == b
  }

  /** Memory holds `b` at offset `o` of the source, and if `behind` of the destination. */
  predicate Marked(c: Call, mem: seq<Byte>, o: int, b: Byte, behind: bool) {
    && c.Valid() && |mem| == |c.was| && 0 <= o < c.n
    && mem[c.src + o] == b && (behind ==> mem[c.dst + o] == b)
  }

  lemma PutMarks(c: Call, mem: seq<Byte>, x: int, v: seq<Byte>, o: int, b: Byte, behind: bool)
    requires Marked(c, mem, o, b, behind) && |v| == 16 && 0 <= x && x + 16 <= c.n
    requires Holds(v, o - x, b) && Holds(v, c.src + o - c.dst - x, b)
    ensures Marked(c, Put(c, mem, x, v), o, b, behind || x <= o < x + 16)
  {
    WritePatches(mem, c.dst + x, v);
  }

  lemma GetHolds(c: Call, mem: seq<Byte>, x: int, o: int, b: Byte, behind: bool)
    requires Marked(c, mem, o, b, behind) && 0 <= x && x + 16 <= c.n
    ensures Holds(Get(c, mem, x), o - x, b)
  {}

  lemma StoresMark(c: Call, f: Flight, off: int, o: int, j: int, b: Byte)
    requires Slipping(c, f, off, o, j, b) && off + 64 <= c.n
    ensures var m := Stores(c, f, off);
      && Marked(c, m.0, o, b, o < off + 16) && Marked(c, m.1, o, b, o < off + 32)
      && Marked(c, m.2, o, b, o < off + 48) && Marked(c, m.3, o, b, o < off + 64)
  {
    var m := Stores(c, f, off);
    PutMarks(c, f.mem, off, f.p, o, b, o < off);
    PutMarks(c, m.0, off + 16, f.q, o, b, o < off + 16);
    PutMarks(c, m.1, off + 32, f.r, o, b, o < off + 32);
    PutMarks(c, m.2, off + 48, f.s, o, b, o < off + 48);
  }

  lemma PassSlips(c: Call, f: Flight, off: int, o: int, j: int, b: Byte)
    requires Slipping(c, f, off, o, j, b) && off + 128 <= c.n
    ensures Slipping(c, Pass(c, f, off), off + 64, o, j, b)
  {
    var m := Stores(c, f, off);
    StoresMark(c, f, off, o, j, b);
    GetHolds(c, m.0, off + 64, o, b, o < off + 16);
    GetHolds(c, m.1, off + 80, o, b, o < off + 32);
    GetHolds(c, m.2, off + 96, o, b, o < off + 48);
    GetHolds(c, m.3, off + 112, o, b, o < off + 64);
  }

  lemma {:induction false} PassesSlip(c: Call, f: Flight, off: int, o: int, j: int, b: Byte)
    requires Slipping(c, f, off, o, j, b)
    ensures Slipping(c, Passes(c, f, off), Last(off, c.n), o, j, b)
    decreases c.n - off
  {
    if off + 128 < c.n {
      PassSlips(c, f, off, o, j, b);
      PassesSlip(c, Pass(c, f, off), off + 64, o, j, b);
    }
  }

  lemma TailSlips(c: Call, f: Flight, off: int, o: int, j: int, b: Byte)
    requires Slipping(c, f, off, o, j, b) && off + 64 <= c.n <= off + 128 && c.n > 128 && j < 16
    ensures Slipping(c, Tail(c, f, off), c.n - 64, o, j, b)
  {
    var m := Stores(c, f, off);
    StoresMark(c, f, off, o, j, b);
    GetHolds(c, f.mem, c.n - 64, o, b, o < off);
    GetHolds(c, m.0, c.n - 48, o, b, o < off + 16);
    GetHolds(c, m.1, c.n - 32, o, b, o < off + 32);
    GetHolds(c, m.2, c.n - 16, o, b, o < off + 48);
  }

  lemma FromEndSlips(c: Call, f: Flight, off: int, o: int, j: int, b: Byte)
    requires Slipping(c, f, off, o, j, b) && off + 64 <= c.n <= off + 128 && c.n > 128 && j < 16
    ensures FromEnd(c, f, off)[c.dst + o] == b
  {
    TailSlips(c, f, off, o, j, b);
    StoresMark(c, Tail(c, f, off), c.n - 64, o, j, b);
  }

  /** The destination's byte at offset `o` is the source's one further down, by their distance. */
  predicate SlipsAt(c: Call, mem: seq<Byte>, o: int) {
    && c.Valid() && |mem| == |c.was| && 0 <= c.dst - c.src <= o < c.n
    && mem[c.dst + o] == c.was[c.src + o - (c.dst - c.src)]
  }

  lemma LaunchSlips(c: Call, o: int, j: int)
    requires c.Valid() && c.n > 128 && Start(c.dst) + 16 <= o < c.n
    requires 0 <= j < 16 && c.dst + j == c.src + o
    ensures Slipping(c, Launch(c), Start(c.dst), o, j, c.was[c.src + j])
  {
    var x, mem, b := Start(c.dst), Launch(c).mem, c.was[c.src + j];
    WritePatches(c.was, c.dst, Get(c, c.was, 0));
    assert mem == Put(c, c.was, 0, Get(c, c.was, 0));
    assert mem[c.dst + j] == b;
    assert Marked(c, mem, o, b, false);
    GetHolds(c, mem, x + 16, o, b, false);
    GetHolds(c, mem, x + 32, o, b, false);
    GetHolds(c, mem, x + 48, o, b, false);
  }

  /** The destination starts beyond the aligned offset: the first store overwrites a source byte
      that is loaded after it. */
  lemma FirstStoreSlips(c: Call, o: int)
    requires c.Valid() && c.n > 128 && Start(c.dst) < c.dst - c.src < c.n
    requires o == Slip(c.dst, c.src, c.n)
    ensures SlipsAt(c, LongCopy(c), o)
  {
    var x, j := Start(c.dst), o - (c.dst - c.src);
    var b := c.was[c.src + j];
    LaunchSlips(c, o, j);
    PassesSlip(c, Launch(c), x, o, j, b);
    FromEndSlips(c, Passes(c, Launch(c), x), Last(x, c.n), o, j, b);
    assert LongCopy(c) == FromEnd(c, Passes(c, Launch(c), x), Last(x, c.n));
  }

  lemma FromEndReadsBack(c: Call, f: Flight, off: int)
    requires f.Fits(c) && CopiedUpTo(c, f.mem, off) && off + 64 <= c.n
    requires c.n - 64 - off < c.dst - c.src <= c.n - 64
    ensures SlipsAt(c, FromEnd(c, f, off), c.n - 64)
  {
    assert Tail(c, f, off).p[0] == f.mem[c.src + c.n - 64];
    StoresFirst(c, Tail(c, f, off), c.n - 64);
  }

  lemma StoresFirst(c: Call, f: Flight, off: int)
    requires c.Valid() && f.Fits(c) && 0 <= off && off + 64 <= c.n
    ensures Stores(c, f, off).3[c.dst + off] == f.p[0]
  {
    var m := Stores(c, f, off);
    WritePatches(f.mem, c.dst + off, f.p);
    WritePatches(m.0, c.dst + off + 16, f.q);
    WritePatches(m.1, c.dst + off + 32, f.r);
    WritePatches(m.2, c.dst + off + 48, f.s);
  }

  /** The loop ends within the distance of the last 64 bytes: the first load of the end reads a
      byte that the loop stored. */
  lemma LastLoadSlips(c: Call, o: int)
    requires c.Valid() && c.n > 128 && 0 < c.dst - c.src <= Start(c.dst)
    requires !Tolerates(c.dst, c.src, c.n) && o == Slip(c.dst, c.src, c.n)
    ensures SlipsAt(c, LongCopy(c), o)
  {
    var x := Start(c.dst);
    var f := Passes(c, Launch(c), x);
    LaunchCopies(c);
    PassesCopies(c, Launch(c), x);
    FromEndReadsBack(c, f, Last(x, c.n));
  }

  lemma IntolerableSlips(c: Call)
    requires c.Valid() && c.n > 128 && !Tolerates(c.dst, c.src, c.n)
    ensures SlipsAt(c, LongCopy(c), Slip(c.dst, c.src, c.n))
  {
    if c.dst - c.src <= Start(c.dst) {
      LastLoadSlips(c, Slip(c.dst, c.src, c.n));
    } else {
      FirstStoreSlips(c, Slip(c.dst, c.src, c.n));
    }
  }

  /** For more than 128 bytes: the destination ends up holding the source when `Tolerates` says so,
      and otherwise holds at offset `Slip` the byte the source had further down. */
  lemma LongCopyExact(c: Call, mem: seq<Byte>)
    requires c.Valid() && c.n > 128 && mem == LongCopy(c)
    ensures Tolerates(c.dst, c.src, c.n) ==> CopiedUpTo(c, mem, c.n)
    ensures !Tolerates(c.dst, c.src, c.n) ==> SlipsAt(c, mem, Slip(c.dst, c.src, c.n))
  {
    if Tolerates(c.dst, c.src, c.n) {
      TolerableCopies(c);
    } else {
      IntolerableSlips(c);
    }
  }

  ghost predicate Copies(was: seq<Byte>, dst: nat, src: nat, n: nat)
    requires 128 < n && src + n <= |was| < TWO64 && dst + n <= |was|
  {
    var c := Call(was, {}, {}, dst, src, n);
    CopiedUpTo(c, LongCopy(c), n)
  }

  /** The overlaps `Tolerates` describes are exactly the ones that are safe whatever memory holds. */
  lemma ToleratesExactly(dst: nat, src: nat, n: nat, size: nat)
    requires 128 < n && src + n <= size < TWO64 && dst + n <= size
    ensures Tolerates(dst, src, n) <==> forall was: seq<Byte> :: |was| == size ==> Copies(was, dst, src, n)
  {
    forall was: seq<Byte> | |was| == size && Tolerates(dst, src, n) ensures Copies(was, dst, src, n) {
      TolerableCopies(Call(was, {}, {}, dst, src, n));
    }
    if !Tolerates(dst, src, n) {
      var was := Telling(dst, src, n, size);
      assert !Copies(was, dst, src, n);
    }
  }

  /** A memory whose copy shows the slip: one byte of the source differs from all others. */
  lemma Telling(dst: nat, src: nat, n: nat, size: nat) returns (was: seq<Byte>)
    requires 128 < n && src + n <= size < TWO64 && dst + n <= size && !Tolerates(dst, src, n)
    ensures |was| == size && !Copies(was, dst, src, n)
  {
    var o := Slip(dst, src, n);
    was := seq(size, i => if i == src + o then 1 else 0);
    var c := Call(was, {}, {}, dst, src, n);
    IntolerableSlips(c);
    NotBoth(c, LongCopy(c), o);
  }

  lemma NotBoth(c: Call, mem: seq<Byte>, o: int)
    requires SlipsAt(c, mem, o) && c.was[c.src + o] != c.was[c.src + o - (c.dst - c.src)]
    ensures !CopiedUpTo(c, mem, c.n)
  {
    assert c.src + (c.dst + o - c.dst) == c.src + o;
  }
}
