/** The VMX MSR bitmap of `vmx/region.rs` (section 24.6.9 of the Intel SDM, Vol. 3C) and its
    set-up in `vmx/vcpu.rs`, tied to the plain set of intercepted accesses. */
module MsrBitmaps {
  import opened Bits

  /** An access that can be intercepted. */
  datatype Access = Access(msr: nat, isWrite: bool)

  const IA32_APIC_BASE := 0x1b
  const MSR_MAX := 0xc000_1fff

  /** The MSRs the bitmap covers; the source panics on any other. */
  predicate Legal(msr: nat) {
    msr <= 0x1fff || 0xc000_0000 <= msr <= MSR_MAX
  }

  /** The quarter of the frame, the byte within the frame and the bit within the byte. */
  function Quarter(a: Access): nat
    requires Legal(a.msr)
  {
    if a.msr <= 0x1fff then (if !a.isWrite then 0 else 2) else (if !a.isWrite then 1 else 3)
  }

  function ByteOf(a: Access): (b: nat)
    requires Legal(a.msr)
    ensures b < 4096
  {
    Quarter(a) * 1024 + a.msr % 0x2000 / 8
  }

  function BitOf(a: Access): nat { a.msr % 0x2000 % 8 }

  /** The access whose bit this is. */
  function AccessAt(b: nat, bit: nat): Access
    requires b < 4096 && bit < 8
  {
    var low := b % 1024 * 8 + bit;
    Access(if b / 1024 % 2 == 1 then 0xc000_0000 + low else low, b / 1024 >= 2)
  }

  /** Accesses and bits of the frame correspond one to one. */
  lemma SlotsAreABijection(a: Access, b: nat, bit: nat)
    requires Legal(a.msr) && b < 4096 && bit < 8
    ensures AccessAt(ByteOf(a), BitOf(a)) == a
    ensures Legal(AccessAt(b, bit).msr)
    ensures ByteOf(AccessAt(b, bit)) == b && BitOf(AccessAt(b, bit)) == bit
  {
    SlotOfAccess(a);
    AccessOfSlot(b, bit);
  }

  lemma SlotOfAccess(a: Access)
    requires Legal(a.msr)
    ensures AccessAt(ByteOf(a), BitOf(a)) == a
  {}

  lemma AccessOfSlot(b: nat, bit: nat)
    requires b < 4096 && bit < 8
    ensures Legal(AccessAt(b, bit).msr)
    ensures ByteOf(AccessAt(b, bit)) == b && BitOf(AccessAt(b, bit)) == bit
  {
    var a := AccessAt(b, bit);
    var low := b % 1024 * 8 + bit;
    assert low < 0x2000 && a.msr % 0x2000 == low;
    assert low / 8 == b % 1024 && low % 8 == bit;
  }

  predicate IsFrame(frame: seq<nat>) {
    |frame| == 4096 && forall k :: 0 <= k < 4096 ==> frame[k] < Pow2(8)
  }

  predicate Intercepts(frame: seq<nat>, a: Access)
    requires IsFrame(frame)
  {
    Legal(a.msr) && Bit(frame[ByteOf(a)], BitOf(a))
  }

  lemma Slots(n: nat)
    requires n < 0x2000
    ensures ByteOf(Access(n, false)) == n / 8 && ByteOf(Access(0xc000_0000 + n, false)) == 1024 + n / 8
    ensures ByteOf(Access(n, true)) == 2048 + n / 8 && ByteOf(Access(0xc000_0000 + n, true)) == 3072 + n / 8
    ensures n / 8 < 1024 && forall w :: BitOf(Access(n, w)) == n % 8 && BitOf(Access(0xc000_0000 + n, w)) == n % 8
  {
    assert n % 0x2000 == n && (0xc000_0000 + n) % 0x2000 == n;
  }

  /** The layout the processor reads: the read bits of low MSRs, those of high MSRs, then the write
      bits of both, 1024 bytes each. */
  lemma Layout(f: seq<nat>, n: nat)
    requires IsFrame(f) && n < 0x2000
    ensures Intercepts(f, Access(n, false)) <==> Bit(f[n / 8], n % 8)
    ensures Intercepts(f, Access(0xc000_0000 + n, false)) <==> Bit(f[1024 + n / 8], n % 8)
    ensures Intercepts(f, Access(n, true)) <==> Bit(f[2048 + n / 8], n % 8)
    ensures Intercepts(f, Access(0xc000_0000 + n, true)) <==> Bit(f[3072 + n / 8], n % 8)
  {
    Slots(n);
  }

  /** The frame stands for exactly this set of accesses. */
  ghost predicate Represents(frame: seq<nat>, s: set<Access>) {
    IsFrame(frame) && forall a :: a in s <==> Intercepts(frame, a)
  }

  /** The set determines the frame, bit for bit. */
  lemma SetDeterminesFrame(f: seq<nat>, g: seq<nat>, s: set<Access>)
    requires Represents(f, s) && Represents(g, s)
    ensures f == g
  {
    forall k | 0 <= k < 4096 ensures f[k] == g[k] {
      forall i: nat ensures Bit(f[k], i) <==> Bit(g[k], i) {
        if i < 8 {
          var a := AccessAt(k, i);
          AccessOfSlot(k, i);
          assert Intercepts(f, a) == (a in s) == Intercepts(g, a);
        } else {
          Width(f[k], 8);
          Width(g[k], 8);
        }
      }
      SameBits(f[k], g[k]);
    }
  }

  /** What an access has to do with the byte and the bit it is written to, from the other side. */
  lemma AccessOfBit(f: seq<nat>, k: nat, i: nat)
    requires IsFrame(f) && k < 4096 && i < 8
    ensures var n := k % 1024 * 8 + i;
      Bit(f[k], i) <==> Intercepts(f, Access(if k / 1024 % 2 == 0 then n else 0xc000_0000 + n, k >= 2048))
  {
    var n, quarter := k % 1024 * 8 + i, k / 1024;
    assert n / 8 == k % 1024 && n % 8 == i && k == 1024 * quarter + n / 8;
    Layout(f, n);
    assert quarter in {0, 1, 2, 3};
  }

  /** The bytes of a frame that intercepts IA32_APIC_BASE and the x2APIC range both ways. */
  function SetupByte(k: nat): nat {
    if k == 3 || k == 2051 then 8 else if 0x100 <= k < 0x108 || 0x900 <= k < 0x908 then 0xff else 0
  }

  lemma SetupBit(k: nat, i: nat)
    requires k < 4096 && i < 8
    ensures Bit(SetupByte(k), i) <==>
      k / 1024 % 2 == 0 && (k % 1024 * 8 + i == 0x1b || 0x800 <= k % 1024 * 8 + i <= 0x83f)
  {
    BitOfZero(i);
    BitOfPow2(3, i);
    AllOnes(8, i);
    assert Pow2(3) == 8;
    Pow2Byte(0);
  }

  lemma SetupFrame(f: seq<nat>, s: set<Access>, k: nat)
    requires Represents(f, s) && (forall a :: a in s <==> a.msr == 0x1b || 0x800 <= a.msr <= 0x83f) && k < 4096
    ensures f[k] == SetupByte(k)
  {
    forall i: nat ensures Bit(f[k], i) <==> Bit(SetupByte(k), i) {
      if i < 8 {
        AccessOfBit(f, k, i);
        SetupBit(k, i);
      } else {
        Pow2Byte(0);
        Width(f[k], 8);
        Width(SetupByte(k), 8);
      }
    }
    SameBits(f[k], SetupByte(k));
  }

  /** The frame with the bit of one access written. */
  function WithAccess(f: seq<nat>, a: Access, on: bool): seq<nat>
    requires |f| == 4096 && Legal(a.msr)
  {
    var byte := f[ByteOf(a)];
    f[ByteOf(a) := if on then Or(byte, Pow2(BitOf(a))) else AndNot(byte, Pow2(BitOf(a)))]
  }

  /** Writing the bit of one access leaves every other access alone. */
  lemma OneAccess(f: seq<nat>, a: Access, on: bool, b: Access)
    requires IsFrame(f) && Legal(a.msr) && IsFrame(WithAccess(f, a, on))
    ensures Intercepts(WithAccess(f, a, on), b) <==> if a == b then on else Intercepts(f, b)
  {
    if Legal(b.msr) && ByteOf(b) == ByteOf(a) {
      SetBit(f[ByteOf(a)], BitOf(a), BitOf(b));
      ClearBit(f[ByteOf(a)], BitOf(a), BitOf(b));
      SlotOfAccess(a);
      SlotOfAccess(b);
    }
  }

  /** So the frame keeps standing for a set. */
  lemma RepresentsStep(f: seq<nat>, a: Access, on: bool, s: set<Access>)
    requires Represents(f, s) && Legal(a.msr)
    ensures Represents(WithAccess(f, a, on), if on then s + {a} else s - {a})
  {
    KeepsWidth(f[ByteOf(a)], BitOf(a), 8);
    var g := WithAccess(f, a, on);
    forall b: Access ensures Intercepts(g, b) <==> if a == b then on else Intercepts(f, b) {
      OneAccess(f, a, on, b);
    }
  }

  class MsrBitmap {
    const frame: array<nat>
    ghost var intercepted: set<Access>

    ghost predicate Valid() reads this, frame { Represents(frame[..], intercepted) }

    /** A zeroed frame intercepts nothing. */
    constructor PassthroughAll()
      ensures Valid() && fresh(frame) && intercepted == {}
    {
      frame := new nat[4096](_ => 0);
      intercepted := {};
      new;
      forall a: Access ensures !Intercepts(frame[..], a) {
        BitOfZero(BitOf(a));
      }
    }

    method SetIntercept(msr: nat, isWrite: bool, intercept: bool)
      requires Valid() && Legal(msr)
      modifies this, frame
      ensures Valid()
      ensures intercepted == if intercept then old(intercepted) + {Access(msr, isWrite)}
                             else old(intercepted) - {Access(msr, isWrite)}
    {
      ghost var was, a := frame[..], Access(msr, isWrite);
      var offset :=
        (if msr <= 0x1fff then (if !isWrite then 0 else 2)
         else (if !isWrite then 1 else 3)) * 1024;
      var low := msr % 0x2000;
      var byte, bits := low / 8, low % 8;
      if intercept {
        frame[offset + byte] := Or(frame[offset + byte], Pow2(bits));
      } else {
        frame[offset + byte] := AndNot(frame[offset + byte], Pow2(bits));
      }
      RepresentsStep(was, a, intercept, intercepted);
      assert frame[..] == WithAccess(was, a, intercept);
      intercepted := if intercept then intercepted + {a} else intercepted - {a};
    }

    method SetReadIntercept(msr: nat, intercept: bool)
      requires Valid() && Legal(msr)
      modifies this, frame
      ensures Valid()
      ensures intercepted == if intercept then old(intercepted) + {Access(msr, false)}
                             else old(intercepted) - {Access(msr, false)}
    {
      SetIntercept(msr, false, intercept);
    }

    method SetWriteIntercept(msr: nat, intercept: bool)
      requires Valid() && Legal(msr)
      modifies this, frame
      ensures Valid()
      ensures intercepted == if intercept then old(intercepted) + {Access(msr, true)}
                             else old(intercepted) - {Access(msr, true)}
    {
      SetIntercept(msr, true, intercept);
    }

    /** The set-up of a virtual CPU: on top of what is there, both directions of IA32_APIC_BASE
        and of the x2APIC range, and nothing else. */
    method SetupMsrBitmap()
      requires Valid()
      modifies this, frame
      ensures Valid()
      ensures forall a :: a in intercepted <==>
        a in old(intercepted) || a.msr == IA32_APIC_BASE || 0x800 <= a.msr <= 0x83f
    {
      SetReadIntercept(IA32_APIC_BASE, true);
      SetWriteIntercept(IA32_APIC_BASE, true);
      for msr := 0x800 to 0x840
        invariant Valid()
        invariant forall a :: a in intercepted <==>
          a in old(intercepted) || a.msr == IA32_APIC_BASE || 0x800 <= a.msr < msr
      {
        SetReadIntercept(msr, true);
        SetWriteIntercept(msr, true);
      }
    }
  }

  /** The frame of a new virtual CPU, byte by byte. */
  method SetupNew() returns (frame: seq<nat>)
    ensures |frame| == 4096
    ensures frame[3] == 8 && frame[2051] == 8
    ensures forall k :: 0x100 <= k < 0x108 || 0x900 <= k < 0x908 ==> frame[k] == 0xff
    ensures forall k :: 0 <= k < 4096 && k !in {3, 2051} && !(0x100 <= k < 0x108) && !(0x900 <= k < 0x908) ==>
      frame[k] == 0
  {
    var bitmap := new MsrBitmap.PassthroughAll();
    bitmap.SetupMsrBitmap();
    frame := bitmap.frame[..];
    forall k: nat | k < 4096 ensures frame[k] == SetupByte(k) {
      SetupFrame(frame, bitmap.intercepted, k);
    }
  }
}
