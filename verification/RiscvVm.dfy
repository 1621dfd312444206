/** The trap-and-emulate loop of `riscv/vm.rs`, with the virtual interrupt lines of
    `riscv/mod.rs` and the emulated PLIC of `riscv/devices/plic.rs`, on top of the world switch.
    Firmware calls, the instruction decoder and the debugger answer through the arguments. */
module RiscvVm {
  import opened Bits
  import opened Wrappers
  import opened WorldSwitch

  // ---- interrupt lines ----

  const SUPERVISOR_SOFT := 1
  const VIRTUAL_SUPERVISOR_SOFT := 2
  const SUPERVISOR_TIMER := 5
  const VIRTUAL_SUPERVISOR_TIMER := 6
  const SUPERVISOR_EXTERNAL := 9
  const VIRTUAL_SUPERVISOR_EXTERNAL := 10

  /** The CSRs that hold the interrupt lines. */
  class Csrs {
    var hvip: nat
    var sie: nat

    predicate TimerPending() reads this { Bit(hvip, VIRTUAL_SUPERVISOR_TIMER) }
    predicate ExternalPending() reads this { Bit(hvip, VIRTUAL_SUPERVISOR_EXTERNAL) }
    predicate HostTimer() reads this { Bit(sie, SUPERVISOR_TIMER) }

    /** `setup_csrs`: nothing pending, all host interrupts enabled. */
    constructor Setup(before: nat)
      ensures !TimerPending() && !ExternalPending() && HostTimer()
      ensures forall i: nat :: Bit(hvip, i) <==> Bit(before, i) && i !in {2, 6, 10}
      ensures forall i: nat :: Bit(sie, i) <==> i in {1, 5, 9}
    {
      var soft := AndNot(before, Pow2(VIRTUAL_SUPERVISOR_SOFT));
      var timer := AndNot(soft, Pow2(VIRTUAL_SUPERVISOR_TIMER));
      hvip := AndNot(timer, Pow2(VIRTUAL_SUPERVISOR_EXTERNAL));
      sie := Or(Or(Pow2(SUPERVISOR_EXTERNAL), Pow2(SUPERVISOR_SOFT)), Pow2(SUPERVISOR_TIMER));
      forall i: nat
        ensures Bit(AndNot(timer, Pow2(VIRTUAL_SUPERVISOR_EXTERNAL)), i) <==> Bit(before, i) && i !in {2, 6, 10}
      {
        ClearBit(before, VIRTUAL_SUPERVISOR_SOFT, i);
        ClearBit(soft, VIRTUAL_SUPERVISOR_TIMER, i);
        ClearBit(timer, VIRTUAL_SUPERVISOR_EXTERNAL, i);
      }
      forall i: nat
        ensures Bit(Or(Or(Pow2(SUPERVISOR_EXTERNAL), Pow2(SUPERVISOR_SOFT)), Pow2(SUPERVISOR_TIMER)), i) <==>
          i in {1, 5, 9}
      {
        BitOfPow2(SUPERVISOR_EXTERNAL, i);
        SetBit(Pow2(SUPERVISOR_EXTERNAL), SUPERVISOR_SOFT, i);
        SetBit(Or(Pow2(SUPERVISOR_EXTERNAL), Pow2(SUPERVISOR_SOFT)), SUPERVISOR_TIMER, i);
      }
    }

    /** The host timer fired: raise the guest's, silence the host's. */
    method RaiseTimer()
      modifies this
      ensures TimerPending() && !HostTimer() && ExternalPending() == old(ExternalPending())
      ensures forall i: nat :: Bit(hvip, i) <==> i == 6 || Bit(old(hvip), i)
      ensures forall i: nat :: Bit(sie, i) <==> i != 5 && Bit(old(sie), i)
    {
      forall i: nat { SetBit(hvip, VIRTUAL_SUPERVISOR_TIMER, i); }
      forall i: nat { ClearBit(sie, SUPERVISOR_TIMER, i); }
      hvip := Or(hvip, Pow2(VIRTUAL_SUPERVISOR_TIMER));
      sie := AndNot(sie, Pow2(SUPERVISOR_TIMER));
    }

    /** The guest set a new deadline: lower its line, listen to the host timer again. */
    method RearmTimer()
      modifies this
      ensures !TimerPending() && HostTimer() && ExternalPending() == old(ExternalPending())
      ensures forall i: nat :: Bit(hvip, i) <==> i != 6 && Bit(old(hvip), i)
      ensures forall i: nat :: Bit(sie, i) <==> i == 5 || Bit(old(sie), i)
    {
      forall i: nat { ClearBit(hvip, VIRTUAL_SUPERVISOR_TIMER, i); }
      forall i: nat { SetBit(sie, SUPERVISOR_TIMER, i); }
      hvip := AndNot(hvip, Pow2(VIRTUAL_SUPERVISOR_TIMER));
      sie := Or(sie, Pow2(SUPERVISOR_TIMER));
    }

    method SetExternal(on: bool)
      modifies this`hvip
      ensures ExternalPending() == on && TimerPending() == old(TimerPending())
      ensures forall i: nat :: Bit(hvip, i) <==> if i == 10 then on else Bit(old(hvip), i)
    {
      forall i: nat { SetBit(hvip, VIRTUAL_SUPERVISOR_EXTERNAL, i); }
      forall i: nat { ClearBit(hvip, VIRTUAL_SUPERVISOR_EXTERNAL, i); }
      if on {
        hvip := Or(hvip, Pow2(VIRTUAL_SUPERVISOR_EXTERNAL));
      } else {
        hvip := AndNot(hvip, Pow2(VIRTUAL_SUPERVISOR_EXTERNAL));
      }
    }
  }

  // ---- the emulated PLIC ----

  const MAX_CONTEXTS := 16
  const CONTEXT_BASE := 0x20_0000
  const CONTEXT_SIZE := 0x1000

  /** What an offset in the PLIC's range stands for. */
  datatype PlicReg = Threshold(context: nat) | Claim(context: nat) | Ignored | Unmodelled

  /** The registers of a context are words 0 and 1 of its page; the code accepts and ignores
      writes to the others. */
  function RegAt(offset: nat): (r: PlicReg)
    ensures r.Threshold? || r.Claim? ==> r.context < MAX_CONTEXTS
  {
    if !(CONTEXT_BASE <= offset < CONTEXT_BASE + CONTEXT_SIZE * MAX_CONTEXTS) then Unmodelled
    else
      var index := (offset - CONTEXT_BASE) % CONTEXT_SIZE / 4;
      var context := (offset - CONTEXT_BASE) / CONTEXT_SIZE;
      if index == 0 then Threshold(context) else if index == 1 then Claim(context) else Ignored
  }

  /** The PLIC's memory map: context `i` has its threshold at 0x20_0000 + 0x1000 * i and its claim four
      bytes on, for sixteen contexts; nothing outside their pages is modelled. */
  lemma MemoryMap(i: nat, offset: nat)
    requires i < 16
    ensures RegAt(0x20_0000 + 0x1000 * i) == Threshold(i) && RegAt(0x20_0004 + 0x1000 * i) == Claim(i)
    ensures RegAt(offset) == Claim(i) ==> 0 <= offset - (0x20_0004 + 0x1000 * i) < 4
    ensures RegAt(offset) == Unmodelled <==> !(0x20_0000 <= offset < 0x21_0000)
  {}

  class PlicState {
    const csrs: Csrs
    var thresholds: seq<nat>
    var claims: seq<nat>
    /** Writes passed on to the real PLIC: offset and value. */
    ghost var forwarded: seq<(nat, nat)>

    /** A pending external interrupt has a claim to answer; only context 1 ever has one. */
    ghost predicate Valid() reads this, csrs {
      && |thresholds| == MAX_CONTEXTS && |claims| == MAX_CONTEXTS
      && (csrs.ExternalPending() ==> claims[1] != 0)
      && forall i :: 0 <= i < MAX_CONTEXTS && i != 1 ==> claims[i] == 0
    }

    constructor (c: Csrs)
      requires !c.ExternalPending()
      ensures Valid() && csrs == c && claims == seq(MAX_CONTEXTS, _ => 0)
    {
      csrs := c;
      thresholds, claims, forwarded := seq(MAX_CONTEXTS, _ => 0), seq(MAX_CONTEXTS, _ => 0), [];
    }

    /** `None` is the panic of an unfinished branch. */
    method ReadU32(offset: nat) returns (r: Option<nat>)
      requires Valid()
      ensures r == match RegAt(offset) case Claim(i) => Some(claims[i]) case _ => None
    {
      if CONTEXT_BASE <= offset < CONTEXT_BASE + CONTEXT_SIZE * MAX_CONTEXTS {
        var hart := (offset - CONTEXT_BASE) / CONTEXT_SIZE;
        var index := (offset - CONTEXT_BASE) % CONTEXT_SIZE / 4;
        if index == 1 { return Some(claims[hart]); }
      }
      r := None;
    }

    /** Completing, in whatever context, lowers the guest's line. */
    method WriteU32(offset: nat, val: nat) returns (ok: bool)
      requires Valid()
      modifies this, csrs`hvip
      ensures Valid() && csrs.TimerPending() == old(csrs.TimerPending())
      ensures ok <==> !RegAt(offset).Unmodelled?
      ensures csrs.ExternalPending() == (!RegAt(offset).Claim? && old(csrs.ExternalPending()))
      ensures claims == if RegAt(offset).Claim? then old(claims)[RegAt(offset).context := 0] else old(claims)
      ensures thresholds ==
        if RegAt(offset).Threshold? then old(thresholds)[RegAt(offset).context := val] else old(thresholds)
      ensures forwarded == old(forwarded) +
        if RegAt(offset).Threshold? || RegAt(offset).Claim? then [(offset, val)] else []
    {
      if CONTEXT_BASE <= offset < CONTEXT_BASE + CONTEXT_SIZE * MAX_CONTEXTS {
        var hart := (offset - CONTEXT_BASE) / CONTEXT_SIZE;
        var index := (offset - CONTEXT_BASE) % CONTEXT_SIZE / 4;
        if index == 0 {
          thresholds := thresholds[hart := val];
          forwarded := forwarded + [(offset, val)];
        } else if index == 1 {
          forwarded := forwarded + [(offset, val)];
          claims := claims[hart := 0];
          csrs.SetExternal(false);
        }
        ok := true;
      } else {
        ok := false;
      }
    }

    /** `handle_irq`: `irq` is what the real PLIC answers to a claim; zero is the failed assertion. */
    method HandleIrq(irq: nat) returns (ok: bool)
      requires Valid()
      modifies this`claims, csrs`hvip
      ensures Valid() && csrs.TimerPending() == old(csrs.TimerPending())
      ensures ok <==> irq != 0
      ensures claims == if ok then old(claims)[1 := irq] else old(claims)
      ensures csrs.ExternalPending() == (ok || old(csrs.ExternalPending()))
    {
      if irq == 0 { return false; }
      claims := claims[1 := irq];
      csrs.SetExternal(true);
      ok := true;
    }
  }

  // ---- exits ----

  /** What the hypercall decoded to, with the firmware's answer. */
  datatype Sbi =
    | Base(value: nat)
    | GetChar(c: nat)
    | PutChar
    | SetTimer
    | Reset
    | RemoteFence(error: nat, value: nat)
    | PmuCount(n: nat)
    | PmuCall(error: nat, value: nat)
    | Unsupported

  datatype Decoded = Sw(rs2: nat) | Lw(rd: nat) | OtherInstr | Undecodable

  /** The external decoder: what an instruction word is, and how long one starting with these
      16 bits is. */
  datatype Isa = Isa(decode: nat -> Decoded, length: nat -> nat)

  /** Why the guest trapped. `fetched` is the instruction at its pc, if it can be read; a
      breakpoint carries the registers and the pc the debugger leaves. */
  datatype Kind =
    | Ecall(msg: Option<Sbi>)
    | PageFault(addr: nat, inst: nat, fetched: Option<nat>)
    | TimerIrq
    | ExternalIrq(irq: nat)
    | Breakpoint(x: seq<nat>, pc: nat)
    | Unhandled

  const A1 := 11
  const SPVP := 8
  const PLIC_BASE := 0xC00_0000
  const PLIC_SIZE := 0x400_0000

  /** Length and meaning of the instruction that faulted; `None` when it cannot be had. */
  function Faulting(isa: Isa, k: Kind): Option<(nat, Decoded)>
    requires k.PageFault?
  {
    if k.inst == 0 && k.fetched.None? then None
    else
      var inst := if k.inst == 0 then k.fetched.value else k.inst;
      var len := isa.length(inst % 0x1_0000);
      if len == 2 then Some((2, isa.decode(inst % 0x1_0000)))
      else if len == 4 then Some((4, isa.decode(inst)))
      else None
  }

  /** The instruction's length is two or four bytes. A non-zero trapped word is used without the
      fetched one, a compressed instruction without its upper half. It cannot be had exactly when
      the fetch that is needed failed or the length is another. */
  lemma FaultingInstruction(isa: Isa, k: Kind, other: Kind)
    requires k.PageFault? && other.PageFault?
    ensures Faulting(isa, k).Some? ==> Faulting(isa, k).value.0 in {2, 4}
    ensures k.inst != 0 && k.inst == other.inst ==> Faulting(isa, k) == Faulting(isa, other)
    ensures k.inst != 0 && other.inst != 0 && k.inst % 0x1_0000 == other.inst % 0x1_0000 ==>
      Faulting(isa, k).Some? && Faulting(isa, k).value.0 == 2 ==> Faulting(isa, k) == Faulting(isa, other)
    ensures Faulting(isa, k) == None <==>
      if k.inst == 0 then k.fetched.None? || isa.length(k.fetched.value % 0x1_0000) !in {2, 4}
      else isa.length(k.inst % 0x1_0000) !in {2, 4}
  {}

  /** The instruction word that decides, and by how much the pc moves on: two bytes for a compressed
      instruction, decoded from its 16 bits, four for one decoded from all 32. */
  lemma AdvancesPast(isa: Isa, k: Kind, inst: nat, pc: nat)
    requires k.PageFault? && (k.inst == inst != 0 || (k.inst == 0 && k.fetched == Some(inst)))
    ensures isa.length(inst % 0x1_0000) == 2 ==>
      Faulting(isa, k) == Some((2, isa.decode(inst % 0x1_0000))) && PcAfter(isa, k, pc) == (pc + 2) % TWO64
    ensures isa.length(inst % 0x1_0000) == 4 ==>
      Faulting(isa, k) == Some((4, isa.decode(inst))) && PcAfter(isa, k, pc) == (pc + 4) % TWO64
  {}

  /** An access the PLIC emulation completes. */
  predicate Emulated(isa: Isa, k: Kind)
    requires k.PageFault?
  {
    && PLIC_BASE <= k.addr < PLIC_BASE + PLIC_SIZE && Faulting(isa, k).Some?
    && match Faulting(isa, k).value.1
       case Sw(rs2) => rs2 < 32 && !RegAt(k.addr - PLIC_BASE).Unmodelled?
       case Lw(rd) => rd < 32 && RegAt(k.addr - PLIC_BASE).Claim?
       case _ => false
  }

  /** The exits that are handled; any other ends in a panic. */
  predicate Handled(isa: Isa, k: Kind, hstatus: nat) {
    HandledAs(isa, k, Bit(hstatus, SPVP))
  }

  predicate HandledAs(isa: Isa, k: Kind, supervisor: bool) {
    match k
    case Ecall(msg) => msg.Some? && !msg.value.Unsupported?
    case PageFault(_, _, _) => supervisor && Emulated(isa, k)
    case TimerIrq => true
    case ExternalIrq(irq) => irq != 0
    case Breakpoint(_, _) => true
    case Unhandled => false
  }

  /** Interrupts and breakpoints are always handled, a claim of interrupt zero never; a hypercall if it
      decodes to a supported one; a page fault from supervisor mode, bit 8 of hstatus, if emulated. */
  lemma HandledExits(isa: Isa, k: Kind, hstatus: nat)
    ensures k.TimerIrq? || k.Breakpoint? ==> Handled(isa, k, hstatus)
    ensures k.ExternalIrq? ==> (Handled(isa, k, hstatus) <==> k.irq > 0)
    ensures k.Ecall? ==> (Handled(isa, k, hstatus) <==> k.msg != None && k.msg != Some(Unsupported))
    ensures k.PageFault? ==> (Handled(isa, k, hstatus) <==> Bit(hstatus, 8) && Emulated(isa, k))
    ensures k.Unhandled? ==> !Handled(isa, k, hstatus)
  {}

  /** Register writes: x0 ignores them. */
  function SetReg(x: seq<nat>, r: nat, v: nat): seq<nat>
    requires |x| == 32 && r < 32
  {
    if r == 0 then x else x[r := v]
  }

  /** The registers the guest resumes with. A debugger's register writes do not survive. */
  function RegsAfter(isa: Isa, k: Kind, x: seq<nat>, claims: seq<nat>): (r: seq<nat>)
    requires |x| == 32 && |claims| == MAX_CONTEXTS
    ensures |r| == 32
  {
    match k
    case Ecall(Some(Base(v))) => x[A1 := v][A0 := 0]
    case Ecall(Some(GetChar(c))) => x[A1 := c]
    case Ecall(Some(RemoteFence(e, v))) => x[A0 := e][A1 := v]
    case Ecall(Some(PmuCount(n))) => x[A0 := 0][A1 := n]
    case Ecall(Some(PmuCall(e, v))) => x[A0 := e][A1 := v]
    case PageFault(_, _, _) =>
      if Emulated(isa, k) && Faulting(isa, k).value.1.Lw?
      then SetReg(x, Faulting(isa, k).value.1.rd, claims[RegAt(k.addr - PLIC_BASE).context])
      else x
    case _ => x
  }

  /** The pc it resumes at; a debugger's pc write survives. */
  function PcAfter(isa: Isa, k: Kind, pc: nat): nat {
    match k
    case Ecall(_) => (pc + 4) % TWO64
    case PageFault(_, _, _) => if Faulting(isa, k).Some? then (pc + Faulting(isa, k).value.0) % TWO64 else pc
    case Breakpoint(_, pc') => pc'
    case _ => pc
  }

  /** The registers an exit may change: a0 and a1 on a hypercall, the destination of an emulated
      load, none otherwise. */
  function Writable(isa: Isa, k: Kind): set<nat> {
    match k
    case Ecall(_) => {A0, A1}
    case PageFault(_, _, _) =>
      if Faulting(isa, k).Some? && Faulting(isa, k).value.1.Lw? then {Faulting(isa, k).value.1.rd} else {}
    case _ => {}
  }

  /** Every handled exit leaves the other registers and x0 alone, and moves the pc by 4 on a
      hypercall, by 2 or 4 on an emulated access, and not at all on an interrupt. */
  lemma BoundedEffect(isa: Isa, k: Kind, t: Trap, claims: seq<nat>, r: nat)
    requires |t.x| == 32 && |claims| == MAX_CONTEXTS && Handled(isa, k, t.hstatus) && r < 32
    ensures r == 0 || r !in Writable(isa, k) ==> RegsAfter(isa, k, t.x, claims)[r] == t.x[r]
    ensures k.Ecall? ==> PcAfter(isa, k, t.sepc) == (t.sepc + 4) % TWO64
    ensures k.PageFault? ==> PcAfter(isa, k, t.sepc) in {(t.sepc + 2) % TWO64, (t.sepc + 4) % TWO64}
    ensures k.TimerIrq? || k.ExternalIrq? ==> PcAfter(isa, k, t.sepc) == t.sepc
    ensures k.Breakpoint? ==> PcAfter(isa, k, t.sepc) == k.pc
    ensures k.PageFault? ==> Bit(t.hstatus, 8) && 0xC20_0000 <= k.addr < 0xC21_0000
  {}

  /** x10 takes the firmware's error and x11 its value; a base call succeeds, and a character read
      leaves x10 alone. */
  lemma FirmwareAnswers(isa: Isa, msg: Sbi, x: seq<nat>, claims: seq<nat>)
    requires |x| == 32 && |claims| == MAX_CONTEXTS
    ensures var r := RegsAfter(isa, Ecall(Some(msg)), x, claims);
      match msg
      case Base(v) => r[10] == 0 && r[11] == v
      case GetChar(c) => r[10] == x[10] && r[11] == c
      case RemoteFence(e, v) => r[10] == e && r[11] == v
      case PmuCount(n) => r[10] == 0 && r[11] == n
      case PmuCall(e, v) => r[10] == e && r[11] == v
      case _ => r == x
  {}

  /** A load of context `i`'s claim register gives the guest the claimed interrupt. */
  lemma ClaimLoad(isa: Isa, k: Kind, i: nat, len: nat, rd: nat, x: seq<nat>, claims: seq<nat>)
    requires k.PageFault? && i < 16 && k.addr == 0xC20_0004 + 0x1000 * i
    requires Faulting(isa, k) == Some((len, Lw(rd))) && 0 < rd < 32 && |x| == 32 && |claims| == MAX_CONTEXTS
    ensures RegsAfter(isa, k, x, claims) == x[rd := claims[i]]
  {
    MemoryMap(i, k.addr - PLIC_BASE);
  }

  /** The registers after the hypercall handlers, write by write. */
  method CallFirmware(msg: Sbi, x: seq<nat>) returns (ok: bool, gprs: seq<nat>)
    requires |x| == 32
    ensures ok <==> !msg.Unsupported?
    ensures |gprs| == 32 && forall r :: 0 <= r < 32 && r != A0 && r != A1 ==> gprs[r] == x[r]
    ensures ok ==> forall isa, claims: seq<nat> :: |claims| == MAX_CONTEXTS ==>
      gprs == RegsAfter(isa, Ecall(Some(msg)), x, claims)
  {
    gprs := x;
    ok := true;
    match msg {
      case Base(v) =>
        gprs := SetReg(gprs, A1, v);
        gprs := SetReg(gprs, A0, 0);
      case GetChar(c) => gprs := SetReg(gprs, A1, c);
      case PutChar =>
      case SetTimer =>
      case Reset =>
      case RemoteFence(e, v) =>
        gprs := SetReg(gprs, A0, 0);
        gprs := SetReg(gprs, A0, e);
        gprs := SetReg(gprs, A1, v);
      case PmuCount(n) =>
        gprs := SetReg(gprs, A0, 0);
        gprs := SetReg(gprs, A1, n);
      case PmuCall(e, v) =>
        gprs := SetReg(gprs, A0, 0);
        gprs := SetReg(gprs, A0, e);
        gprs := SetReg(gprs, A1, v);
      case Unsupported => ok := false;
    }
  }

  /** Fetch, measure and decode the instruction that faulted. */
  method Decode(isa: Isa, k: Kind) returns (r: Option<(nat, Decoded)>)
    requires k.PageFault?
    ensures r == Faulting(isa, k)
  {
    var inst := k.inst;
    if inst == 0 {
      if k.fetched.None? { return None; }
      inst := k.fetched.value;
    }
    var i1 := inst % 0x1_0000;
    var len := isa.length(i1);
    if len == 2 {
      inst := i1;
    } else if len != 4 {
      return None;
    }
    r := Some((len, isa.decode(inst)));
  }

  // ---- the loop ----

  class Vm {
    const csrs: Csrs
    const plic: PlicState
    const core: Core
    const isa: Isa
    /** The loop's copy of the guest's registers. */
    var gprs: seq<nat>

    ghost function View(): Lines reads csrs, plic {
      Lines(csrs.TimerPending(), csrs.ExternalPending(), plic.claims)
    }

    /** The guest's timer line is up exactly while the host's timer is off, external interrupts
        have a claim, x0 is zero, and the block pointer is where the world switch needs it. */
    ghost predicate Valid() reads this, csrs, plic, core {
      && plic.csrs == csrs && plic.Valid() && (csrs.TimerPending() <==> !csrs.HostTimer())
      && core.View().Valid() && core.x[A0] == core.base && core.block[37] == 0
      && |gprs| == 32 && gprs[0] == 0
    }

    constructor (hvip: nat, h: Hart, i: Isa)
      requires h.Valid() && h.x[A0] == h.base && h.block[37] == 0
      ensures Valid() && core.View() == h && isa == i && View() == QUIET
      ensures fresh(csrs) && fresh(plic) && fresh(core)
    {
      var c := new Csrs.Setup(hvip);
      csrs := c;
      plic := new PlicState(c);
      core := new Core(h);
      isa := i;
      gprs := seq(32, _ => 0);
    }

    /** `save_gprs`: from the block into the loop's copy. */
    method SaveGprs()
      requires Valid()
      modifies this`gprs
      ensures |gprs| == 32 && gprs[0] == 0 && forall k :: 1 <= k < 32 ==> gprs[k] == core.block[37 + k]
    {
      for index := 0 to 32
        invariant |gprs| == 32 && gprs[0] == 0
        invariant forall k :: 1 <= k < index ==> gprs[k] == core.block[37 + k]
      {
        gprs := SetReg(gprs, index, core.block[37 + index]);
      }
    }

    /** `restore_gprs`: the given registers into the block, x0's slot excepted. */
    method RestoreGprs(from: seq<nat>)
      requires core.View().Valid() && |from| == 32
      modifies core`block
      ensures core.View() == old(core.View()).(block := core.block) && |core.block| == BLOCK_WORDS
      ensures forall j {:trigger core.block[j]} :: 0 <= j < BLOCK_WORDS ==>
        core.block[j] == if 38 <= j < 69 then from[j - 37] else old(core.block)[j]
    {
      for index := 0 to 32
        invariant |core.block| == BLOCK_WORDS
        invariant forall j {:trigger core.block[j]} :: 0 <= j < BLOCK_WORDS ==>
          core.block[j] == if 38 <= j < 37 + index then from[j - 37] else old(core.block)[j]
      {
        if index != 0 {
          core.block := core.block[37 + index := from[index]];
        }
      }
    }

    /** The hypercall arm: the loop's copy changes, and a new deadline re-arms the timer. */
    method HandleEcall(msg: Option<Sbi>) returns (ok: bool)
      requires Valid()
      modifies this`gprs, csrs
      ensures Valid() && View() == NextLines(isa, Ecall(msg), old(View()))
      ensures ok <==> HandledAs(isa, Ecall(msg), true)
      ensures ok ==> gprs == RegsAfter(isa, Ecall(msg), old(gprs), plic.claims)
    {
      if msg.None? { return false; }
      ok, gprs := CallFirmware(msg.value, gprs);
      if msg.value.SetTimer? {
        csrs.RearmTimer();
      }
    }

    /** The store arm: the low half of the register goes to the PLIC. */
    method StoreToPlic(k: Kind, rs2: nat) returns (ok: bool)
      requires Valid() && k.PageFault? && PLIC_BASE <= k.addr < PLIC_BASE + PLIC_SIZE
      requires Faulting(isa, k).Some? && Faulting(isa, k).value.1 == Sw(rs2)
      modifies plic, csrs`hvip
      ensures Valid() && (ok <==> Emulated(isa, k))
      ensures ok ==> View() == NextLines(isa, k, old(View()))
      ensures ok ==> plic.forwarded == old(plic.forwarded) + Forwards(isa, k, gprs)
    {
      if rs2 >= 32 { return false; }
      ok := plic.WriteU32(k.addr - PLIC_BASE, gprs[rs2] % 0x1_0000_0000);
    }

    /** `handle_page_fault` and `handle_plic`: the instruction's length, or `None` on any error. */
    method HandlePageFault(k: Kind) returns (len: Option<nat>)
      requires Valid() && k.PageFault?
      modifies this`gprs, plic, csrs`hvip
      ensures Valid()
      ensures len.Some? <==> Emulated(isa, k)
      ensures len.Some? ==> len.value == Faulting(isa, k).value.0
      ensures len.Some? ==> gprs == RegsAfter(isa, k, old(gprs), old(plic.claims))
      ensures len.Some? ==> View() == NextLines(isa, k, old(View()))
      ensures len.Some? ==> plic.forwarded == old(plic.forwarded) + Forwards(isa, k, old(gprs))
    {
      if !(PLIC_BASE <= k.addr < PLIC_BASE + PLIC_SIZE) { return None; }
      var decoded := Decode(isa, k);
      if decoded.None? { return None; }
      var (l, inst) := decoded.value;
      match inst {
        case Sw(rs2) =>
          var ok := StoreToPlic(k, rs2);
          if !ok { return None; }
        case Lw(rd) =>
          var val := plic.ReadU32(k.addr - PLIC_BASE);
          if val.None? || rd >= 32 { return None; }
          gprs := SetReg(gprs, rd, val.value);
        case _ => return None;
      }
      len := Some(l);
    }

    /** One turn of the loop: the guest runs until it traps as `t` says, for the reason `k`. The
        guest resumes as if it had trapped with the emulated state; the hypervisor's own state is
        as before. `false` is a panic. */
    method Turn(exit: nat, t: Trap, k: Kind) returns (ok: bool)
      requires Valid() && |t.x| == 32 && (k.Breakpoint? ==> |k.x| == 32)
      modifies this, csrs, plic, core
      ensures ok <==> Handled(isa, k, t.hstatus)
      ensures ok ==> Valid() && HypRestored(old(core.View()), core.View())
      ensures ok ==> GuestSaved(core.View(),
        t.(x := RegsAfter(isa, k, t.x[0 := 0], old(plic.claims)), sepc := PcAfter(isa, k, t.sepc)))
      ensures ok ==> View() == NextLines(isa, k, old(View()))
      ensures ok ==> plic.forwarded == old(plic.forwarded) + Forwards(isa, k, t.x[0 := 0])
    {
      RunVcpu(exit, t);
      ghost var trapped := core.View();
      var len;
      ok, len := Dispatch(k, Bit(t.hstatus, SPVP));
      if !ok { return; }
      ghost var mid := core.View();
      Resume(len);
      RestoredBlock(old(core.View()), trapped, mid, core.View());
      ResumesWith(trapped, core.View(), t, gprs, PcAfter(isa, k, t.sepc));
    }

    /** The start of a turn: run the guest until it traps, and copy its registers out. */
    method RunVcpu(exit: nat, t: Trap)
      requires Valid() && |t.x| == 32
      modifies this`gprs, core
      ensures Valid() && gprs == t.x[0 := 0]
      ensures HypRestored(old(core.View()), core.View()) && GuestSaved(core.View(), t) && core.block[72] == t.sepc
    {
      core.CallGuest(exit, t);
      SaveGprs();
      CopiedRegs(t.x, gprs, core.View());
      assert core.block[69..][3] == core.block[72];
    }

    /** The match on the exit: `len` is by how much the pc then advances. Only a debugger touches
        the block here. */
    method Dispatch(k: Kind, supervisor: bool) returns (ok: bool, len: nat)
      requires Valid() && (k.Breakpoint? ==> |k.x| == 32)
      modifies this`gprs, csrs, plic, core`block
      ensures ok <==> HandledAs(isa, k, supervisor)
      ensures ok ==> Valid() && gprs == RegsAfter(isa, k, old(gprs), old(plic.claims))
      ensures ok ==> core.View() == old(core.View()).(block := core.block) && SameButGuest(old(core.block), core.block)
      ensures ok ==> if len == 0 then core.block[72] == PcAfter(isa, k, old(core.block[72]))
                     else && core.block[72] == old(core.block[72])
                          && PcAfter(isa, k, core.block[72]) == (core.block[72] + len) % TWO64
      ensures ok ==> View() == NextLines(isa, k, old(View()))
      ensures ok ==> plic.forwarded == old(plic.forwarded) + Forwards(isa, k, old(gprs))
    {
      len := 0;
      match k {
        case Ecall(msg) =>
          ok := HandleEcall(msg);
          len := 4;
        case PageFault(_, _, _) =>
          if !supervisor { return false, 0; }
          var l := HandlePageFault(k);
          if l.None? { return false, 0; }
          ok, len := true, l.value;
        case TimerIrq =>
          csrs.RaiseTimer();
          ok := true;
        case ExternalIrq(irq) => ok := plic.HandleIrq(irq);
        case Breakpoint(x, pc) =>
          RestoreGprs(x);
          core.block := core.block[72 := pc];
          ok := true;
        case Unhandled => ok := false;
      }
    }

    /** Any number of turns; `false` is a panic on the way. The guest resumes with what the last turn
        made of its trap state, the lines are what the history says, and the hypervisor is where it
        was. */
    method Run(exit: nat, turns: seq<(Trap, Kind)>) returns (ok: bool)
      requires Valid() && TurnsOk(turns)
      modifies this, csrs, plic, core
      ensures ok <==> forall i :: 0 <= i < |turns| ==> Handled(isa, turns[i].1, turns[i].0.hstatus)
      ensures ok ==> Valid() && HypRestored(old(core.View()), core.View())
      ensures ok ==> View() == LinesAfter(isa, Kinds(turns), old(View()))
      ensures ok && turns != [] ==> GuestSaved(core.View(), LastState(isa, turns, old(View())))
      ensures ok ==> plic.forwarded == old(plic.forwarded) + ForwardsBy(isa, turns)
    {
      ok := RunTurns(exit, turns);
      EachHandled(isa, turns);
    }

    method RunTurns(exit: nat, turns: seq<(Trap, Kind)>) returns (ok: bool)
      requires Valid() && TurnsOk(turns)
      modifies this, csrs, plic, core
      ensures ok <==> AllHandled(isa, turns)
      ensures ok ==> Valid() && HypRestored(old(core.View()), core.View())
      ensures ok ==> View() == LinesAfter(isa, Kinds(turns), old(View()))
      ensures ok && turns != [] ==> GuestSaved(core.View(), LastState(isa, turns, old(View())))
      ensures ok ==> plic.forwarded == old(plic.forwarded) + ForwardsBy(isa, turns)
      decreases |turns|
    {
      if turns == [] { return true; }
      var n := |turns| - 1;
      var (t, k) := turns[n];
      ghost var first := core.View();
      ok := RunTurns(exit, turns[..n]);
      if ok {
        ghost var mid := core.View();
        assert Kinds(turns)[..n] == Kinds(turns[..n]);
        ok := Turn(exit, t, k);
        if ok {
          RestoredChain(first, mid, core.View());
          Joined(old(plic.forwarded), ForwardsBy(isa, turns[..n]), Forwards(isa, k, t.x[0 := 0]));
        }
      }
    }

    /** The end of a turn: the loop's copy goes back into the block and the pc advances. */
    method Resume(len: nat)
      requires Valid()
      modifies core`block
      ensures Valid() && core.View() == old(core.View()).(block := core.block)
      ensures core.block[72] == if len == 0 then old(core.block[72]) else (old(core.block[72]) + len) % TWO64
      ensures forall j {:trigger core.block[j]} :: 0 <= j < 72 ==>
        core.block[j] == if 38 <= j < 69 then gprs[j - 37] else old(core.block)[j]
    {
      RestoreGprs(gprs);
      if len != 0 {
        core.block := core.block[72 := (core.block[72] + len) % TWO64];
      }
    }
  }

  function Kinds(turns: seq<(Trap, Kind)>): seq<Kind> {
    seq(|turns|, i requires 0 <= i < |turns| => turns[i].1)
  }

  predicate AllHandled(isa: Isa, turns: seq<(Trap, Kind)>) {
    if turns == [] then true
    else
      var n := |turns| - 1;
      AllHandled(isa, turns[..n]) && Handled(isa, turns[n].1, turns[n].0.hstatus)
  }

  lemma {:induction false} EachHandled(isa: Isa, turns: seq<(Trap, Kind)>)
    ensures AllHandled(isa, turns) <==> forall i :: 0 <= i < |turns| ==> Handled(isa, turns[i].1, turns[i].0.hstatus)
  {
    if turns != [] { EachHandled(isa, turns[..|turns| - 1]); }
  }

  predicate TurnsOk(turns: seq<(Trap, Kind)>) {
    forall i :: 0 <= i < |turns| ==> |turns[i].0.x| == 32 && (turns[i].1.Breakpoint? ==> |turns[i].1.x| == 32)
  }

  /** What an exit passes on to the real PLIC: the offset and the low 32 bits of the stored register,
      if the store is to a threshold or a claim register. */
  function Forwards(isa: Isa, k: Kind, x: seq<nat>): seq<(nat, nat)>
    requires |x| == 32
  {
    if Written(isa, k).Threshold? || Written(isa, k).Claim?
    then [(k.addr - PLIC_BASE, x[Faulting(isa, k).value.1.rs2] % 0x1_0000_0000)] else []
  }

  function ForwardsBy(isa: Isa, turns: seq<(Trap, Kind)>): seq<(nat, nat)>
    requires TurnsOk(turns)
  {
    if turns == [] then []
    else
      var n := |turns| - 1;
      ForwardsBy(isa, turns[..n]) + Forwards(isa, turns[n].1, turns[n].0.x[0 := 0])
  }

  lemma Joined(a: seq<(nat, nat)>, b: seq<(nat, nat)>, c: seq<(nat, nat)>)
    ensures a + b + c == a + (b + c)
  {}

  /** A store to a threshold or a claim register is passed on with that register's offset and the
      stored word; no load and no other exit is. */
  lemma StorePassesOn(isa: Isa, k: Kind, i: nat, len: nat, rs2: nat, x: seq<nat>)
    requires k.PageFault? && i < 16 && |x| == 32 && rs2 < 32
    requires k.addr == 0xC20_0000 + 0x1000 * i || k.addr == 0xC20_0004 + 0x1000 * i
    ensures Faulting(isa, k) == Some((len, Sw(rs2))) ==>
      Forwards(isa, k, x) == [(k.addr - 0xC00_0000, x[rs2] % 0x1_0000_0000)]
    ensures Faulting(isa, k) == Some((len, Lw(rs2))) ==> Forwards(isa, k, x) == []
    ensures forall l: Kind :: !l.PageFault? ==> Forwards(isa, l, x) == []
  {
    MemoryMap(i, k.addr - PLIC_BASE);
  }

  /** The state the guest resumes with after a run: its last trap state, emulated. */
  function LastState(isa: Isa, turns: seq<(Trap, Kind)>, l: Lines): Trap
    requires turns != [] && TurnsOk(turns) && |l.claims| == MAX_CONTEXTS
  {
    var n := |turns| - 1;
    var (t, k) := turns[n];
    var claims := LinesAfter(isa, Kinds(turns)[..n], l).claims;
    t.(x := RegsAfter(isa, k, t.x[0 := 0], claims), sepc := PcAfter(isa, k, t.sepc))
  }

  /** Only the guest's registers and pc may differ. */
  ghost predicate SameButGuest(b: seq<nat>, b': seq<nat>) {
    && |b| == |b'| == BLOCK_WORDS
    && forall j {:trigger b'[j]} :: 0 <= j < BLOCK_WORDS && !(38 <= j < 69) && j != 72 ==> b'[j] == b[j]
  }

  lemma RestoredBlock(h: Hart, trapped: Hart, mid: Hart, r: Hart)
    requires HypRestored(h, trapped) && r.Valid()
    requires mid == trapped.(block := mid.block) && r == mid.(block := r.block)
    ensures HypRestored(h, r)
  {}

  lemma CopiedRegs(x: seq<nat>, gprs: seq<nat>, h: Hart)
    requires |x| == |gprs| == 32 && h.Valid() && gprs[0] == 0
    requires forall k :: 1 <= k < 32 ==> gprs[k] == h.block[37 + k] == x[k]
    ensures gprs == x[0 := 0]
  {}

  /** The block after a turn stands for the trap state with the new registers and pc. */
  lemma ResumesWith(h: Hart, r: Hart, t: Trap, x: seq<nat>, pc: nat)
    requires GuestSaved(h, t) && r.Valid() && |x| == 32
    requires forall j {:trigger r.block[j]} :: 38 <= j < 72 ==> r.block[j] == if j < 69 then x[j - 37] else h.block[j]
    requires r.block[72] == pc
    ensures GuestSaved(r, t.(x := x, sepc := pc))
  {}

  // ---- the interrupt lines over a run ----

  /** The guest's timer line, its external line, and the claims of the PLIC's contexts. */
  datatype Lines = Lines(timer: bool, external: bool, claims: seq<nat>)

  const QUIET: Lines := Lines(false, false, seq(MAX_CONTEXTS, _ => 0))

  /** The PLIC register an exit writes, if it does. */
  function Written(isa: Isa, k: Kind): PlicReg {
    if k.PageFault? && Emulated(isa, k) && Faulting(isa, k).value.1.Sw? then RegAt(k.addr - PLIC_BASE) else Ignored
  }

  /** Exactly which accesses are emulated: word stores to the contexts' pages and word loads of a
      claim register, from and to one of the 32 registers. A store to a claim register completes. */
  lemma EmulatedAccesses(isa: Isa, k: Kind, len: nat, d: Decoded, i: nat)
    requires k.PageFault? && Faulting(isa, k) == Some((len, d)) && i < 16
    ensures d.Sw? ==> (Emulated(isa, k) <==> d.rs2 < 32 && 0xC20_0000 <= k.addr < 0xC21_0000)
    ensures d.Lw? ==>
      (Emulated(isa, k) <==> d.rd < 32 && 0xC20_0000 <= k.addr < 0xC21_0000 && k.addr % 0x1000 / 4 == 1)
    ensures !d.Sw? && !d.Lw? ==> !Emulated(isa, k)
    ensures k.addr == 0xC20_0004 + 0x1000 * i && d.Sw? && d.rs2 < 32 ==> Written(isa, k) == Claim(i)
    ensures Written(isa, k).Claim? ==> d.Sw? && k.addr % 0x1000 / 4 == 1
  {
    if k.addr >= PLIC_BASE { MemoryMap(i, k.addr - PLIC_BASE); }
  }

  /** The host timer raises the timer line and a new deadline lowers it. A claimed interrupt is
      context 1's and raises the external line; a completion clears its context's claim and lowers
      the line. */
  function NextLines(isa: Isa, k: Kind, l: Lines): (r: Lines)
    requires |l.claims| == MAX_CONTEXTS
    ensures |r.claims| == MAX_CONTEXTS
  {
    var w := Written(isa, k);
    Lines(k.TimerIrq? || (k != Ecall(Some(SetTimer)) && l.timer),
          k.ExternalIrq? || (!w.Claim? && l.external),
          if k.ExternalIrq? then l.claims[1 := k.irq] else if w.Claim? then l.claims[w.context := 0] else l.claims)
  }

  function LinesAfter(isa: Isa, ks: seq<Kind>, l: Lines): (r: Lines)
    requires |l.claims| == MAX_CONTEXTS
    ensures |r.claims| == MAX_CONTEXTS
  {
    if ks == [] then l else NextLines(isa, ks[|ks| - 1], LinesAfter(isa, ks[..|ks| - 1], l))
  }

  /** Exit `i` raised the timer line and no later exit set a deadline. */
  ghost predicate TimerSince(ks: seq<Kind>, i: int) {
    0 <= i < |ks| && ks[i].TimerIrq? && forall j :: i < j < |ks| ==> ks[j] != Ecall(Some(SetTimer))
  }

  /** Exit `i` claimed an interrupt and no later exit completed one, in any context. */
  ghost predicate ExternalSince(isa: Isa, ks: seq<Kind>, i: int) {
    0 <= i < |ks| && ks[i].ExternalIrq? && forall j :: i < j < |ks| ==> !Written(isa, ks[j]).Claim?
  }

  /** Exit `i` claimed an interrupt and no later exit completed one in context 1. */
  ghost predicate ClaimSince(isa: Isa, ks: seq<Kind>, i: int) {
    0 <= i < |ks| && ks[i].ExternalIrq? && forall j :: i < j < |ks| ==> Written(isa, ks[j]) != Claim(1)
  }

  ghost predicate RealIrqs(ks: seq<Kind>) { forall j :: 0 <= j < |ks| && ks[j].ExternalIrq? ==> ks[j].irq != 0 }

  /** After every run from the set-up, the lines are exactly what its history says. */
  lemma {:induction false} LinesMeanHistory(isa: Isa, ks: seq<Kind>)
    requires RealIrqs(ks)
    ensures var l := LinesAfter(isa, ks, QUIET);
      && (l.timer <==> exists i :: TimerSince(ks, i))
      && (l.external <==> exists i :: ExternalSince(isa, ks, i))
      && (l.claims[1] != 0 <==> exists i :: ClaimSince(isa, ks, i))
      && forall c :: 0 <= c < MAX_CONTEXTS && c != 1 ==> l.claims[c] == 0
  {
    if ks != [] {
      var n := |ks| - 1;
      LinesMeanHistory(isa, ks[..n]);
      TimerSinceStep(ks);
      ExternalSinceStep(isa, ks);
      ClaimSinceStep(isa, ks);
    }
  }

  lemma TimerSinceStep(ks: seq<Kind>)
    requires ks != []
    ensures var n := |ks| - 1;
      (exists i :: TimerSince(ks, i)) <==>
      ks[n].TimerIrq? || (ks[n] != Ecall(Some(SetTimer)) && exists i :: TimerSince(ks[..n], i))
  {
    var n := |ks| - 1;
    if ks[n].TimerIrq? { assert TimerSince(ks, n); }
    if i :| TimerSince(ks[..n], i) && ks[n] != Ecall(Some(SetTimer)) { assert TimerSince(ks, i); }
    if i :| TimerSince(ks, i) && i < n { assert TimerSince(ks[..n], i); }
  }

  lemma ExternalSinceStep(isa: Isa, ks: seq<Kind>)
    requires ks != []
    ensures var n := |ks| - 1;
      (exists i :: ExternalSince(isa, ks, i)) <==>
      ks[n].ExternalIrq? || (!Written(isa, ks[n]).Claim? && exists i :: ExternalSince(isa, ks[..n], i))
  {
    var n := |ks| - 1;
    if ks[n].ExternalIrq? { assert ExternalSince(isa, ks, n); }
    if i :| ExternalSince(isa, ks[..n], i) && !Written(isa, ks[n]).Claim? { assert ExternalSince(isa, ks, i); }
    if i :| ExternalSince(isa, ks, i) && i < n { assert ExternalSince(isa, ks[..n], i); }
  }

  lemma ClaimSinceStep(isa: Isa, ks: seq<Kind>)
    requires ks != []
    ensures var n := |ks| - 1;
      (exists i :: ClaimSince(isa, ks, i)) <==>
      ks[n].ExternalIrq? || (Written(isa, ks[n]) != Claim(1) && exists i :: ClaimSince(isa, ks[..n], i))
  {
    var n := |ks| - 1;
    if ks[n].ExternalIrq? { assert ClaimSince(isa, ks, n); }
    if i :| ClaimSince(isa, ks[..n], i) && Written(isa, ks[n]) != Claim(1) { assert ClaimSince(isa, ks, i); }
    if i :| ClaimSince(isa, ks, i) && i < n { assert ClaimSince(isa, ks[..n], i); }
  }

  /** The last claimed interrupt is stranded: not completed in context 1, but completed in another
      context, which lowered the line. */
  ghost predicate Stranded(isa: Isa, ks: seq<Kind>, i: int) {
    && 0 <= i < |ks| && ks[i].ExternalIrq?
    && (forall j :: i < j < |ks| ==> !ks[j].ExternalIrq? && Written(isa, ks[j]) != Claim(1))
    && exists j :: i < j < |ks| && Written(isa, ks[j]).Claim?
  }

  /** After every run from the set-up, line and claim disagree exactly when the last claimed
      interrupt is stranded; then the claim is held and the line is down. */
  lemma LineAndClaimAgree(isa: Isa, ks: seq<Kind>)
    requires RealIrqs(ks)
    ensures var l := LinesAfter(isa, ks, QUIET);
      && (l.external ==> l.claims[1] != 0)
      && (!l.external && l.claims[1] != 0 <==> exists i :: Stranded(isa, ks, i))
  {
    LinesMeanHistory(isa, ks);
    if i :| ExternalSince(isa, ks, i) { assert ClaimSince(isa, ks, i); }
    if i :| ClaimSince(isa, ks, i) && !LinesAfter(isa, ks, QUIET).external {
      var last := LastIrq(ks, i);
      assert !ExternalSince(isa, ks, last);
      assert Stranded(isa, ks, last);
    }
    if i :| Stranded(isa, ks, i) { StrandedDisagrees(isa, ks, i); }
  }

  lemma StrandedDisagrees(isa: Isa, ks: seq<Kind>, i: int)
    requires Stranded(isa, ks, i)
    ensures ClaimSince(isa, ks, i) && forall k :: !ExternalSince(isa, ks, k)
  {
    var j :| i < j < |ks| && Written(isa, ks[j]).Claim?;
    forall k ensures !ExternalSince(isa, ks, k) {
      assert k > i ==> !(k < |ks| && ks[k].ExternalIrq?);
    }
  }

  lemma LastIrq(ks: seq<Kind>, i: int) returns (last: int)
    requires 0 <= i < |ks| && ks[i].ExternalIrq?
    ensures i <= last < |ks| && ks[last].ExternalIrq? && forall j :: last < j < |ks| ==> !ks[j].ExternalIrq?
  {
    last := i;
    for j := i + 1 to |ks|
      invariant i <= last < j && ks[last].ExternalIrq?
      invariant forall k :: last < k < j ==> !ks[k].ExternalIrq?
    {
      if ks[j].ExternalIrq? { last := j; }
    }
  }

  /** A run that does it: an interrupt is claimed, and the guest completes it in context 0. */
  lemma CompletionInAnotherContext(isa: Isa, irq: nat, store: Kind, rs2: nat)
    requires irq != 0 && rs2 < 32 && store.PageFault? && store.addr == 0xC20_0004
    requires Faulting(isa, store) == Some((4, Sw(rs2)))
    ensures var l := LinesAfter(isa, [ExternalIrq(irq), store], QUIET); !l.external && l.claims[1] == irq
  {
    var ks := [ExternalIrq(irq), store];
    assert ks[..1] == [ExternalIrq(irq)] && [ExternalIrq(irq)][..0] == [];
    assert Written(isa, store) == Claim(0);
  }

  /** The claim held is the last interrupt's number. */
  lemma {:induction false} HeldClaim(isa: Isa, ks: seq<Kind>, i: nat)
    requires ClaimSince(isa, ks, i) && forall j :: i < j < |ks| ==> !ks[j].ExternalIrq?
    ensures LinesAfter(isa, ks, QUIET).claims[1] == ks[i].irq
    decreases |ks|
  {
    var n := |ks| - 1;
    if i < n {
      assert Written(isa, ks[n]) != Claim(1);
      HeldClaim(isa, ks[..n], i);
    }
  }

  /** Over a whole run: when an interrupt was claimed, none since, and it is not yet completed, the
      guest that reads its claim register resumes with that interrupt's number. */
  lemma GuestLearnsInterrupt(isa: Isa, turns: seq<(Trap, Kind)>, i: nat, irq: nat, len: nat, rd: nat)
    requires TurnsOk(turns) && i < |turns| - 1 && turns[i].1 == ExternalIrq(irq)
    requires forall j :: i < j < |turns| ==> !turns[j].1.ExternalIrq? && Written(isa, turns[j].1) != Claim(1)
    requires var load := turns[|turns| - 1].1;
      load.PageFault? && load.addr == 0xC20_1004 && Faulting(isa, load) == Some((len, Lw(rd))) && 0 < rd < 32
    ensures LastState(isa, turns, QUIET).x[rd] == irq
  {
    var n := |turns| - 1;
    var (t, k) := turns[n];
    var ks := Kinds(turns)[..n];
    HeldClaim(isa, ks, i);
    ClaimLoad(isa, k, 1, len, rd, t.x[0 := 0], LinesAfter(isa, ks, QUIET).claims);
  }
}
