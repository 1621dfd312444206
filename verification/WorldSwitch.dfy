/** The world switch of `riscv/guest.S` through the `VmCpuRegisters` block of `riscv/vcpu.rs`:
    the two straight-line programs as lists of instructions, and a machine that runs them. */
module WorldSwitch {

  // ---- the block ----

  /** The two halves of the block: the hypervisor's state and the guest's. */
  datatype Area = Hyp | Guest

  const SP := 2
  const T0 := 5
  const T1 := 6
  const A0 := 10

  /** The CSRs the switch touches. */
  const SSTATUS := 0
  const HSTATUS := 1
  const SCOUNTEREN := 2
  const SEPC := 3
  const STVEC := 4
  const SSCRATCH := 5

  /** Byte offset of a general-purpose register's slot. The guest's half follows the hypervisor's
      32 registers and five CSRs. */
  function GprOffset(area: Area, r: nat): nat {
    (if area.Hyp? then 0 else 296) + 8 * r
  }

  /** Byte offset of a CSR's slot: declaration order, behind the 32 registers. */
  function CsrOffset(area: Area, c: nat): nat {
    GprOffset(area, 32) + if c <= SCOUNTEREN then 8 * c else if c == SSCRATCH then 32 else 24
  }

  /** Words of the block the switch uses. */
  const BLOCK_WORDS := 73

  // ---- the machine ----

  /** Registers, CSRs and the words of the block that starts at `base`. `ok` turns false when an
      access is not to a word of the block. */
  datatype Hart = Hart(x: seq<nat>, csr: seq<nat>, block: seq<nat>, base: nat, ok: bool) {
    predicate Valid() {
      |x| == 32 && |csr| == 6 && |block| == BLOCK_WORDS
    }

    predicate InBlock(off: nat)
      requires Valid()
    {
      x[A0] == base && off % 8 == 0 && off / 8 < BLOCK_WORDS
    }
  }

  /** The instructions used; loads and stores are relative to `a0`. */
  datatype Instr =
    | Sd(rs: nat, off: nat)
    | Ld(rd: nat, off: nat)
    | Csrrw(rd: nat, c: nat, rs: nat)
    | Csrr(rd: nat, c: nat)
    | Csrw(c: nat, rs: nat)
    | La(rd: nat, target: nat)
  {
    predicate Ok() {
      match this
      case Sd(rs, _) => rs < 32
      case Ld(rd, _) => 0 < rd < 32
      case Csrrw(rd, c, rs) => 0 < rd < 32 && rs < 32 && c < 6
      case Csrr(rd, c) => 0 < rd < 32 && c < 6
      case Csrw(c, rs) => rs < 32 && c < 6
      case La(rd, _) => 0 < rd < 32
    }
  }

  function Exec(h: Hart, i: Instr): (r: Hart)
    requires h.Valid() && i.Ok()
    ensures r.Valid()
  {
    match i
    case Sd(rs, off) => if h.InBlock(off) then h.(block := h.block[off / 8 := h.x[rs]]) else h.(ok := false)
    case Ld(rd, off) => if h.InBlock(off) then h.(x := h.x[rd := h.block[off / 8]]) else h.(ok := false)
    case Csrrw(rd, c, rs) => h.(x := h.x[rd := h.csr[c]], csr := h.csr[c := h.x[rs]])
    case Csrr(rd, c) => h.(x := h.x[rd := h.csr[c]])
    case Csrw(c, rs) => h.(csr := h.csr[c := h.x[rs]])
    case La(rd, target) => h.(x := h.x[rd := target])
  }

  predicate ProgOk(p: seq<Instr>) {
    forall k :: 0 <= k < |p| ==> p[k].Ok()
  }

  function Run(h: Hart, p: seq<Instr>): (r: Hart)
    requires h.Valid() && ProgOk(p)
    ensures r.Valid()
    decreases |p|
  {
    if p == [] then h else Run(Exec(h, p[0]), p[1..])
  }

  lemma {:induction false} RunAppend(h: Hart, p: seq<Instr>, q: seq<Instr>)
    requires h.Valid() && ProgOk(p) && ProgOk(q)
    ensures Run(h, p + q) == Run(Run(h, p), q)
    decreases |p|
  {
    if p == [] {
      assert p + q == q;
    } else {
      assert (p + q)[1..] == p[1..] + q;
      RunAppend(Exec(h, p[0]), p[1..], q);
    }
  }

  lemma RunOne(h: Hart, p: seq<Instr>, i: Instr)
    requires h.Valid() && ProgOk(p) && i.Ok()
    ensures ProgOk(p + [i]) && Run(h, p + [i]) == Exec(Run(h, p), i)
  {
    RunAppend(h, p, [i]);
    assert [i][1..] == [];
  }

  // ---- the programs ----

  /** ra, gp, tp, s0, s1, a1-a7, s2-s11, in program order. */
  const COMMON: seq<nat> := [1, 3, 4, 8, 9, 11, 12, 13, 14, 15, 16, 17, 18, 19, 20, 21, 22, 23, 24, 25, 26, 27]
  const HYP_SAVED: seq<nat> := COMMON + [SP]
  const GUEST_SAVED: seq<nat> := COMMON + [5, 6, 7, 28, 29, 30, 31, SP]

  function Saves(area: Area, rs: seq<nat>): seq<Instr> {
    seq(|rs|, k requires 0 <= k < |rs| => Sd(rs[k], GprOffset(area, rs[k])))
  }

  function Loads(area: Area, rs: seq<nat>): seq<Instr> {
    seq(|rs|, k requires 0 <= k < |rs| => Ld(rs[k], GprOffset(area, rs[k])))
  }

  /** A CSR takes its value from one area and leaves its old one in the other. */
  function Swap(c: nat, from: Area, to: Area): seq<Instr> {
    [Ld(T1, CsrOffset(from, c)), Csrrw(T1, c, T1), Sd(T1, CsrOffset(to, c))]
  }

  function Swaps(from: Area, to: Area): seq<Instr> {
    Swap(SSTATUS, from, to) + Swap(HSTATUS, from, to) + Swap(SCOUNTEREN, from, to)
  }

  function EntryCsrs(exit: nat): seq<Instr> {
    [Ld(T1, CsrOffset(Guest, SEPC)), Csrw(SEPC, T1),
     La(T1, exit), Csrrw(T1, STVEC, T1), Sd(T1, CsrOffset(Hyp, STVEC)),
     Csrrw(T1, SSCRATCH, A0), Sd(T1, CsrOffset(Hyp, SSCRATCH))]
  }

  const EXIT_CSRS: seq<Instr> :=
    [Ld(T1, CsrOffset(Hyp, STVEC)), Csrw(STVEC, T1),
     Ld(T1, CsrOffset(Hyp, SSCRATCH)), Csrw(SSCRATCH, T1),
     Csrr(T1, SEPC), Sd(T1, CsrOffset(Guest, SEPC))]

  /** `_run_guest` up to its `sret`; `exit` is the address of `_guest_exit`. */
  function RunGuest(exit: nat): seq<Instr> {
    Saves(Hyp, HYP_SAVED) + Swaps(Guest, Hyp) + EntryCsrs(exit)
    + Loads(Guest, GUEST_SAVED) + [Ld(A0, GprOffset(Guest, A0))]
  }

  /** `_guest_exit` up to its `ret`. */
  const GUEST_EXIT: seq<Instr> :=
    [Csrrw(A0, SSCRATCH, A0)] + Saves(Guest, GUEST_SAVED)
    + [Csrr(T0, SSCRATCH), Sd(T0, GprOffset(Guest, A0))]
    + Swaps(Hyp, Guest) + EXIT_CSRS + Loads(Hyp, HYP_SAVED)

  // ---- what the pieces do ----

  predicate Regs(rs: seq<nat>) {
    forall k :: 0 <= k < |rs| ==> 0 < rs[k] < 32 && rs[k] != A0
  }

  /** The first word of an area. */
  function First(area: Area): nat { if area.Hyp? then 0 else 37 }

  /** A slot of the block: a register's or a CSR's. */
  datatype Slot = Gpr(r: nat) | Csr(c: nat)

  predicate SlotOk(area: Area, s: Slot) {
    match s
    case Gpr(r) => r < 32
    case Csr(c) => c < 6 && if area.Hyp? then c != SEPC else c <= SEPC
  }

  function SlotOffset(area: Area, s: Slot): nat {
    match s
    case Gpr(r) => GprOffset(area, r)
    case Csr(c) => CsrOffset(area, c)
  }

  /** No two slots share a word, within an area or across the two, and all are in the block. */
  lemma SlotsDistinct(a: Area, s: Slot, b: Area, t: Slot)
    requires SlotOk(a, s) && SlotOk(b, t)
    ensures SlotOffset(a, s) == SlotOffset(b, t) <==> a == b && s == t
    ensures SlotOffset(a, s) % 8 == 0 && SlotOffset(a, s) / 8 < BLOCK_WORDS
  {}

  /** The state after the registers `rs` were saved into `area`. */
  ghost predicate Saved(h: Hart, r: Hart, area: Area, rs: seq<nat>) {
    && h.Valid() && r.Valid() && r == h.(block := r.block)
    && forall j {:trigger r.block[j]} :: 0 <= j < BLOCK_WORDS ==>
         r.block[j] == if First(area) <= j < First(area) + 32 && (j - First(area)) in rs
                       then h.x[j - First(area)] else h.block[j]
  }

  lemma SaveOne(h: Hart, mid: Hart, area: Area, rs: seq<nat>, k: nat)
    requires Saved(h, mid, area, rs) && h.x[A0] == h.base && 0 < k < 32
    ensures Saved(h, Exec(mid, Sd(k, GprOffset(area, k))), area, rs + [k])
  {}

  lemma {:induction false} SavesDo(h: Hart, area: Area, rs: seq<nat>)
    requires h.Valid() && Regs(rs) && h.x[A0] == h.base
    ensures ProgOk(Saves(area, rs)) && Saved(h, Run(h, Saves(area, rs)), area, rs)
  {
    if rs != [] {
      var n := |rs| - 1;
      var i := Sd(rs[n], GprOffset(area, rs[n]));
      SavesDo(h, area, rs[..n]);
      SaveOne(h, Run(h, Saves(area, rs[..n])), area, rs[..n], rs[n]);
      RunOne(h, Saves(area, rs[..n]), i);
      assert Saves(area, rs) == Saves(area, rs[..n]) + [i];
      assert rs == rs[..n] + [rs[n]];
    }
  }

  /** The state after the registers `rs` were loaded from `area`. */
  ghost predicate Loaded(h: Hart, r: Hart, area: Area, rs: seq<nat>) {
    && h.Valid() && r.Valid() && r == h.(x := r.x)
    && forall k {:trigger r.x[k]} :: 0 <= k < 32 ==> r.x[k] == if k in rs then h.block[First(area) + k] else h.x[k]
  }

  lemma LoadOne(h: Hart, mid: Hart, area: Area, rs: seq<nat>, k: nat)
    requires Loaded(h, mid, area, rs) && Regs(rs) && h.x[A0] == h.base && 0 < k < 32
    ensures Loaded(h, Exec(mid, Ld(k, GprOffset(area, k))), area, rs + [k])
  {}

  lemma {:induction false} LoadsDo(h: Hart, area: Area, rs: seq<nat>)
    requires h.Valid() && Regs(rs) && h.x[A0] == h.base
    ensures ProgOk(Loads(area, rs)) && Loaded(h, Run(h, Loads(area, rs)), area, rs)
  {
    if rs != [] {
      var n := |rs| - 1;
      var i := Ld(rs[n], GprOffset(area, rs[n]));
      LoadsDo(h, area, rs[..n]);
      LoadOne(h, Run(h, Loads(area, rs[..n])), area, rs[..n], rs[n]);
      RunOne(h, Loads(area, rs[..n]), i);
      assert Loads(area, rs) == Loads(area, rs[..n]) + [i];
      assert rs == rs[..n] + [rs[n]];
    }
  }

  // ---- the CSR sections, instruction by instruction ----

  lemma Cons(h: Hart, i: Instr, p: seq<Instr>)
    requires h.Valid() && i.Ok() && ProgOk(p)
    ensures ProgOk([i] + p) && Run(h, [i] + p) == Run(Exec(h, i), p)
  {}

  lemma RunTwo(h: Hart, i: Instr, j: Instr)
    requires h.Valid() && i.Ok() && j.Ok()
    ensures ProgOk([i, j]) && Run(h, [i, j]) == Exec(Exec(h, i), j)
  {
    assert [i, j] == [i] + ([j] + []);
    Cons(Exec(h, i), j, []);
    Cons(h, i, [j] + []);
  }

  lemma RunThree(h: Hart, i: Instr, j: Instr, k: Instr)
    requires h.Valid() && i.Ok() && j.Ok() && k.Ok()
    ensures ProgOk([i, j, k]) && Run(h, [i, j, k]) == Exec(Exec(Exec(h, i), j), k)
  {
    assert [i, j, k] == [i] + [j, k];
    RunTwo(Exec(h, i), j, k);
    Cons(h, i, [j, k]);
  }

  /** The state after a swap: the CSR exchanged with `from`'s slot, its old value in `to`'s. */
  function AfterSwap(h: Hart, c: nat, from: Area, to: Area): (r: Hart)
    requires h.Valid() && c <= SCOUNTEREN
    ensures r.Valid()
  {
    h.(x := h.x[T1 := h.csr[c]], csr := h.csr[c := h.block[First(from) + 32 + c]],
       block := h.block[First(to) + 32 + c := h.csr[c]])
  }

  lemma ExecSwap(h: Hart, c: nat, from: Area, to: Area)
    requires h.Valid() && h.x[A0] == h.base && c <= SCOUNTEREN
    ensures Exec(Exec(Exec(h, Ld(T1, CsrOffset(from, c))), Csrrw(T1, c, T1)), Sd(T1, CsrOffset(to, c)))
         == AfterSwap(h, c, from, to)
  {}

  lemma SwapDoes(h: Hart, c: nat, from: Area, to: Area)
    requires h.Valid() && h.x[A0] == h.base && c <= SCOUNTEREN
    ensures ProgOk(Swap(c, from, to)) && Run(h, Swap(c, from, to)) == AfterSwap(h, c, from, to)
  {
    ExecSwap(h, c, from, to);
    RunThree(h, Ld(T1, CsrOffset(from, c)), Csrrw(T1, c, T1), Sd(T1, CsrOffset(to, c)));
  }

  lemma RunThreeParts(h: Hart, p: seq<Instr>, q: seq<Instr>, s: seq<Instr>)
    requires h.Valid() && ProgOk(p) && ProgOk(q) && ProgOk(s)
    ensures ProgOk(p + q + s) && Run(h, p + q + s) == Run(Run(Run(h, p), q), s)
  {
    RunAppend(h, p, q);
    RunAppend(h, p + q, s);
  }

  /** T1 aside, the general-purpose registers are kept, and every access was to the block. */
  ghost predicate KeepsGprs(h: Hart, r: Hart) {
    && h.Valid() && r.Valid() && r.base == h.base && r.ok == h.ok
    && forall k :: 0 <= k < 32 && k != T1 ==> r.x[k] == h.x[k]
  }

  /** The state after all three swaps. */
  ghost predicate Swapped(h: Hart, r: Hart, from: Area, to: Area) {
    && KeepsGprs(h, r)
    && (forall c {:trigger r.csr[c]} :: 0 <= c < 6 ==>
          r.csr[c] == if c <= SCOUNTEREN then h.block[First(from) + 32 + c] else h.csr[c])
    && forall j {:trigger r.block[j]} :: 0 <= j < BLOCK_WORDS ==>
         r.block[j] == if First(to) + 32 <= j < First(to) + 35 then h.csr[j - First(to) - 32] else h.block[j]
  }

  lemma ThreeSwaps(h: Hart, from: Area, to: Area)
    requires h.Valid() && from != to
    ensures Swapped(h, AfterSwap(AfterSwap(AfterSwap(h, SSTATUS, from, to), HSTATUS, from, to), SCOUNTEREN, from, to),
                    from, to)
  {}

  lemma SwapsDo(h: Hart, from: Area, to: Area)
    requires h.Valid() && h.x[A0] == h.base && from != to
    ensures ProgOk(Swaps(from, to)) && Swapped(h, Run(h, Swaps(from, to)), from, to)
  {
    var h1 := AfterSwap(h, SSTATUS, from, to);
    var h2 := AfterSwap(h1, HSTATUS, from, to);
    SwapDoes(h, SSTATUS, from, to);
    SwapDoes(h1, HSTATUS, from, to);
    SwapDoes(h2, SCOUNTEREN, from, to);
    RunThreeParts(h, Swap(SSTATUS, from, to), Swap(HSTATUS, from, to), Swap(SCOUNTEREN, from, to));
    ThreeSwaps(h, from, to);
  }

  /** The state after the other CSRs were set up for the guest. */
  ghost predicate CsrsIn(h: Hart, r: Hart, exit: nat) {
    && KeepsGprs(h, r)
    && r.csr == h.csr[SEPC := h.block[First(Guest) + 35]][STVEC := exit][SSCRATCH := h.base]
    && r.block == h.block[First(Hyp) + 35 := h.csr[STVEC]][First(Hyp) + 36 := h.csr[SSCRATCH]]
  }

  /** A CSR loaded from a slot: `ld` and `csrw`. */
  lemma ExecRestore(h: Hart, c: nat, off: nat)
    requires h.Valid() && h.InBlock(off) && c < 6
    ensures Exec(Exec(h, Ld(T1, off)), Csrw(c, T1))
         == h.(x := h.x[T1 := h.block[off / 8]], csr := h.csr[c := h.block[off / 8]])
  {}

  /** A CSR replaced by a register's value and its old value stored: `csrrw` and `sd`. */
  lemma ExecReplace(h: Hart, c: nat, rs: nat, off: nat)
    requires h.Valid() && h.InBlock(off) && c < 6 && rs < 32
    ensures Exec(Exec(h, Csrrw(T1, c, rs)), Sd(T1, off))
         == h.(x := h.x[T1 := h.csr[c]], csr := h.csr[c := h.x[rs]], block := h.block[off / 8 := h.csr[c]])
  {}

  lemma EntryCsrsDo(h: Hart, exit: nat)
    requires h.Valid() && h.x[A0] == h.base
    ensures ProgOk(EntryCsrs(exit)) && CsrsIn(h, Run(h, EntryCsrs(exit)), exit)
  {
    var i1, i2 := Ld(T1, CsrOffset(Guest, SEPC)), Csrw(SEPC, T1);
    var j1, j2, j3 := La(T1, exit), Csrrw(T1, STVEC, T1), Sd(T1, CsrOffset(Hyp, STVEC));
    var k1, k2 := Csrrw(T1, SSCRATCH, A0), Sd(T1, CsrOffset(Hyp, SSCRATCH));
    var h1 := Exec(Exec(h, i1), i2);
    var h2 := Exec(Exec(Exec(h1, j1), j2), j3);
    var h3 := Exec(Exec(h2, k1), k2);
    RunTwo(h, i1, i2);
    RunThree(h1, j1, j2, j3);
    RunTwo(h2, k1, k2);
    RunThreeParts(h, [i1, i2], [j1, j2, j3], [k1, k2]);
    assert EntryCsrs(exit) == [i1, i2] + [j1, j2, j3] + [k1, k2];
    ExecEntryCsrs(h, exit);
  }

  lemma ExecEntryCsrs(h: Hart, exit: nat)
    requires h.Valid() && h.x[A0] == h.base
    ensures var h1 := Exec(Exec(h, Ld(T1, CsrOffset(Guest, SEPC))), Csrw(SEPC, T1));
            var h2 := Exec(Exec(Exec(h1, La(T1, exit)), Csrrw(T1, STVEC, T1)), Sd(T1, CsrOffset(Hyp, STVEC)));
            CsrsIn(h, Exec(Exec(h2, Csrrw(T1, SSCRATCH, A0)), Sd(T1, CsrOffset(Hyp, SSCRATCH))), exit)
  {
    ExecRestore(h, SEPC, CsrOffset(Guest, SEPC));
    var h1 := h.(x := h.x[T1 := h.block[72]], csr := h.csr[SEPC := h.block[72]]);
    var h1' := h1.(x := h1.x[T1 := exit]);
    ExecReplace(h1', STVEC, T1, CsrOffset(Hyp, STVEC));
    var h2 := h1'.(x := h1'.x[T1 := h.csr[STVEC]], csr := h1.csr[STVEC := exit], block := h.block[35 := h.csr[STVEC]]);
    ExecReplace(h2, SSCRATCH, A0, CsrOffset(Hyp, SSCRATCH));
  }

  /** The state after they were given back to the hypervisor. */
  ghost predicate CsrsOut(h: Hart, r: Hart) {
    && KeepsGprs(h, r)
    && r.csr == h.csr[STVEC := h.block[First(Hyp) + 35]][SSCRATCH := h.block[First(Hyp) + 36]]
    && r.block == h.block[First(Guest) + 35 := h.csr[SEPC]]
  }

  lemma ExitCsrsDo(h: Hart)
    requires h.Valid() && h.x[A0] == h.base
    ensures ProgOk(EXIT_CSRS) && CsrsOut(h, Run(h, EXIT_CSRS))
  {
    var i1, i2 := Ld(T1, CsrOffset(Hyp, STVEC)), Csrw(STVEC, T1);
    var j1, j2 := Ld(T1, CsrOffset(Hyp, SSCRATCH)), Csrw(SSCRATCH, T1);
    var k1, k2 := Csrr(T1, SEPC), Sd(T1, CsrOffset(Guest, SEPC));
    var h1 := Exec(Exec(h, i1), i2);
    var h2 := Exec(Exec(h1, j1), j2);
    RunTwo(h, i1, i2);
    RunTwo(h1, j1, j2);
    RunTwo(h2, k1, k2);
    RunThreeParts(h, [i1, i2], [j1, j2], [k1, k2]);
    assert EXIT_CSRS == [i1, i2] + [j1, j2] + [k1, k2];
    ExecExitCsrs(h);
  }

  lemma ExecExitCsrs(h: Hart)
    requires h.Valid() && h.x[A0] == h.base
    ensures var h1 := Exec(Exec(h, Ld(T1, CsrOffset(Hyp, STVEC))), Csrw(STVEC, T1));
            var h2 := Exec(Exec(h1, Ld(T1, CsrOffset(Hyp, SSCRATCH))), Csrw(SSCRATCH, T1));
            CsrsOut(h, Exec(Exec(h2, Csrr(T1, SEPC)), Sd(T1, CsrOffset(Guest, SEPC))))
  {
    ExecRestore(h, STVEC, CsrOffset(Hyp, STVEC));
    var h1 := h.(x := h.x[T1 := h.block[35]], csr := h.csr[STVEC := h.block[35]]);
    ExecRestore(h1, SSCRATCH, CsrOffset(Hyp, SSCRATCH));
  }

  // ---- entering and leaving ----

  /** ra, sp, gp, tp, s0-s11 and a1-a7: what the hypervisor gets back. */
  predicate HypKept(k: nat) { 1 <= k <= 4 || 8 <= k <= 9 || 11 <= k <= 27 }

  /** What matters of the two register lists. */
  ghost predicate HypList(hs: seq<nat>) { Regs(hs) && forall k :: k in hs <==> 0 <= k && HypKept(k) }

  ghost predicate GuestList(gs: seq<nat>) { Regs(gs) && forall k :: k in gs <==> 1 <= k <= 31 && k != A0 }

  lemma HypSavedList()
    ensures HypList(HYP_SAVED)
  {}

  lemma GuestSavedList()
    ensures GuestList(GUEST_SAVED)
  {}

  /** The block while the guest runs: the hypervisor's half holds its state, the guest's is untouched. */
  ghost predicate Stashed(h: Hart, block: seq<nat>)
    requires h.Valid() && |block| == BLOCK_WORDS
  {
    && (forall k :: 0 <= k < 32 && HypKept(k) ==> block[k] == h.x[k])
    && (forall c :: 0 <= c <= SCOUNTEREN ==> block[32 + c] == h.csr[c])
    && block[35] == h.csr[STVEC] && block[36] == h.csr[SSCRATCH]
    && block[37..] == h.block[37..]
  }

  /** The machine as the guest starts: x1-x31 and its CSRs from the guest's half. */
  ghost predicate Entered(h: Hart, r: Hart, exit: nat) {
    && h.Valid() && r.Valid() && r.base == h.base && r.ok == h.ok && Stashed(h, r.block)
    && (forall k :: 1 <= k < 32 ==> r.x[k] == h.block[37 + k]) && r.x[0] == h.x[0]
    && (forall c :: 0 <= c <= SEPC ==> r.csr[c] == h.block[69 + c])
    && r.csr[STVEC] == exit && r.csr[SSCRATCH] == h.base
  }

  lemma RunFourParts(h: Hart, p: seq<Instr>, q: seq<Instr>, s: seq<Instr>, t: seq<Instr>)
    requires h.Valid() && ProgOk(p) && ProgOk(q) && ProgOk(s) && ProgOk(t)
    ensures ProgOk(p + q + s + t) && Run(h, p + q + s + t) == Run(Run(Run(Run(h, p), q), s), t)
  {
    RunThreeParts(h, p, q, s);
    RunAppend(h, p + q + s, t);
  }

  lemma EntryDoes(h: Hart, exit: nat)
    requires h.Valid() && h.x[A0] == h.base
    ensures ProgOk(RunGuest(exit)) && Entered(h, Run(h, RunGuest(exit)), exit)
  {
    HypSavedList();
    GuestSavedList();
    EntryWith(h, exit, HYP_SAVED, GUEST_SAVED);
  }

  lemma EntryWith(h: Hart, exit: nat, hs: seq<nat>, gs: seq<nat>)
    requires h.Valid() && h.x[A0] == h.base && HypList(hs) && GuestList(gs)
    ensures var p := Saves(Hyp, hs) + Swaps(Guest, Hyp) + EntryCsrs(exit) + Loads(Guest, gs)
                   + [Ld(A0, GprOffset(Guest, A0))];
            ProgOk(p) && Entered(h, Run(h, p), exit)
  {
    SavesDo(h, Hyp, hs);
    var h1 := Run(h, Saves(Hyp, hs));
    SwapsDo(h1, Guest, Hyp);
    var h2 := Run(h1, Swaps(Guest, Hyp));
    EntryCsrsDo(h2, exit);
    var h3 := Run(h2, EntryCsrs(exit));
    LoadsDo(h3, Guest, gs);
    var h4 := Run(h3, Loads(Guest, gs));
    RunFourParts(h, Saves(Hyp, hs), Swaps(Guest, Hyp), EntryCsrs(exit), Loads(Guest, gs));
    RunOne(h, Saves(Hyp, hs) + Swaps(Guest, Hyp) + EntryCsrs(exit) + Loads(Guest, gs), Ld(A0, GprOffset(Guest, A0)));
    StashJoins(h, h1, h2, h3, exit, hs);
    EntryJoins(h, h3, h4, exit, gs);
  }

  /** The block and the CSRs just before the guest's registers are loaded. */
  ghost predicate Ready(h: Hart, r: Hart, exit: nat) {
    && h.Valid() && r.Valid() && r.base == h.base && r.ok == h.ok && Stashed(h, r.block)
    && r.x[A0] == h.base && r.x[0] == h.x[0]
    && (forall c :: 0 <= c <= SEPC ==> r.csr[c] == h.block[69 + c])
    && r.csr[STVEC] == exit && r.csr[SSCRATCH] == h.base
  }

  lemma StashJoins(h: Hart, h1: Hart, h2: Hart, h3: Hart, exit: nat, hs: seq<nat>)
    requires h.Valid() && h.x[A0] == h.base && HypList(hs)
    requires Saved(h, h1, Hyp, hs) && Swapped(h1, h2, Guest, Hyp) && CsrsIn(h2, h3, exit)
    ensures Ready(h, h3, exit)
  {}

  lemma EntryJoins(h: Hart, h3: Hart, h4: Hart, exit: nat, gs: seq<nat>)
    requires Ready(h, h3, exit) && GuestList(gs) && Loaded(h3, h4, Guest, gs)
    ensures Entered(h, Exec(h4, Ld(A0, GprOffset(Guest, A0))), exit)
  {}

  /** The machine after the exit path: x1-x31 and the guest's CSRs saved in its half, the
      hypervisor's state back from the other. */
  ghost predicate Left(g: Hart, r: Hart) {
    && g.Valid() && r.Valid() && r.base == g.base && r.ok == g.ok
    && r.x[A0] == g.base && (forall k :: 0 <= k < 32 && HypKept(k) ==> r.x[k] == g.block[k])
    && (forall c :: 0 <= c <= SCOUNTEREN ==> r.csr[c] == g.block[32 + c])
    && r.csr[STVEC] == g.block[35] && r.csr[SSCRATCH] == g.block[36]
    && r.block[..38] == g.block[..38]
    && (forall k :: 1 <= k < 32 ==> r.block[37 + k] == g.x[k])
    && forall c :: 0 <= c <= SEPC ==> r.block[69 + c] == g.csr[c]
  }

  lemma ExitDoes(g: Hart)
    requires g.Valid() && g.csr[SSCRATCH] == g.base
    ensures ProgOk(GUEST_EXIT) && Left(g, Run(g, GUEST_EXIT))
  {
    HypSavedList();
    GuestSavedList();
    ExitWith(g, HYP_SAVED, GUEST_SAVED);
  }

  /** The guest's half of the block once its registers are saved; a0 went through sscratch. */
  ghost predicate GprsOut(g: Hart, r: Hart) {
    && g.Valid() && r.Valid() && r.base == g.base && r.ok == g.ok && r.x[A0] == g.base
    && r.csr == g.csr[SSCRATCH := g.x[A0]]
    && forall j {:trigger r.block[j]} :: 0 <= j < BLOCK_WORDS ==>
         r.block[j] == if 38 <= j < 69 then g.x[j - 37] else g.block[j]
  }

  lemma ExitWith(g: Hart, hs: seq<nat>, gs: seq<nat>)
    requires g.Valid() && g.csr[SSCRATCH] == g.base && HypList(hs) && GuestList(gs)
    ensures var p := [Csrrw(A0, SSCRATCH, A0)] + Saves(Guest, gs) + [Csrr(T0, SSCRATCH), Sd(T0, GprOffset(Guest, A0))]
                     + Swaps(Hyp, Guest) + EXIT_CSRS + Loads(Hyp, hs);
            ProgOk(p) && Left(g, Run(g, p))
  {
    var head := [Csrrw(A0, SSCRATCH, A0)] + Saves(Guest, gs) + [Csrr(T0, SSCRATCH), Sd(T0, GprOffset(Guest, A0))];
    GprsOutDoes(g, gs);
    var h3 := Run(g, head);
    SwapsDo(h3, Hyp, Guest);
    var h4 := Run(h3, Swaps(Hyp, Guest));
    ExitCsrsDo(h4);
    var h5 := Run(h4, EXIT_CSRS);
    LoadsDo(h5, Hyp, hs);
    RunFourParts(g, head, Swaps(Hyp, Guest), EXIT_CSRS, Loads(Hyp, hs));
    ExitJoins(g, h3, h4, h5, Run(h5, Loads(Hyp, hs)), hs);
  }

  lemma GprsOutDoes(g: Hart, gs: seq<nat>)
    requires g.Valid() && g.csr[SSCRATCH] == g.base && GuestList(gs)
    ensures var p := [Csrrw(A0, SSCRATCH, A0)] + Saves(Guest, gs) + [Csrr(T0, SSCRATCH), Sd(T0, GprOffset(Guest, A0))];
            ProgOk(p) && GprsOut(g, Run(g, p))
  {
    var i := Csrrw(A0, SSCRATCH, A0);
    var j, k := Csrr(T0, SSCRATCH), Sd(T0, GprOffset(Guest, A0));
    var h1 := Exec(g, i);
    Cons(g, i, []);
    assert [i] == [i] + [];
    SavesDo(h1, Guest, gs);
    var h2 := Run(h1, Saves(Guest, gs));
    RunTwo(h2, j, k);
    RunThreeParts(g, [i], Saves(Guest, gs), [j, k]);
    GprsJoin(g, h1, h2, gs);
  }

  lemma GprsJoin(g: Hart, h1: Hart, h2: Hart, gs: seq<nat>)
    requires g.Valid() && g.csr[SSCRATCH] == g.base && GuestList(gs)
    requires h1 == Exec(g, Csrrw(A0, SSCRATCH, A0)) && Saved(h1, h2, Guest, gs)
    ensures GprsOut(g, Exec(Exec(h2, Csrr(T0, SSCRATCH)), Sd(T0, GprOffset(Guest, A0))))
  {}

  lemma ExitJoins(g: Hart, h3: Hart, h4: Hart, h5: Hart, r: Hart, hs: seq<nat>)
    requires GprsOut(g, h3) && Swapped(h3, h4, Hyp, Guest) && CsrsOut(h4, h5) && Loaded(h5, r, Hyp, hs) && HypList(hs)
    ensures Left(g, r)
  {}

  // ---- whole runs ----

  /** What the guest leaves behind when it traps: any registers, and the CSRs that hardware or the
      guest may have changed. HS-level stvec, sscratch and the block are out of its reach. */
  datatype Trap = Trap(x: seq<nat>, sstatus: nat, hstatus: nat, scounteren: nat, sepc: nat)

  function Trapped(r: Hart, t: Trap): (g: Hart)
    requires r.Valid() && |t.x| == 32
    ensures g.Valid()
  {
    r.(x := t.x, csr := [t.sstatus, t.hstatus, t.scounteren, t.sepc, r.csr[STVEC], r.csr[SSCRATCH]])
  }

  /** One call of `_run_guest`, which returns through `_guest_exit`. */
  function Call(h: Hart, exit: nat, t: Trap): (r: Hart)
    requires h.Valid() && h.x[A0] == h.base && |t.x| == 32
    ensures r.Valid()
  {
    EntryDoes(h, exit);
    var g := Trapped(Run(h, RunGuest(exit)), t);
    ExitDoes(g);
    Run(g, GUEST_EXIT)
  }

  /** The hypervisor sees a call that keeps its registers and CSRs. */
  ghost predicate HypRestored(h: Hart, r: Hart) {
    && h.Valid() && r.Valid() && r.base == h.base && r.ok == h.ok && r.x[A0] == h.x[A0]
    && (forall k :: 0 <= k < 32 && HypKept(k) ==> r.x[k] == h.x[k])
    && forall c :: 0 <= c < 6 && c != SEPC ==> r.csr[c] == h.csr[c]
  }

  /** The guest's half holds the state it trapped with. */
  ghost predicate GuestSaved(r: Hart, t: Trap) {
    && r.Valid() && |t.x| == 32
    && (forall k :: 1 <= k < 32 ==> r.block[37 + k] == t.x[k])
    && r.block[69..] == [t.sstatus, t.hstatus, t.scounteren, t.sepc]
  }

  /** One entry and exit: the guest starts from its half of the block and traps to `_guest_exit`;
      its state is saved there, the hypervisor's is as before. The slot of x0 is never written. */
  lemma RoundTrip(h: Hart, exit: nat, t: Trap)
    requires h.Valid() && h.x[A0] == h.base && |t.x| == 32
    ensures ProgOk(RunGuest(exit))
    ensures var started := Run(h, RunGuest(exit));
      && (forall k :: 1 <= k < 32 ==> started.x[k] == h.block[37 + k])
      && (forall c :: 0 <= c <= SEPC ==> started.csr[c] == h.block[69 + c])
      && started.csr[STVEC] == exit
    ensures HypRestored(h, Call(h, exit, t)) && GuestSaved(Call(h, exit, t), t)
    ensures Call(h, exit, t).block[37] == h.block[37]
  {
    EntryDoes(h, exit);
    var started := Run(h, RunGuest(exit));
    var g := Trapped(started, t);
    ExitDoes(g);
    RoundJoins(h, started, g, Run(g, GUEST_EXIT), exit, t);
  }

  lemma RoundJoins(h: Hart, started: Hart, g: Hart, r: Hart, exit: nat, t: Trap)
    requires h.Valid() && h.x[A0] == h.base && |t.x| == 32
    requires Entered(h, started, exit) && g == Trapped(started, t) && Left(g, r)
    ensures HypRestored(h, r) && GuestSaved(r, t) && r.block[37] == h.block[37]
  {
    assert r.block[..38][37] == g.block[..38][37] && started.block[37..][0] == h.block[37..][0];
    assert forall c :: 0 <= c <= SCOUNTEREN ==> r.csr[c] == g.block[32 + c] == h.csr[c];
    assert r.block[69 + SSTATUS] == g.csr[SSTATUS] && r.block[69 + HSTATUS] == g.csr[HSTATUS];
    assert r.block[69 + SCOUNTEREN] == g.csr[SCOUNTEREN] && r.block[69 + SEPC] == g.csr[SEPC];
  }

  /** If nobody edits the block in between, the next entry resumes the guest as it trapped. */
  lemma Resumes(h: Hart, exit: nat, t: Trap)
    requires h.Valid() && h.x[A0] == h.base && |t.x| == 32
    ensures ProgOk(RunGuest(exit))
    ensures var again := Run(Call(h, exit, t), RunGuest(exit));
      && (forall k :: 1 <= k < 32 ==> again.x[k] == t.x[k])
      && again.csr[..4] == [t.sstatus, t.hstatus, t.scounteren, t.sepc] && again.ok == h.ok
  {
    RoundTrip(h, exit, t);
    var r := Call(h, exit, t);
    EntryDoes(r, exit);
    var again := Run(r, RunGuest(exit));
    forall c | 0 <= c <= SEPC ensures again.csr[c] == r.block[69..][c] {
      assert r.block[69 + c] == r.block[69..][c];
    }
  }

  /** Between calls the emulator edits the guest's half of the block. */
  datatype Round = Round(trap: Trap, edit: seq<nat>)

  predicate RoundsOk(rounds: seq<Round>) {
    forall k :: 0 <= k < |rounds| ==> |rounds[k].trap.x| == 32 && |rounds[k].edit| == 36
  }

  function Rounds(h: Hart, exit: nat, rounds: seq<Round>): (r: Hart)
    requires h.Valid() && h.x[A0] == h.base && RoundsOk(rounds)
    ensures r.Valid() && HypRestored(h, r)
    decreases |rounds|
  {
    if rounds == [] then h
    else
      RoundTrip(h, exit, rounds[0].trap);
      var r := Call(h, exit, rounds[0].trap);
      var next := r.(block := r.block[..37] + rounds[0].edit);
      var end := Rounds(next, exit, rounds[1..]);
      RestoredChain(h, next, end);
      end
  }

  /** The same machine with its state updated in place. */
  class Core {
    var x: seq<nat>
    var csr: seq<nat>
    var block: seq<nat>
    const base: nat
    var ok: bool

    ghost function View(): Hart reads this { Hart(x, csr, block, base, ok) }

    constructor (h: Hart)
      ensures View() == h
    {
      x, csr, block, base, ok := h.x, h.csr, h.block, h.base, h.ok;
    }

    method Step(i: Instr)
      requires View().Valid() && i.Ok()
      modifies this
      ensures View() == Exec(old(View()), i)
    {
      match i {
        case Sd(rs, off) =>
          if x[A0] == base && off % 8 == 0 && off / 8 < BLOCK_WORDS {
            block := block[off / 8 := x[rs]];
          } else {
            ok := false;
          }
        case Ld(rd, off) =>
          if x[A0] == base && off % 8 == 0 && off / 8 < BLOCK_WORDS {
            x := x[rd := block[off / 8]];
          } else {
            ok := false;
          }
        case Csrrw(rd, c, rs) => x, csr := x[rd := csr[c]], csr[c := x[rs]];
        case Csrr(rd, c) => x := x[rd := csr[c]];
        case Csrw(c, rs) => csr := csr[c := x[rs]];
        case La(rd, target) => x := x[rd := target];
      }
    }

    method Execute(p: seq<Instr>)
      requires View().Valid() && ProgOk(p)
      modifies this
      ensures View() == Run(old(View()), p)
    {
      for k := 0 to |p|
        invariant View().Valid() && Run(View(), p[k..]) == Run(old(View()), p)
      {
        Step(p[k]);
      }
    }

    /** Enter the guest; it runs until it traps as `t` says, and the call returns. */
    method CallGuest(exit: nat, t: Trap)
      requires View().Valid() && x[A0] == base && |t.x| == 32
      modifies this
      ensures View() == Call(old(View()), exit, t)
      ensures HypRestored(old(View()), View()) && GuestSaved(View(), t) && block[37] == old(block[37])
    {
      RoundTrip(View(), exit, t);
      EntryDoes(View(), exit);
      Execute(RunGuest(exit));
      x, csr := t.x, [t.sstatus, t.hstatus, t.scounteren, t.sepc, csr[STVEC], csr[SSCRATCH]];
      ExitDoes(View());
      Execute(GUEST_EXIT);
    }
  }

  lemma RestoredChain(h: Hart, mid: Hart, r: Hart)
    requires HypRestored(h, mid) && HypRestored(mid, r)
    ensures HypRestored(h, r)
  {}
}
