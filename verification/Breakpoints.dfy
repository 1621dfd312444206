/** Software breakpoints of the RISC-V debugger target (`riscv/gdb.rs`): guest memory is patched
    in place while a map keeps the displaced bytes. Page tables are outside the model, so the
    outcome of a translation, and of an access to guest memory, is an argument. */
module Breakpoints {
  import opened Machines
  import opened Wrappers

  /** The displaced bytes and the guest-physical address they belong to. */
  datatype Saved = Saved(addr: nat, inst: seq<Byte>)

  datatype State = State(mem: seq<Byte>, bps: map<nat, Saved>)

  /** The compressed `ebreak`. */
  const EBREAK: seq<Byte> := [2, 144]

  function Write(mem: seq<Byte>, a: nat, v: seq<Byte>): (r: seq<Byte>)
    requires a + |v| <= |mem|
    ensures |r| == |mem|
    ensures forall i {:trigger r[i]} :: 0 <= i < |mem| ==> r[i] == if a <= i < a + |v| then v[i - a] else mem[i]
  {
    mem[..a] + v + mem[a + |v|..]
  }

  predicate Within(s: Saved, i: int) { s.addr <= i < s.addr + 2 }

  /** Some live breakpoint other than `except` displaces the byte at `i`. */
  ghost predicate CoveredBut(bps: map<nat, Saved>, except: Option<nat>, i: int) {
    exists k :: k in bps && Some(k) != except && Within(bps[k], i)
  }

  ghost predicate Covered(bps: map<nat, Saved>, i: int) { CoveredBut(bps, None, i) }

  /** The displaced bytes are the program's own. */
  predicate Displaced(s: Saved, base: seq<Byte>) {
    |s.inst| == 2 && s.addr + 2 <= |base| && s.inst == base[s.addr..s.addr + 2]
  }

  /** The debugger is invisible: memory overlaid with the displaced bytes is `base`, the memory
      of the same run without breakpoints. */
  ghost predicate Transparent(s: State, base: seq<Byte>) {
    && |s.mem| == |base|
    && (forall k :: k in s.bps ==> Displaced(s.bps[k], base))
    && forall i :: 0 <= i < |base| && !Covered(s.bps, i) ==> s.mem[i] == base[i]
  }

  function AfterAdd(s: State, key: nat, addr: nat): State
    requires addr + 2 <= |s.mem|
  {
    State(Write(s.mem, addr, EBREAK), s.bps[key := Saved(addr, s.mem[addr..addr + 2])])
  }

  function AfterRemove(s: State, key: nat): State
    requires key in s.bps ==> s.bps[key].addr + |s.bps[key].inst| <= |s.mem|
  {
    if key in s.bps then State(Write(s.mem, s.bps[key].addr, s.bps[key].inst), s.bps - {key}) else s
  }

  // ---- adding ----

  /** The same in terms of the undisturbed memory: the new range holds the program's own bytes,
      and so does every byte that a replaced record leaves uncovered. */
  ghost predicate AddSeesBase(s: State, base: seq<Byte>, key: nat, addr: nat)
    requires addr + 2 <= |s.mem| == |base|
  {
    && s.mem[addr..addr + 2] == base[addr..addr + 2]
    && (key in s.bps ==> forall i :: 0 <= i < |base| && Within(s.bps[key], i) ==>
          addr <= i < addr + 2 || CoveredBut(s.bps, Some(key), i) || s.mem[i] == base[i])
  }

  /** The byte a record displaced at `i` is the one in memory now. */
  predicate Agrees(r: Saved, mem: seq<Byte>, i: int) {
    Within(r, i) && 0 <= i < |mem| && |r.inst| == 2 && r.inst[i - r.addr] == mem[i]
  }

  /** Every live record that covers `i` displaced the byte that is in memory now. */
  ghost predicate Clean(s: State, i: int) {
    forall k :: k in s.bps && Within(s.bps[k], i) ==> Agrees(s.bps[k], s.mem, i)
  }

  /** Each byte of a record the add replaces is in the new range, displaced by another record too,
      or as that record displaced it. */
  ghost predicate ReplacesNothing(s: State, key: nat, addr: nat) {
    key in s.bps ==> forall i :: Within(s.bps[key], i) ==>
      addr <= i < addr + 2 || CoveredBut(s.bps, Some(key), i) || Agrees(s.bps[key], s.mem, i)
  }

  /** What the debugger can check before an add. */
  ghost predicate AddIsSafe(s: State, key: nat, addr: nat) {
    Clean(s, addr) && Clean(s, addr + 1) && ReplacesNothing(s, key, addr)
  }

  /** A covered byte of the undisturbed memory is what any record covering it displaced; any other
      is what memory holds. */
  lemma BaseByte(s: State, base: seq<Byte>, i: int)
    requires Transparent(s, base) && 0 <= i < |base|
    ensures s.mem[i] == base[i] <==> Clean(s, i)
    ensures forall k :: k in s.bps && Within(s.bps[k], i) ==> (s.mem[i] == base[i] <==> Agrees(s.bps[k], s.mem, i))
  {
    forall k | k in s.bps && Within(s.bps[k], i) ensures s.bps[k].inst[i - s.bps[k].addr] == base[i] {
      assert Displaced(s.bps[k], base);
    }
    if s.mem[i] != base[i] {
      var k :| k in s.bps && Some(k) != None && Within(s.bps[k], i);
      assert !Agrees(s.bps[k], s.mem, i);
    }
  }

  lemma CoveredAfterAdd(s: State, key: nat, addr: nat, i: int)
    requires addr + 2 <= |s.mem|
    ensures Covered(AfterAdd(s, key, addr).bps, i) <==> addr <= i < addr + 2 || CoveredBut(s.bps, Some(key), i)
  {}

  /** Adding a breakpoint keeps the debugger invisible exactly when it is safe. */
  lemma AddKeepsTransparent(s: State, base: seq<Byte>, key: nat, addr: nat)
    requires Transparent(s, base) && addr + 2 <= |base|
    ensures Transparent(AfterAdd(s, key, addr), base) <==> AddIsSafe(s, key, addr)
  {
    AddSeen(s, base, key, addr);
    SafeSeesBase(s, base, key, addr);
  }

  lemma TwoBytes(a: seq<Byte>, b: seq<Byte>, i: nat)
    requires i + 2 <= |a| && i + 2 <= |b|
    ensures a[i..i + 2] == b[i..i + 2] <==> a[i] == b[i] && a[i + 1] == b[i + 1]
  {
    assert a[i..i + 2] == [a[i], a[i + 1]] && b[i..i + 2] == [b[i], b[i + 1]];
  }

  lemma SafeSeesBase(s: State, base: seq<Byte>, key: nat, addr: nat)
    requires Transparent(s, base) && addr + 2 <= |base|
    ensures AddSeesBase(s, base, key, addr) <==> AddIsSafe(s, key, addr)
  {
    TwoBytes(s.mem, base, addr);
    BaseByte(s, base, addr);
    BaseByte(s, base, addr + 1);
    SafeReplacement(s, base, key, addr);
  }

  lemma SafeReplacement(s: State, base: seq<Byte>, key: nat, addr: nat)
    requires Transparent(s, base) && addr + 2 <= |base|
    ensures ReplacesNothing(s, key, addr) <==>
      (key in s.bps ==> forall i :: 0 <= i < |base| && Within(s.bps[key], i) ==>
          addr <= i < addr + 2 || CoveredBut(s.bps, Some(key), i) || s.mem[i] == base[i])
  {
    if key in s.bps {
      assert Displaced(s.bps[key], base);
      forall i | Within(s.bps[key], i) ensures s.mem[i] == base[i] <==> Agrees(s.bps[key], s.mem, i) {
        BaseByte(s, base, i);
      }
    }
  }

  lemma AddSeen(s: State, base: seq<Byte>, key: nat, addr: nat)
    requires Transparent(s, base) && addr + 2 <= |base|
    ensures Transparent(AfterAdd(s, key, addr), base) <==> AddSeesBase(s, base, key, addr)
  {
    var t := AfterAdd(s, key, addr);
    assert t.bps[key].inst == s.mem[addr..addr + 2];
    forall i ensures Covered(t.bps, i) <==> addr <= i < addr + 2 || CoveredBut(s.bps, Some(key), i) {
      CoveredAfterAdd(s, key, addr, i);
    }
    forall i ensures Covered(s.bps, i) <==> CoveredBut(s.bps, Some(key), i) || (key in s.bps && Within(s.bps[key], i)) {
      CoveredByKey(s.bps, key, i);
    }
  }

  lemma CoveredByKey(bps: map<nat, Saved>, key: nat, i: int)
    ensures Covered(bps, i) <==> CoveredBut(bps, Some(key), i) || (key in bps && Within(bps[key], i))
  {}

  /** A free key on bytes no live breakpoint displaces is safe. */
  lemma FreshAddIsSafe(s: State, key: nat, addr: nat)
    requires key !in s.bps && !Covered(s.bps, addr) && !Covered(s.bps, addr + 1)
    ensures AddIsSafe(s, key, addr)
  {
    forall k | k in s.bps ensures !Within(s.bps[k], addr) && !Within(s.bps[k], addr + 1) {
      assert Some(k) != None;
    }
  }

  /** Setting a breakpoint twice loses the instruction: the second one saves the first one's
      `ebreak`, and removing it leaves that in memory. */
  lemma SecondAddLosesInstruction(base: seq<Byte>, key: nat, addr: nat)
    requires addr + 2 <= |base|
    ensures var twice := AfterAdd(AfterAdd(State(base, map[]), key, addr), key, addr);
            var removed := AfterRemove(twice, key);
            removed.bps == map[] && removed.mem == Write(base, addr, EBREAK)
  {}

  // ---- removing ----

  /** Removing keeps the debugger invisible, whatever else is live and however ranges overlap. */
  lemma RemoveKeepsTransparent(s: State, base: seq<Byte>, key: nat)
    requires Transparent(s, base)
    ensures Transparent(AfterRemove(s, key), base)
  {
    if key in s.bps {
      var t := AfterRemove(s, key);
      var sv := s.bps[key];
      forall i | 0 <= i < |base| && !Covered(t.bps, i) ensures t.mem[i] == base[i] {
        if Within(sv, i) {
          assert t.mem[i] == sv.inst[i - sv.addr] == base[i];
        } else {
          StillCovered(s.bps, key, i);
        }
      }
    }
  }

  /** Forgetting a breakpoint uncovers only its own bytes. */
  lemma StillCovered(bps: map<nat, Saved>, key: nat, i: int)
    requires key in bps && !Within(bps[key], i)
    ensures Covered(bps, i) <==> Covered(bps - {key}, i)
  {}

  function AfterRemoveAll(s: State, base: seq<Byte>, keys: seq<nat>): State
    requires Transparent(s, base)
    decreases |keys|
  {
    if keys == [] then s
    else
      RemoveKeepsTransparent(s, base, keys[0]);
      AfterRemoveAll(AfterRemove(s, keys[0]), base, keys[1..])
  }

  /** Removing every breakpoint, in any order, restores memory exactly. */
  lemma {:induction false} RemoveAllRestores(s: State, base: seq<Byte>, keys: seq<nat>)
    requires Transparent(s, base)
    requires forall k :: k in s.bps ==> k in keys
    ensures AfterRemoveAll(s, base, keys) == State(base, map[])
    decreases |keys|
  {
    if keys == [] {
      assert s.bps == map[];
      assert forall i :: !Covered(s.bps, i);
      assert s.mem == base;
    } else {
      RemoveKeepsTransparent(s, base, keys[0]);
      var t := AfterRemove(s, keys[0]);
      forall k | k in t.bps ensures k in keys[1..] {
        assert k in s.bps && k != keys[0];
      }
      RemoveAllRestores(t, base, keys[1..]);
    }
  }

  // ---- whole runs ----

  /** One step of a run: the debugger's two operations, and a write by the guest or its devices. */
  datatype Op = Add(key: nat, addr: nat) | Remove(key: nat) | GuestWrite(addr: nat, bytes: seq<Byte>)

  /** The write misses every displaced byte. */
  ghost predicate Misses(bps: map<nat, Saved>, a: nat, n: nat) {
    forall k :: k in bps ==> bps[k].addr + 2 <= a || a + n <= bps[k].addr
  }

  ghost predicate Legal(s: State, op: Op) {
    match op
    case Add(key, addr) =>
      key !in s.bps && addr + 2 <= |s.mem| && !Covered(s.bps, addr) && !Covered(s.bps, addr + 1)
    case Remove(key) => key in s.bps ==> s.bps[key].addr + |s.bps[key].inst| <= |s.mem|
    case GuestWrite(addr, bytes) => addr + |bytes| <= |s.mem| && Misses(s.bps, addr, |bytes|)
  }

  ghost function Step(s: State, op: Op): State
    requires Legal(s, op)
  {
    match op
    case Add(key, addr) => AfterAdd(s, key, addr)
    case Remove(key) => AfterRemove(s, key)
    case GuestWrite(addr, bytes) => s.(mem := Write(s.mem, addr, bytes))
  }

  /** The same step without a debugger. */
  function PlainStep(base: seq<Byte>, op: Op): seq<Byte> {
    if op.GuestWrite? && op.addr + |op.bytes| <= |base| then Write(base, op.addr, op.bytes) else base
  }

  lemma StepKeepsTransparent(s: State, base: seq<Byte>, op: Op)
    requires Transparent(s, base) && Legal(s, op)
    ensures Transparent(Step(s, op), PlainStep(base, op))
  {
    match op
    case Add(key, addr) =>
      FreshAddIsSafe(s, key, addr);
      AddKeepsTransparent(s, base, key, addr);
    case Remove(key) => RemoveKeepsTransparent(s, base, key);
    case GuestWrite(addr, bytes) => WriteKeepsTransparent(s, base, addr, bytes);
  }

  lemma WriteKeepsTransparent(s: State, base: seq<Byte>, a: nat, v: seq<Byte>)
    requires Transparent(s, base) && a + |v| <= |base| && Misses(s.bps, a, |v|)
    ensures Transparent(s.(mem := Write(s.mem, a, v)), Write(base, a, v))
  {}

  ghost predicate LegalRun(s: State, ops: seq<Op>)
    decreases |ops|
  {
    ops == [] || (Legal(s, ops[0]) && LegalRun(Step(s, ops[0]), ops[1..]))
  }

  ghost function Run(s: State, ops: seq<Op>): State
    requires LegalRun(s, ops)
    decreases |ops|
  {
    if ops == [] then s else Run(Step(s, ops[0]), ops[1..])
  }

  function PlainRun(base: seq<Byte>, ops: seq<Op>): seq<Byte>
    decreases |ops|
  {
    if ops == [] then base else PlainRun(PlainStep(base, ops[0]), ops[1..])
  }

  /** Over every run, memory overlaid with the displaced bytes is the memory of the same run
      without the debugger; so a run that ends without breakpoints ends with that memory. */
  lemma {:induction false} RunIsTransparent(s: State, base: seq<Byte>, ops: seq<Op>)
    requires Transparent(s, base) && LegalRun(s, ops)
    ensures Transparent(Run(s, ops), PlainRun(base, ops))
    ensures Run(s, ops).bps == map[] ==> Run(s, ops).mem == PlainRun(base, ops)
    decreases |ops|
  {
    if ops == [] {
      if s.bps == map[] {
        assert forall i :: !Covered(s.bps, i);
        assert s.mem == base;
      }
    } else {
      StepKeepsTransparent(s, base, ops[0]);
      RunIsTransparent(Step(s, ops[0]), PlainStep(base, ops[0]), ops[1..]);
    }
  }

  /** The live breakpoints are in place: each range holds the `ebreak`, and no two overlap. */
  ghost predicate Armed(s: State) {
    && (forall k :: k in s.bps ==>
         |s.bps[k].inst| == 2 && s.bps[k].addr + 2 <= |s.mem| && InPlace(s.mem, s.bps[k].addr))
    && forall k, l :: k in s.bps && l in s.bps && k != l ==> Apart(s.bps[k], s.bps[l])
  }

  predicate InPlace(mem: seq<Byte>, a: nat) {
    a + 2 <= |mem| && mem[a] == 0x02 && mem[a + 1] == 0x90
  }

  predicate Apart(s: Saved, t: Saved) { s.addr + 2 <= t.addr || t.addr + 2 <= s.addr }

  lemma WriteElsewhere(mem: seq<Byte>, a: nat, v: seq<Byte>, b: nat)
    requires a + |v| <= |mem| && InPlace(mem, b) && (a + |v| <= b || b + 2 <= a)
    ensures InPlace(Write(mem, a, v), b)
  {}

  lemma StepKeepsArmed(s: State, op: Op)
    requires Armed(s) && Legal(s, op)
    ensures Armed(Step(s, op))
  {
    match op
    case Add(key, addr) => AddKeepsArmed(s, key, addr);
    case Remove(key) => RemoveKeepsArmed(s, key);
    case GuestWrite(addr, bytes) =>
      forall k | k in s.bps ensures InPlace(Write(s.mem, addr, bytes), s.bps[k].addr) {
        WriteElsewhere(s.mem, addr, bytes, s.bps[k].addr);
      }
  }

  lemma AddKeepsArmed(s: State, key: nat, addr: nat)
    requires Armed(s) && Legal(s, Add(key, addr))
    ensures Armed(AfterAdd(s, key, addr))
  {
    var t := AfterAdd(s, key, addr);
    forall k | k in s.bps ensures Apart(s.bps[k], t.bps[key]) && InPlace(t.mem, s.bps[k].addr) {
      assert Some(k) != None;
      assert !Within(s.bps[k], addr) && !Within(s.bps[k], addr + 1);
      WriteElsewhere(s.mem, addr, EBREAK, s.bps[k].addr);
    }
    assert InPlace(t.mem, addr);
  }

  lemma RemoveKeepsArmed(s: State, key: nat)
    requires Armed(s) && Legal(s, Remove(key))
    ensures Armed(AfterRemove(s, key))
  {
    if key in s.bps {
      var t := AfterRemove(s, key);
      forall k | k in t.bps ensures InPlace(t.mem, t.bps[k].addr) {
        assert Apart(s.bps[k], s.bps[key]);
        WriteElsewhere(s.mem, s.bps[key].addr, s.bps[key].inst, s.bps[k].addr);
      }
    }
  }

  /** Over every run, every live breakpoint stays where the guest will hit it. */
  lemma {:induction false} RunStaysArmed(s: State, ops: seq<Op>)
    requires Armed(s) && LegalRun(s, ops)
    ensures Armed(Run(s, ops))
    decreases |ops|
  {
    if ops != [] {
      StepKeepsArmed(s, ops[0]);
      RunStaysArmed(Step(s, ops[0]), ops[1..]);
    }
  }

  // ---- the debugger target ----

  /** The reply to the debugger: done or not, or an error number. */
  datatype Reply = Done(ok: bool) | Errno

  class Target {
    var mem: seq<Byte>
    var breakpoints: map<nat, Saved>

    ghost function View(): State reads this { State(mem, breakpoints) }

    /** Every record fits memory. */
    ghost predicate Valid() reads this {
      forall k :: k in breakpoints ==> breakpoints[k].addr + |breakpoints[k].inst| <= |mem|
    }

    /** `page` is what the guest page table says of the address, when paging is on; an access
        fails when it leaves memory or the outer page table refuses it. */
    method AddSwBreakpoint(bpAddr: nat, paging: bool, page: Option<nat>, readable: bool, writable: bool)
      returns (r: Reply)
      requires Valid()
      modifies this
      ensures Valid()
      ensures var addr := if paging && page.Some? then page.value else bpAddr;
        var ok := (paging ==> page.Some?) && addr + 2 <= old(|mem|) && readable && writable;
        r == Done(ok) && View() == if ok then AfterAdd(old(View()), bpAddr, addr) else old(View())
    {
      var addr := bpAddr;
      if paging {
        if page.None? { return Done(false); }
        addr := page.value;
      }
      if addr + 2 > |mem| || !readable { return Done(false); }
      var inst := mem[addr..addr + 2];
      if !writable { return Done(false); }
      mem := Write(mem, addr, EBREAK);
      breakpoints := breakpoints[bpAddr := Saved(addr, inst)];
      r := Done(true);
    }

    /** The record is dropped before the write is tried. */
    method RemoveSwBreakpoint(bpAddr: nat, writable: bool) returns (r: Reply)
      requires Valid()
      modifies this
      ensures Valid()
      ensures bpAddr !in old(breakpoints) ==> r == Done(false) && View() == old(View())
      ensures bpAddr in old(breakpoints) && writable ==> r == Done(true) && View() == AfterRemove(old(View()), bpAddr)
      ensures bpAddr in old(breakpoints) && !writable ==>
        r == Errno && View() == State(old(mem), old(breakpoints) - {bpAddr})
    {
      if bpAddr !in breakpoints { return Done(false); }
      var saved := breakpoints[bpAddr];
      breakpoints := breakpoints - {bpAddr};
      if !writable { return Errno; }
      mem := Write(mem, saved.addr, saved.inst);
      r := Done(true);
    }
  }

  /** Each byte the record displaced is still displaced by another one, or was in memory already. */
  ghost predicate LosesNothing(s: State, key: nat)
    requires key in s.bps
  {
    forall i :: Within(s.bps[key], i) ==> Covered(s.bps - {key}, i) || Agrees(s.bps[key], s.mem, i)
  }

  /** A removal whose write is refused forgets the displaced bytes: the debugger stays invisible
      exactly when that loses nothing. */
  lemma RefusedRemoval(s: State, base: seq<Byte>, key: nat)
    requires Transparent(s, base) && key in s.bps
    ensures Transparent(State(s.mem, s.bps - {key}), base) <==> LosesNothing(s, key)
  {
    var t := State(s.mem, s.bps - {key});
    assert Displaced(s.bps[key], base);
    forall i | Within(s.bps[key], i) ensures s.mem[i] == base[i] <==> Agrees(s.bps[key], s.mem, i) {
      BaseByte(s, base, i);
    }
    forall i | !Within(s.bps[key], i) ensures Covered(s.bps, i) <==> Covered(t.bps, i) {
      StillCovered(s.bps, key, i);
    }
  }

  /** Among breakpoints that are in place and apart, that is when the record is of an `ebreak`. */
  lemma RefusedRemovalOfArmed(s: State, base: seq<Byte>, key: nat)
    requires Transparent(s, base) && Armed(s) && key in s.bps
    ensures Transparent(State(s.mem, s.bps - {key}), base) <==> s.bps[key].inst == EBREAK
  {
    RefusedRemoval(s, base, key);
    ArmedLosesNothing(s, key);
  }

  /** So an add and a refused removal leave the `ebreak` behind, unless the program has one there. */
  lemma RefusedRemovalLosesInstruction(base: seq<Byte>, key: nat, addr: nat)
    requires addr + 2 <= |base| && base[addr..addr + 2] != EBREAK
    ensures var s := AfterAdd(State(base, map[]), key, addr);
            !Transparent(State(s.mem, s.bps - {key}), base)
  {
    var s0 := State(base, map[]);
    FreshAddIsSafe(s0, key, addr);
    AddKeepsTransparent(s0, base, key, addr);
    AddKeepsArmed(s0, key, addr);
    RefusedRemovalOfArmed(AfterAdd(s0, key, addr), base, key);
  }

  lemma ArmedLosesNothing(s: State, key: nat)
    requires Armed(s) && key in s.bps
    ensures LosesNothing(s, key) <==> s.bps[key].inst == EBREAK
  {
    var r := s.bps[key];
    AloneInRange(s, key, r.addr);
    AloneInRange(s, key, r.addr + 1);
    assert LosesNothing(s, key) <==> Agrees(r, s.mem, r.addr) && Agrees(r, s.mem, r.addr + 1) by {
      assert Within(r, r.addr) && Within(r, r.addr + 1);
    }
    assert r.inst == [r.inst[0], r.inst[1]];
  }

  lemma AloneInRange(s: State, key: nat, i: int)
    requires Armed(s) && key in s.bps && Within(s.bps[key], i)
    ensures !Covered(s.bps - {key}, i)
  {
    forall k | k in s.bps && k != key ensures !Within(s.bps[k], i) {
      assert Apart(s.bps[k], s.bps[key]);
    }
  }
}
