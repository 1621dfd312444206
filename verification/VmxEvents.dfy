/** Event injection around VM exits: `vmx/vcpu.rs`, with the VM-entry interruption words of
    `vmx/vmcs.rs` and `vmx/definitions.rs`. */
module VmxEvents {
  import opened ApicTimers
  import Bits
  import opened Wrappers

  // ---- interruption information (section 24.8.3 of the Intel SDM, Vol. 3C) ----

  datatype IntType = External | Reserved | NMI | HardException | SoftIntr | PrivSoftException | SoftException | Other

  function Code(t: IntType): nat {
    match t
    case External => 0 case Reserved => 1 case NMI => 2 case HardException => 3
    case SoftIntr => 4 case PrivSoftException => 5 case SoftException => 6 case Other => 7
  }

  /** The inverse of `Code` on three bits. */
  function TypeOf(code: nat): IntType {
    if code == 0 then External else if code == 1 then Reserved else if code == 2 then NMI
    else if code == 3 then HardException else if code == 4 then SoftIntr
    else if code == 5 then PrivSoftException else if code == 6 then SoftException else Other
  }

  function FromVector(v: nat): IntType {
    if v == 1 then PrivSoftException
    else if v == 2 then NMI
    else if v == 3 || v == 4 then SoftException
    else if v <= 20 then HardException
    else if v >= 32 then External
    else Other
  }

  predicate HasErrorCode(v: nat) { v in {8, 10, 11, 12, 13, 14, 17} }

  predicate IsSoft(t: IntType) { t.SoftIntr? || t.SoftException? || t.PrivSoftException? }

  datatype InterruptInfo = InterruptInfo(vector: nat, intType: IntType, err: Option<nat>, valid: bool)

  function Flag(on: bool): nat { if on then 1 else 0 }

  /** `set_bit`: the bit is set or cleared. */
  function PutBit(word: nat, k: nat, on: bool): nat {
    if on then Bits.Or(word, Bits.Pow2(k)) else Bits.AndNot(word, Bits.Pow2(k))
  }

  /** The word written to the VMCS. */
  function Encode(info: InterruptInfo): nat {
    PutBit(PutBit(Bits.Or(info.vector, Code(info.intType) * Bits.Pow2(8)), 11, info.err.Some?), 31, info.valid)
  }

  lemma PutAbove(word: nat, k: nat, on: bool)
    requires word < Bits.Pow2(k)
    ensures PutBit(word, k, on) == word + Bits.Pow2(k) * Flag(on)
  {
    Bits.ClearAbove(word, k);
    Bits.OrShifted(word, 1, k);
  }

  lemma Powers()
    ensures Bits.Pow2(8) == 0x100 && Bits.Pow2(11) == 0x800 && Bits.Pow2(31) == 0x8000_0000
  {
    Bits.Pow2Byte(0);
    Bits.Pow2Byte(8);
    Bits.Pow2Byte(16);
    assert Bits.Pow2(11) == 2 * Bits.Pow2(10) == 4 * Bits.Pow2(9) == 8 * Bits.Pow2(8);
    Bits.Pow2Byte(23);
    Bits.Pow2Byte(15);
    Bits.Pow2Byte(7);
  }

  /** The fields lie side by side: bits 0-7, 8-10, 11 and 31. */
  lemma EncodeIsSum(info: InterruptInfo)
    requires info.vector < 0x100
    ensures Encode(info)
         == info.vector + 0x100 * Code(info.intType) + 0x800 * Flag(info.err.Some?) + 0x8000_0000 * Flag(info.valid)
  {
    Powers();
    var code := Code(info.intType);
    Bits.OrShifted(info.vector, code, 8);
    var low := info.vector + 0x100 * code;
    PutAbove(low, 11, info.err.Some?);
    PutAbove(low + 0x800 * Flag(info.err.Some?), 31, info.valid);
  }

  /** The word read back, with the error-code field beside it. */
  function Decode(word: nat, errField: nat): InterruptInfo {
    InterruptInfo(word % 0x100, TypeOf(word / 0x100 % 8),
                  if word / 0x800 % 2 == 1 then Some(errField) else None, word / 0x8000_0000 % 2 == 1)
  }

  /** Side-by-side fields can be taken apart. */
  lemma Fields(v: nat, c: nat, e: nat, ok: nat)
    requires v < 0x100 && c < 8 && e < 2 && ok < 2
    ensures var word := v + 0x100 * c + 0x800 * e + 0x8000_0000 * ok;
      word % 0x100 == v && word / 0x100 % 8 == c && word / 0x800 % 2 == e && word / 0x8000_0000 % 2 == ok
  {
    var word := v + 0x100 * c + 0x800 * e + 0x8000_0000 * ok;
    assert word / 0x100 == c + 8 * e + 0x80_0000 * ok;
    assert word / 0x800 == e + 0x10_0000 * ok;
  }

  lemma CodeRoundTrip(t: IntType)
    ensures Code(t) < 8 && TypeOf(Code(t)) == t
  {}

  /** What is written is what is read: every field, for every event. */
  lemma RoundTrip(info: InterruptInfo, errField: nat)
    requires info.vector < 0x100 && (info.err.Some? ==> info.err.value == errField)
    ensures Decode(Encode(info), errField) == info
  {
    EncodeIsSum(info);
    CodeRoundTrip(info.intType);
    Fields(info.vector, Code(info.intType), Flag(info.err.Some?), Flag(info.valid));
  }

  // ---- the virtual CPU ----

  /** The VMCS fields event injection reads and writes. */
  datatype Vmcs = Vmcs(controls: bv32, rflags: nat, interruptibility: nat,
                       entryInfo: nat, entryErr: nat, entryLen: nat, exitErr: nat, exitLen: nat)

  const WINDOW_EXITING: bv32 := 0x4
  const MONITOR_TRAP: bv32 := 0x800_0000
  const INTERRUPT_FLAG: nat := 0x200

  datatype Event = Event(vector: nat, err: Option<nat>)

  /** What the external handler, or the debugger, may do to the virtual CPU. */
  datatype Call =
    | InjectEvent(event: Event)
    | SetWindow(on: bool)
    | SetTrap(on: bool)
    | TimerLvt(bits: nat, at: nat)
    | TimerCount(count: nat, at: nat)
    | TimerDivide(dcr: nat, at: nat)
    | GuestState(rflags: nat, interruptibility: nat)

  datatype Reason = InterruptWindow | MonitorTrapFlag | ExceptionNmi | OtherReason

  /** One exit: the guest state the processor saved, what the handler then did, whether it
      succeeded, and the clock when the timer was checked. */
  datatype Exit = Exit(reason: Reason, entryFailure: bool, rflags: nat, interruptibility: nat,
                       exitErr: nat, exitLen: nat, calls: seq<Call>, ok: bool, now: nat)

  /** The valid bit of the interruption field: the next entry injects an event. */
  predicate Injects(v: Vmcs) { v.entryInfo / 0x8000_0000 % 2 == 1 }

  /** The fields of the exit and of the next entry are the same. */
  predicate SameEntry(v: Vmcs, r: Vmcs) {
    && r.entryInfo == v.entryInfo && r.entryErr == v.entryErr && r.entryLen == v.entryLen
    && r.exitErr == v.exitErr && r.exitLen == v.exitLen
  }

  /** What the processor saves on an exit; it also clears the valid bit. */
  function SavedBy(e: Exit, v: Vmcs): (r: Vmcs)
    ensures !Injects(r) && r.controls == v.controls
    ensures r.rflags == e.rflags && r.interruptibility == e.interruptibility
    ensures r.exitErr == e.exitErr && r.exitLen == e.exitLen
  {
    v.(rflags := e.rflags, interruptibility := e.interruptibility, exitErr := e.exitErr,
       exitLen := e.exitLen, entryInfo := v.entryInfo % 0x8000_0000)
  }

  predicate WindowOn(v: Vmcs) { v.controls & WINDOW_EXITING != 0 }

  predicate TrapOn(v: Vmcs) { v.controls & MONITOR_TRAP != 0 }

  /** Interrupts are enabled and nothing blocks them (section 24.4.2, table 24-3). */
  predicate Allows(rflags: nat, interruptibility: nat) {
    rflags / INTERRUPT_FLAG % 2 == 1 && interruptibility == 0
  }

  function WithBit(ctrl: bv32, bit: bv32, on: bool): bv32 {
    if on then ctrl | bit else ctrl & !bit
  }

  /** Interrupt-window exiting is bit 2 of the primary controls, the monitor trap flag bit 27; the
      interrupt flag is bit 9 of RFLAGS. */
  lemma ControlBits(v: Vmcs, rflags: nat, interruptibility: nat)
    ensures WindowOn(v) <==> (v.controls >> 2) & 1 == 1
    ensures TrapOn(v) <==> (v.controls >> 27) & 1 == 1
    ensures Allows(rflags, interruptibility) <==> Bits.Bit(rflags, 9) && interruptibility == 0
  {
    NinthBit(rflags);
  }

  lemma NinthBit(x: nat)
    ensures Bits.Bit(x, 9) <==> x / 0x200 % 2 == 1
  {
    Bits.ShrStep(x, 0); Bits.ShrStep(x, 1); Bits.ShrStep(x, 2);
    Bits.ShrStep(x, 3); Bits.ShrStep(x, 4); Bits.ShrStep(x, 5);
    Bits.ShrStep(x, 6); Bits.ShrStep(x, 7); Bits.ShrStep(x, 8);
    assert Bits.Shr(x, 3) == x / 8;
    assert Bits.Shr(x, 6) == x / 64;
    assert Bits.Shr(x, 9) == x / 512;
  }

  /** Switching one control leaves the other as it was. */
  lemma ControlsIndependent(ctrl: bv32, on: bool)
    ensures (WithBit(ctrl, WINDOW_EXITING, on) & WINDOW_EXITING != 0) == on
    ensures WithBit(ctrl, WINDOW_EXITING, on) & MONITOR_TRAP == ctrl & MONITOR_TRAP
    ensures (WithBit(ctrl, MONITOR_TRAP, on) & MONITOR_TRAP != 0) == on
    ensures WithBit(ctrl, MONITOR_TRAP, on) & WINDOW_EXITING == ctrl & WINDOW_EXITING
  {}

  /** The word an event with this vector is injected with: the error-code bit follows the vector. */
  function EntryInfo(vector: nat, err: nat): InterruptInfo {
    InterruptInfo(vector, FromVector(vector), if HasErrorCode(vector) then Some(err) else None, true)
  }

  function EntryWord(vector: nat): nat {
    Encode(EntryInfo(vector, 0))
  }

  /** The word for every vector, as the processor reads it: bits 0-7 the vector, 8-10 the type, 11 the
      error-code bit, 31 valid. */
  lemma WordOfVector(v: nat)
    requires v < 0x100
    ensures EntryWord(v) == 0x8000_0000 + v +
      if v >= 32 then 0
      else if v == 2 then 0x200
      else if v == 1 then 0x500
      else if v in {3, 4} then 0x600
      else if v in {8, 10, 11, 12, 13, 14, 17} then 0xb00
      else if v <= 20 then 0x300
      else 0x700
    ensures IsSoft(FromVector(v)) <==> v in {1, 3, 4}
  {
    EncodeIsSum(EntryInfo(v, 0));
  }

  /** The vector can be read back from the word. */
  lemma EntryWordVector(vector: nat)
    requires vector < 0x100
    ensures Decode(EntryWord(vector), 0).vector == vector && Decode(EntryWord(vector), 0).valid
  {
    RoundTrip(EntryInfo(vector, 0), 0);
  }

  /** The events a list of calls adds to the queue. */
  function Added(calls: seq<Call>): seq<Event> {
    if calls == [] then []
    else
      var k := |calls| - 1;
      Added(calls[..k]) + if calls[k].InjectEvent? then [calls[k].event] else []
  }

  predicate CallOk(c: Call) {
    match c
    case InjectEvent(e) => e.vector < 0x100
    case TimerLvt(bits, _) => bits < 0x1_0000_0000
    case TimerCount(count, _) => count < 0x1_0000_0000
    case TimerDivide(dcr, _) => dcr < 0x1_0000_0000
    case _ => true
  }

  /** When a call reads the clock. */
  function CallTime(c: Call, clock: nat): nat {
    match c
    case TimerLvt(_, at) => at
    case TimerCount(_, at) => at
    case TimerDivide(_, at) => at
    case _ => clock
  }

  /** The clock after a list of calls, if it never goes back; `None` if it does. */
  function ClockAfter(calls: seq<Call>, clock: nat): Option<nat> {
    if calls == [] then Some(clock)
    else
      var k := |calls| - 1;
      match ClockAfter(calls[..k], clock)
      case None => None
      case Some(t) => if CallTime(calls[k], t) < t then None else Some(CallTime(calls[k], t))
  }

  /** The timer after a call, and after a list of calls. */
  function TimerAfterCall(t: Timer, c: Call): Timer {
    match c
    case TimerLvt(bits, at) => if Mode(bits) < 2 then t.(lvt := bits).Restarted(at) else t
    case TimerCount(count, at) => t.(count := count).Restarted(at)
    case TimerDivide(dcr, at) => t.(shift := ShiftOf(dcr)).Restarted(at)
    case _ => t
  }

  function TimerAfter(t: Timer, calls: seq<Call>): Timer {
    if calls == [] then t
    else
      var k := |calls| - 1;
      TimerAfterCall(TimerAfter(t, calls[..k]), calls[k])
  }

  /** The two controls after a list of calls. */
  function WindowAfter(calls: seq<Call>, on: bool): bool {
    if calls == [] then on
    else
      var k := |calls| - 1;
      if calls[k].SetWindow? then calls[k].on else WindowAfter(calls[..k], on)
  }

  function TrapAfter(calls: seq<Call>, on: bool): bool {
    if calls == [] then on
    else
      var k := |calls| - 1;
      if calls[k].SetTrap? then calls[k].on else TrapAfter(calls[..k], on)
  }

  /** RFLAGS and interruptibility after a list of calls. */
  function GuestAfter(calls: seq<Call>, rflags: nat, interruptibility: nat): (nat, nat) {
    if calls == [] then (rflags, interruptibility)
    else
      var k := |calls| - 1;
      if calls[k].GuestState? then (calls[k].rflags, calls[k].interruptibility)
      else GuestAfter(calls[..k], rflags, interruptibility)
  }

  // ---- what those functions mean ----

  /** Exactly the injected events are added, in the order of the calls. */
  lemma {:induction false} AddedJoins(a: seq<Call>, b: seq<Call>)
    ensures Added(a + b) == Added(a) + Added(b)
    decreases |b|
  {
    if b == [] {
      assert a + b == a;
    } else {
      var k := |b| - 1;
      assert (a + b)[..|a| + k] == a + b[..k];
      AddedJoins(a, b[..k]);
    }
  }

  lemma AddedOne(c: Call)
    ensures Added([c]) == if c.InjectEvent? then [c.event] else []
  {
    assert [c][..0] == [];
  }

  lemma {:induction false} TimerJoins(t: Timer, a: seq<Call>, b: seq<Call>)
    ensures TimerAfter(t, a + b) == TimerAfter(TimerAfter(t, a), b)
    decreases |b|
  {
    if b == [] {
      assert a + b == a;
    } else {
      var k := |b| - 1;
      assert (a + b)[..|a| + k] == a + b[..k];
      TimerJoins(t, a, b[..k]);
    }
  }

  /** A setter reaches its register and restarts the timer at that moment if it has a count; any
      other call leaves the timer alone. */
  lemma TimerOne(t: Timer, c: Call)
    ensures var u := TimerAfter(t, [c]);
      match c
      case TimerLvt(bits, at) =>
        if bits / 0x2_0000 % 4 < 2 then u.lvt == bits && u.shift == t.shift && u.count == t.count && Started(t, u, at)
        else u == t
      case TimerCount(count, at) => u.lvt == t.lvt && u.shift == t.shift && u.count == count && Started(t, u, at)
      case TimerDivide(dcr, at) =>
        u.lvt == t.lvt && Bits.Pow2(u.shift) == Divisor(dcr) && u.count == t.count && Started(t, u, at)
      case _ => u == t
  {
    assert [c][..0] == [];
    if c.TimerDivide? { DivideRoundTrip(c.dcr); }
  }

  predicate Started(t: Timer, u: Timer, at: nat) {
    u.checks == [] && u.start == if u.count > 0 then at else t.start
  }

  /** The last call of a kind decides, and without one nothing changes. */
  lemma {:induction false} LastCallDecides(calls: seq<Call>, i: nat, on: bool, rflags: nat, interruptibility: nat)
    requires i < |calls|
    ensures calls[i].SetWindow? && (forall j :: i < j < |calls| ==> !calls[j].SetWindow?) ==>
      WindowAfter(calls, on) == calls[i].on
    ensures calls[i].SetTrap? && (forall j :: i < j < |calls| ==> !calls[j].SetTrap?) ==>
      TrapAfter(calls, on) == calls[i].on
    ensures calls[i].GuestState? && (forall j :: i < j < |calls| ==> !calls[j].GuestState?) ==>
      GuestAfter(calls, rflags, interruptibility) == (calls[i].rflags, calls[i].interruptibility)
    decreases |calls|
  {
    var k := |calls| - 1;
    if i < k { LastCallDecides(calls[..k], i, on, rflags, interruptibility); }
  }

  lemma {:induction false} NoCallKeeps(calls: seq<Call>, on: bool, rflags: nat, interruptibility: nat)
    ensures (forall j :: 0 <= j < |calls| ==> !calls[j].SetWindow?) ==> WindowAfter(calls, on) == on
    ensures (forall j :: 0 <= j < |calls| ==> !calls[j].SetTrap?) ==> TrapAfter(calls, on) == on
    ensures (forall j :: 0 <= j < |calls| ==> !calls[j].GuestState?) ==>
      GuestAfter(calls, rflags, interruptibility) == (rflags, interruptibility)
    decreases |calls|
  {
    if calls != [] { NoCallKeeps(calls[..|calls| - 1], on, rflags, interruptibility); }
  }

  /** Everything ever queued was either injected, in order and word for word, or still waits. */
  ghost predicate Conserved(enqueued: seq<Event>, written: seq<nat>, pending: seq<Event>) {
    && (forall i :: 0 <= i < |enqueued| ==> enqueued[i].vector < 0x100)
    && |written| <= |enqueued| && pending == enqueued[|written|..]
    && forall i :: 0 <= i < |written| ==> written[i] == EntryWord(enqueued[i].vector)
  }

  lemma ConservedStep(enqueued: seq<Event>, written: seq<nat>, pending: seq<Event>)
    requires Conserved(enqueued, written, pending) && pending != []
    ensures pending[0].vector < 0x100
    ensures Conserved(enqueued, written + [EntryWord(pending[0].vector)], pending[1..])
  {
    var n := |written|;
    var words := written + [EntryWord(pending[0].vector)];
    assert pending[0] == enqueued[n];
    assert pending[1..] == enqueued[n + 1..];
    forall i | 0 <= i < |words| ensures words[i] == EntryWord(enqueued[i].vector) {
      if i < n { assert words[i] == written[i]; }
    }
  }

  function Vectors(events: seq<Event>): seq<nat> {
    seq(|events|, i requires 0 <= i < |events| => events[i].vector)
  }

  function DecodedVectors(words: seq<nat>): seq<nat> {
    seq(|words|, i requires 0 <= i < |words| => Decode(words[i], 0).vector)
  }

  /** Decoding what was injected and appending what waits gives what was queued. */
  lemma NoneLostOrReordered(enqueued: seq<Event>, written: seq<nat>, pending: seq<Event>)
    requires Conserved(enqueued, written, pending)
    ensures DecodedVectors(written) + Vectors(pending) == Vectors(enqueued)
  {
    forall i | 0 <= i < |written| ensures DecodedVectors(written)[i] == enqueued[i].vector {
      InjectedVector(enqueued, written, i);
    }
  }

  lemma InjectedVector(enqueued: seq<Event>, written: seq<nat>, i: nat)
    requires i < |written| <= |enqueued| && enqueued[i].vector < 0x100 && written[i] == EntryWord(enqueued[i].vector)
    ensures Decode(written[i], 0).vector == enqueued[i].vector
  {
    EntryWordVector(enqueued[i].vector);
  }

  /** The calls that are made at an exit: none on an interrupt window. */
  function Made(e: Exit): seq<Call> {
    if e.reason.InterruptWindow? then [] else e.calls
  }

  /** The queue `q` was offered to the guest. Exactly its oldest event is injected, if it is an
      exception or the guest takes interrupts: the word written, the error code if the vector has
      one, its own or the exit's, and the instruction length for a software event. Otherwise all of
      it waits, with interrupt-window exiting on. */
  ghost predicate Offered(q: seq<Event>, takes: bool, exitErr: nat, exitLen: nat, words: seq<nat>,
                          v: Vmcs, words': seq<nat>, rest: seq<Event>)
  {
    if q == [] then rest == [] && words' == words
    else if q[0].vector < 32 || takes then
      && rest == q[1..] && words' == words + [EntryWord(q[0].vector)] && v.entryInfo == EntryWord(q[0].vector)
      && (HasErrorCode(q[0].vector) ==> v.entryErr == if q[0].err.Some? then q[0].err.value else exitErr)
      && (IsSoft(FromVector(q[0].vector)) ==> v.entryLen == exitLen)
    else
      rest == q && words' == words && WindowOn(v)
  }

  /** The VMCS with an event written to its entry fields: the error code only where the vector has one,
      the caller's or else the last exit's, the instruction length only for software events. */
  function AfterInjection(v: Vmcs, e: Event): Vmcs {
    v.(entryInfo := EntryWord(e.vector),
       entryErr := if !HasErrorCode(e.vector) then v.entryErr else if e.err.Some? then e.err.value else v.exitErr,
       entryLen := if IsSoft(FromVector(e.vector)) then v.exitLen else v.entryLen)
  }

  /** What an exit adds to the queue: the handler's events, then the timer's vector if a check at
      the end of the exit finds an expiry. */
  function Queued(t: Timer, e: Exit): seq<Event> {
    var u := TimerAfter(t, Made(e));
    Added(Made(e)) + if u.Fires(e.now) then [Event(u.Vector(), None)] else []
  }

  function TimerAfterExit(t: Timer, e: Exit): Timer {
    TimerAfter(t, Made(e)).Checked(e.now)
  }

  /** What a run of exits adds to the queue, in order. */
  function QueuedBy(t: Timer, exits: seq<Exit>): seq<Event>
    decreases |exits|
  {
    if exits == [] then [] else Queued(t, exits[0]) + QueuedBy(TimerAfterExit(t, exits[0]), exits[1..])
  }

  /** The controls as the exit's own handling and the handler's calls leave them. */
  predicate WindowLeft(e: Exit, on: bool) { WindowAfter(Made(e), !e.reason.InterruptWindow? && on) }

  predicate TrapLeft(e: Exit, on: bool) { TrapAfter(Made(e), !e.reason.MonitorTrapFlag? && on) }

  /** Whether the exit is handled rather than ending in a panic. */
  predicate Handled(e: Exit) {
    !e.entryFailure && (e.reason.OtherReason? ==> e.ok)
  }

  /** Whether the guest takes interrupts after the exit was handled. */
  predicate Interruptible(e: Exit) {
    var (rflags, interruptibility) := GuestAfter(Made(e), e.rflags, e.interruptibility);
    Allows(rflags, interruptibility)
  }

  /** The queue grew by these events, and then by the timer's interrupt if it fires. */
  predicate Grew(was: seq<Event>, now: seq<Event>, added: seq<Event>, fires: bool, vector: nat) {
    now == was + added + if fires then [Event(vector, None)] else []
  }

  /** The handler runs on every exit but an interrupt-window one, and all its calls take effect:
      its events come before the timer's. */
  lemma HandlerRuns(was: seq<Event>, t: Timer, e: Exit, vector: nat)
    requires vector == TimerAfterExit(t, e).lvt % 0x100
    ensures e.reason != InterruptWindow ==>
      && Grew(was, was + Queued(t, e), Added(e.calls), TimerAfter(t, e.calls).Fires(e.now), vector)
      && TimerAfterExit(t, e) == TimerAfter(t, e.calls).Checked(e.now)
    ensures e.reason == InterruptWindow ==>
      && Grew(was, was + Queued(t, e), [], t.Fires(e.now), vector)
      && TimerAfterExit(t, e) == t.Checked(e.now)
  {
    var calls := if e.reason == InterruptWindow then [] else e.calls;
    var fires := TimerAfter(t, calls).Fires(e.now);
    Regroup(was, Added(calls), if fires then [Event(vector, None)] else []);
  }

  /** The same for the controls and the guest's state. */
  lemma HandlerLeaves(e: Exit, window: bool, trap: bool)
    ensures e.reason != InterruptWindow ==>
      && WindowLeft(e, window) == WindowAfter(e.calls, window)
      && TrapLeft(e, trap) == TrapAfter(e.calls, trap && e.reason != MonitorTrapFlag)
      && GuestAfter(Made(e), e.rflags, e.interruptibility) == GuestAfter(e.calls, e.rflags, e.interruptibility)
    ensures e.reason == InterruptWindow ==>
      && !WindowLeft(e, window) && TrapLeft(e, trap) == trap
      && GuestAfter(Made(e), e.rflags, e.interruptibility) == (e.rflags, e.interruptibility)
  {}

  predicate ExitOk(e: Exit, clock: nat) {
    && (forall k :: 0 <= k < |Made(e)| ==> CallOk(Made(e)[k]))
    && var t := ClockAfter(Made(e), clock);
       t.Some? && t.value <= e.now < CLOCK_LIMIT
  }

  class VmxVcpu {
    const timer: ApicTimer
    var vmcs: Vmcs
    var pending: seq<Event>
    /** Every event ever queued, every word ever written to the interruption field, the latest clock. */
    ghost var enqueued: seq<Event>
    ghost var written: seq<nat>
    ghost var clock: nat

    ghost predicate Valid() reads this, timer {
      timer.Valid() && timer.Now(clock) && Conserved(enqueued, written, pending)
    }

    /** A new virtual CPU has nothing queued, a stopped timer and interrupts off. */
    constructor (controls: bv32)
      ensures Valid() && fresh(timer) && enqueued == [] && written == [] && clock == 0
      ensures !Allows(vmcs.rflags, vmcs.interruptibility)
    {
      timer := new ApicTimer();
      vmcs := Vmcs(controls, 0x2, 0, 0, 0, 0, 0, 0);
      pending, enqueued, written, clock := [], [], [], 0;
    }

    method InjectEvent(e: Event)
      requires Valid() && e.vector < 0x100
      modifies this`pending, this`enqueued
      ensures Valid() && pending == old(pending) + [e] && enqueued == old(enqueued) + [e]
    {
      pending := pending + [e];
      enqueued := enqueued + [e];
    }

    method SetInterruptWindow(enable: bool)
      modifies this`vmcs
      ensures vmcs == old(vmcs).(controls := WithBit(old(vmcs).controls, WINDOW_EXITING, enable))
      ensures WindowOn(vmcs) == enable && TrapOn(vmcs) == TrapOn(old(vmcs))
    {
      ControlsIndependent(vmcs.controls, enable);
      vmcs := vmcs.(controls := WithBit(vmcs.controls, WINDOW_EXITING, enable));
    }

    method SetMonitorTrapFlag(enable: bool)
      modifies this`vmcs
      ensures vmcs == old(vmcs).(controls := WithBit(old(vmcs).controls, MONITOR_TRAP, enable))
      ensures TrapOn(vmcs) == enable && WindowOn(vmcs) == WindowOn(old(vmcs))
    {
      ControlsIndependent(vmcs.controls, enable);
      vmcs := vmcs.(controls := WithBit(vmcs.controls, MONITOR_TRAP, enable));
    }

    method Perform(c: Call)
      requires Valid() && CallOk(c) && clock <= CallTime(c, clock) < CLOCK_LIMIT
      modifies this`vmcs, this`pending, this`enqueued, this`clock, timer
      ensures Valid() && clock == CallTime(c, old(clock))
      ensures enqueued == old(enqueued) + if c.InjectEvent? then [c.event] else []
      ensures pending == old(pending) + if c.InjectEvent? then [c.event] else []
      ensures timer.View() == TimerAfterCall(old(timer.View()), c)
      ensures WindowOn(vmcs) == if c.SetWindow? then c.on else WindowOn(old(vmcs))
      ensures TrapOn(vmcs) == if c.SetTrap? then c.on else TrapOn(old(vmcs))
      ensures vmcs.rflags == if c.GuestState? then c.rflags else old(vmcs).rflags
      ensures vmcs.interruptibility == if c.GuestState? then c.interruptibility else old(vmcs).interruptibility
      ensures SameEntry(old(vmcs), vmcs)
    {
      match c {
        case InjectEvent(e) => InjectEvent(e);
        case SetWindow(on) => SetInterruptWindow(on);
        case SetTrap(on) => SetMonitorTrapFlag(on);
        case TimerLvt(bits, at) => clock := at; var _ := timer.SetLvtTimer(bits, at);
        case TimerCount(count, at) => clock := at; timer.SetInitialCount(count, at);
        case TimerDivide(dcr, at) => clock := at; timer.SetDivide(dcr, at);
        case GuestState(r, i) => vmcs := vmcs.(rflags := r, interruptibility := i);
      }
    }

    /** The external handler, or the debugger, at work. */
    method PerformAll(calls: seq<Call>, ghost limit: nat)
      requires Valid() && limit < CLOCK_LIMIT
      requires forall k :: 0 <= k < |calls| ==> CallOk(calls[k])
      requires var t := ClockAfter(calls, clock); t.Some? && t.value <= limit
      modifies this`vmcs, this`pending, this`enqueued, this`clock, timer
      ensures Valid() && ClockAfter(calls, old(clock)) == Some(clock)
      ensures enqueued == old(enqueued) + Added(calls) && pending == old(pending) + Added(calls)
      ensures timer.View() == TimerAfter(old(timer.View()), calls)
      ensures WindowOn(vmcs) == WindowAfter(calls, WindowOn(old(vmcs)))
      ensures TrapOn(vmcs) == TrapAfter(calls, TrapOn(old(vmcs)))
      ensures (vmcs.rflags, vmcs.interruptibility) == GuestAfter(calls, old(vmcs).rflags, old(vmcs).interruptibility)
      ensures SameEntry(old(vmcs), vmcs)
    {
      if calls != [] {
        var last := |calls| - 1;
        PerformAll(calls[..last], limit);
        Perform(calls[last]);
      }
    }

    /** `vmcs::inject_event`: an error code only where the vector has one, the caller's or else
        the one of the last exit; the instruction length only for software events. */
    method InjectVmcs(e: Event)
      requires e.vector < 0x100
      modifies this`vmcs, this`written
      ensures written == old(written) + [EntryWord(e.vector)] && Injects(vmcs) && vmcs.entryInfo % 0x100 == e.vector
      ensures e.vector >= 32 ==> vmcs == old(vmcs).(entryInfo := 0x8000_0000 + e.vector)
      ensures vmcs == AfterInjection(old(vmcs), e)
      ensures e.vector in {8, 10, 11, 12, 13, 14, 17} ==>
        vmcs.entryErr == if e.err.Some? then e.err.value else old(vmcs).exitErr
      ensures e.vector in {1, 3, 4} ==> vmcs.entryLen == old(vmcs).exitLen
    {
      var err := if HasErrorCode(e.vector) then (if e.err.Some? then e.err else Some(vmcs.exitErr)) else None;
      var info := InterruptInfo(e.vector, FromVector(e.vector), err, true);
      if info.err.Some? {
        vmcs := vmcs.(entryErr := info.err.value);
      }
      if IsSoft(info.intType) {
        vmcs := vmcs.(entryLen := vmcs.exitLen);
      }
      EntryWordVector(e.vector);
      WordOfVector(e.vector);
      vmcs := vmcs.(entryInfo := Encode(info));
      written := written + [Encode(info)];
    }

    /** An exception, or an interrupt the guest can take, leaves the queue for the VMCS; an
        interrupt it cannot take waits with interrupt-window exiting on. */
    method CheckPendingEvents()
      requires Valid()
      modifies this`vmcs, this`pending, this`written
      ensures Valid()
      ensures Offered(old(pending), Allows(old(vmcs).rflags, old(vmcs).interruptibility), old(vmcs).exitErr,
                      old(vmcs).exitLen, old(written), vmcs, written, pending)
      ensures WindowOn(vmcs) <==> WindowOn(old(vmcs)) || (written == old(written) && pending != [])
      ensures written == old(written) ==> vmcs == old(vmcs).(controls := vmcs.controls)
      ensures written != old(written) || pending == [] ==> vmcs.controls == old(vmcs).controls
      ensures Injects(vmcs) <==> Injects(old(vmcs)) || written != old(written)
      ensures TrapOn(vmcs) == TrapOn(old(vmcs))
      ensures vmcs.rflags == old(vmcs).rflags && vmcs.interruptibility == old(vmcs).interruptibility
      ensures written != old(written) && vmcs.entryInfo % 0x100 >= 32 ==> Allows(vmcs.rflags, vmcs.interruptibility)
      ensures old(pending) != [] ==>
        (written != old(written) <==> old(pending)[0].vector < 32 || Allows(vmcs.rflags, vmcs.interruptibility))
    {
      if pending != [] {
        if pending[0].vector < 32 || Allows(vmcs.rflags, vmcs.interruptibility) {
          InjectFront();
        } else {
          SetInterruptWindow(true);
        }
      }
    }

    /** The oldest event goes to the VMCS. */
    method InjectFront()
      requires Valid() && pending != []
      modifies this`vmcs, this`pending, this`written
      ensures Valid() && pending == old(pending)[1..] && written == old(written) + [EntryWord(old(pending)[0].vector)]
      ensures Injects(vmcs) && vmcs.entryInfo % 0x100 == old(pending)[0].vector
      ensures vmcs == AfterInjection(old(vmcs), old(pending)[0])
    {
      ConservedStep(enqueued, written, pending);
      InjectVmcs(pending[0]);
      pending := pending[1..];
    }

    /** `vmexit_handler`, after the processor has saved the guest state and cleared the valid bit
        of the interruption field. */
    method HandleExit(e: Exit) returns (handled: bool)
      requires Valid() && ExitOk(e, clock)
      modifies this, timer
      ensures handled <==> !e.entryFailure && (e.reason.OtherReason? ==> e.ok)
      ensures handled ==> Valid() && clock == e.now && timer.View() == TimerAfterExit(old(timer.View()), e)
      ensures handled ==> enqueued == old(enqueued) + Queued(old(timer.View()), e)
      // all that the handler queued, unless it is an interrupt window, then the timer's interrupt
      ensures handled && e.reason != InterruptWindow ==>
        Grew(old(enqueued), enqueued, Added(e.calls), TimerAfter(old(timer.View()), e.calls).Fires(e.now),
             timer.Vector())
      ensures handled && e.reason == InterruptWindow ==>
        Grew(old(enqueued), enqueued, [], old(timer.View()).Fires(e.now), timer.Vector())
      // at most the oldest event is injected, an interrupt only if its flag is set and nothing blocks it
      ensures handled ==> Offered(old(pending) + Queued(old(timer.View()), e), Interruptible(e), e.exitErr, e.exitLen,
                                  old(written), vmcs, written, pending)
      ensures handled ==> (Interruptible(e) <==> Bits.Bit(vmcs.rflags, 9) && vmcs.interruptibility == 0)
      ensures handled && e.reason == InterruptWindow ==>
        vmcs.rflags == e.rflags && vmcs.interruptibility == e.interruptibility
      ensures handled && e.reason != InterruptWindow ==>
        (vmcs.rflags, vmcs.interruptibility) == GuestAfter(e.calls, e.rflags, e.interruptibility)
      ensures handled && Injects(vmcs) && vmcs.entryInfo % 0x100 >= 32 ==>
        Bits.Bit(vmcs.rflags, 9) && vmcs.interruptibility == 0
      // the entry injects something exactly when this exit wrote a word, which an exception never waits for
      ensures handled ==> (Injects(vmcs) <==> written != old(written))
      ensures handled && old(pending) != [] ==> (Injects(vmcs) <==>
        old(pending)[0].vector < 32 || (Bits.Bit(vmcs.rflags, 9) && vmcs.interruptibility == 0))
      // the controls: an event that has to wait keeps the window on
      ensures handled ==> (WindowOn(vmcs) <==>
        || (e.reason != InterruptWindow && WindowAfter(e.calls, WindowOn(old(vmcs))))
        || (written == old(written) && pending != []))
      ensures handled && e.reason == InterruptWindow ==> TrapOn(vmcs) == TrapOn(old(vmcs))
      ensures handled && e.reason != InterruptWindow ==>
        TrapOn(vmcs) == TrapAfter(e.calls, TrapOn(old(vmcs)) && e.reason != MonitorTrapFlag)
    {
      ghost var t, v := timer.View(), vmcs;
      handled := ServeExit(e);
      if handled {
        HandlerRuns(old(enqueued), t, e, timer.Vector());
        HandlerLeaves(e, WindowOn(v), TrapOn(v));
        ControlBits(vmcs, vmcs.rflags, vmcs.interruptibility);
      }
    }

    /** The same in terms of what the exit queues and leaves. */
    method ServeExit(e: Exit) returns (handled: bool)
      requires Valid() && ExitOk(e, clock)
      modifies this, timer
      ensures handled <==> Handled(e)
      ensures handled ==> Valid() && clock == e.now && timer.View() == TimerAfterExit(old(timer.View()), e)
      // the queue grows by what the handler adds, then by the timer's vector
      ensures handled ==> enqueued == old(enqueued) + Queued(old(timer.View()), e)
      // at most the oldest event is injected, and only if the guest can take it
      ensures handled ==> Offered(old(pending) + Queued(old(timer.View()), e), Interruptible(e), e.exitErr, e.exitLen,
                                  old(written), vmcs, written, pending)
      // the entry injects something exactly when this exit wrote a word
      ensures handled ==> (Injects(vmcs) <==> written != old(written))
      // the window stays on only for a call that wants it or an event that has to wait
      ensures handled ==> (WindowOn(vmcs) <==>
        WindowLeft(e, WindowOn(old(vmcs))) || (written == old(written) && pending != []))
      ensures handled ==> TrapOn(vmcs) == TrapLeft(e, TrapOn(old(vmcs)))
      ensures handled ==> (vmcs.rflags, vmcs.interruptibility) == GuestAfter(Made(e), e.rflags, e.interruptibility)
      ensures handled && written != old(written) && vmcs.entryInfo % 0x100 >= 32 ==> Interruptible(e)
      ensures handled && old(pending) != [] ==>
        (written != old(written) <==> old(pending)[0].vector < 32 || Interruptible(e))
    {
      handled := Dispatch(e);
      if handled {
        ghost var u := timer.View();
        CheckTimer(e.now);
        ghost var tick := if u.Fires(e.now) then [Event(u.Vector(), None)] else [];
        Regroup(old(pending), Added(Made(e)), tick);
        Regroup(old(enqueued), Added(Made(e)), tick);
        CheckPendingEvents();
      }
    }

    /** The exit reason is handled and the handler's calls are made. */
    method Dispatch(e: Exit) returns (ok: bool)
      requires Valid() && ExitOk(e, clock)
      modifies this`vmcs, this`pending, this`enqueued, this`clock, timer
      ensures ok <==> Handled(e)
      ensures ok ==> Valid() && clock <= e.now && timer.View() == TimerAfter(old(timer.View()), Made(e))
      ensures ok ==> enqueued == old(enqueued) + Added(Made(e)) && pending == old(pending) + Added(Made(e))
      ensures ok ==> (vmcs.rflags, vmcs.interruptibility) == GuestAfter(Made(e), e.rflags, e.interruptibility)
      ensures ok ==> vmcs.exitErr == e.exitErr && vmcs.exitLen == e.exitLen && !Injects(vmcs)
      ensures ok ==> WindowOn(vmcs) == WindowLeft(e, WindowOn(old(vmcs)))
      ensures ok ==> TrapOn(vmcs) == TrapLeft(e, TrapOn(old(vmcs)))
    {
      if e.entryFailure { return false; }
      Acknowledge(e);
      if !e.reason.InterruptWindow? {
        PerformAll(e.calls, e.now);
      }
      ok := !e.reason.OtherReason? || e.ok;
    }

    /** The saved state of the exit, and the control that caused it switched off. */
    method Acknowledge(e: Exit)
      modifies this`vmcs
      ensures SameEntry(SavedBy(e, old(vmcs)), vmcs)
      ensures vmcs.rflags == e.rflags && vmcs.interruptibility == e.interruptibility
      ensures WindowOn(vmcs) == (!e.reason.InterruptWindow? && WindowOn(old(vmcs)))
      ensures TrapOn(vmcs) == (!e.reason.MonitorTrapFlag? && TrapOn(old(vmcs)))
    {
      vmcs := SavedBy(e, vmcs);
      if e.reason.InterruptWindow? {
        SetInterruptWindow(false);
      } else if e.reason.MonitorTrapFlag? {
        SetMonitorTrapFlag(false);
      }
    }

    method CheckTimer(now: nat)
      requires Valid() && clock <= now < CLOCK_LIMIT
      modifies this`pending, this`enqueued, this`clock, timer
      ensures Valid() && clock == now && timer.View() == old(timer.View()).Checked(now)
      ensures var t := old(timer.View());
        var tick := if t.Fires(now) then [Event(t.Vector(), None)] else [];
        enqueued == old(enqueued) + tick && pending == old(pending) + tick
    {
      clock := now;
      var fires := timer.CheckInterrupt(now);
      if fires {
        InjectEvent(Event(timer.Vector(), None));
      }
    }

    /** One exit and the entry that follows it, as far as a run needs it. */
    method ExitAndEnter(e: Exit) returns (handled: bool)
      requires Valid() && ExitOk(e, clock)
      modifies this, timer
      ensures handled <==> Handled(e)
      ensures handled ==> Valid() && clock == e.now && timer.View() == TimerAfterExit(old(timer.View()), e)
      ensures handled ==> enqueued == old(enqueued) + Queued(old(timer.View()), e) && old(written) <= written
      ensures handled ==> old(|written|) <= |written| <= old(|written|) + 1
      ensures handled ==> |pending| + |written| >= old(|pending|) + old(|written|)
      ensures handled && Interruptible(e) && old(pending) != [] ==> |written| == old(|written|) + 1
    {
      handled := HandleExit(e);
    }

    /** Any number of exits, each followed by a VM entry; it ends early only in a panic. What was
        injected and what waits is, in order, all that was queued before and all that the handler
        and the timer queued since. Whatever the handler does, an event is injected for every exit
        that finds the guest able to take interrupts, until all events that waited at the start
        are injected. */
    method Run(exits: seq<Exit>) returns (handled: bool)
      requires Valid() && ExitsOk(exits, clock)
      modifies this, timer
      ensures handled <==> forall k :: 0 <= k < |exits| ==> Handled(exits[k])
      ensures handled ==> Valid() && old(written) <= written
      ensures handled ==>
        DecodedVectors(written) + Vectors(pending) == Vectors(old(enqueued) + QueuedBy(old(timer.View()), exits))
      ensures handled ==> |written| <= old(|written|) + |exits|
      ensures handled ==> |written| - old(|written|) >= Min(old(|pending|), Turns(exits))
    {
      handled := RunExits(exits);
      EachHandled(exits);
      if handled { NoneLostOrReordered(enqueued, written, pending); }
    }

    method RunExits(exits: seq<Exit>) returns (handled: bool)
      requires Valid() && ExitsOk(exits, clock)
      modifies this, timer
      ensures handled <==> AllHandled(exits)
      ensures handled ==> Valid() && old(written) <= written
      ensures handled ==> enqueued == old(enqueued) + QueuedBy(old(timer.View()), exits)
      ensures handled ==> |written| <= old(|written|) + |exits|
      ensures handled ==> |written| - old(|written|) >= Min(old(|pending|), Turns(exits))
      decreases |exits|
    {
      if exits == [] { return true; }
      ghost var t, e := timer.View(), exits[0];
      handled := ExitAndEnter(exits[0]);
      if handled {
        handled := RunExits(exits[1..]);
        Regroup(old(enqueued), Queued(t, e), QueuedBy(TimerAfterExit(t, e), exits[1..]));
      }
    }
  }

  lemma Regroup(a: seq<Event>, b: seq<Event>, c: seq<Event>)
    ensures a + b + c == a + (b + c)
  {}

  predicate AllHandled(exits: seq<Exit>) {
    exits == [] || (Handled(exits[0]) && AllHandled(exits[1..]))
  }

  lemma {:induction false} EachHandled(exits: seq<Exit>)
    ensures AllHandled(exits) <==> forall k :: 0 <= k < |exits| ==> Handled(exits[k])
  {
    if exits != [] {
      EachHandled(exits[1..]);
      assert forall k :: 1 <= k < |exits| ==> exits[k] == exits[1..][k - 1];
    }
  }

  /** The clock never goes back over a run of exits. */
  predicate ExitsOk(exits: seq<Exit>, clock: nat) {
    exits == [] || (ExitOk(exits[0], clock) && ExitsOk(exits[1..], exits[0].now))
  }

  /** How many exits of a run leave the guest able to take interrupts. */
  function Turns(exits: seq<Exit>): nat {
    if exits == [] then 0 else (if Interruptible(exits[0]) then 1 else 0) + Turns(exits[1..])
  }
}
