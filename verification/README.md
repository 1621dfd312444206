# Hypercraft: verified models of the hypervisor's core routines

Hypercraft is a small hypervisor library for RISC-V, AArch64 and x86-64. This project models the
parts of it whose correctness is not visible from their code: hand-written assembly, state machines
that run across VM exits, and packed representations that must agree with a simple abstraction.

- **Block memory routines.** `Memcpy.dfy` and `Memset.dfy` follow the AArch64 assembly instruction by
  instruction on the byte machine of `Machine.dfy`, which records every address touched. `LongCopy.dfy`
  has the long path of `memcpy` as a function of memory and settles which overlaps of the buffers it
  survives. `GuestCopy.dfy` does the same for the RISC-V copies that may fault at any byte.
- **x86 timer and event injection.** `ApicTimer.dfy` is the virtual APIC timer, specified by a grid of
  expiry times. `VmxEvents.dfy` is the VM-exit handler with its event queue and the VMCS fields it uses.
- **Bitmaps.** `FlexBitmap.dfy`, `BitTree.dfy` and `MsrBitmap.dfy` tie the packed words, the 16-ary
  tree and the VMX MSR bitmap to plain sets. `Bits.dfy` holds the bitwise operations they share.
- **RISC-V world switch and trap-and-emulate loop.** `WorldSwitch.dfy` has the two straight-line
  assembly programs as lists of instructions and a machine that runs them. `RiscvVm.dfy` is the VM
  loop on top of it, with the PLIC and the virtual interrupt lines.
- **Software breakpoints.** `Breakpoints.dfy` is the RISC-V debugger target's patching of guest memory.

`dafny verify dfyconfig.toml` checks everything.

## How to read the model

Clocks, firmware answers, page-table lookups, the instruction decoder, the debugger and the guest's own
execution are arguments. A panic is a `None` or `false` result, after which nothing is promised. Words of
64 bits are natural numbers or integers; wrap-around is written out with `% TWO64` or `Wrap` where it can
happen.

Places where the code does something other than its comments, tests or usual reading suggest; the model
follows the code:

- The `FlexBitmap` bounds checks accept `idx == len`. `FlexBitmap.Get` and `FlexBitmap.Set` say exactly when that panics
  and when it reaches a padding bit, and `PaddingBit` reads one. `init_dirty` sets the padding bits as well.
- The unit test that clears bit 11 and expects bit 121 to be clear is wrong about the code
  (`ClearingElevenKeeps121`).
- `memset` compares its count as a signed number, so it fills all `n` bytes exactly when `n < 2^63`
  (`ExtentIsCount`).
- `memcpy` has no overlap check, although its comment speaks of one. Up to 128 bytes it needs none; above,
  `ToleratesExactly` says for which overlaps it still copies: all with the destination at or below the
  source, and a few bytes above it, depending on the alignment and on where the loop ends.
- Reading the count of a periodic APIC timer that has no initial count divides by zero (`CurrentCounter`);
  one register write leads there from power-on (`PeriodicWithoutCount`).
- A debugger's register writes are undone when the guest resumes; its pc write survives (`RegsAfter`, `PcAfter`).
- Adding a software breakpoint twice at one address loses the instruction (`SecondAddLosesInstruction`);
  `AddKeepsTransparent` says exactly when an add is harmless. A removal whose write is refused forgets the
  displaced bytes (`RefusedRemovalLosesInstruction`); `RefusedRemoval` and `RefusedRemovalOfArmed` say
  exactly when that loses nothing.
- Completing an interrupt in any PLIC context lowers the guest's external line, so a completion in a context
  other than 1 strands context 1's claim (`CompletionInAnotherContext`). `LineAndClaimAgree` shows that over
  all runs this is the only way line and claim come apart.
- `copy_to_guest` and `copy_from_guest` report a page fault for an empty slice.

## Model

| member | source | states |
|---|---|---|
| Memcpy.Copy | src/arch/aarch64/memcpy.S:29-158 | For every length and every overlap: no byte outside the destination changes, exactly the destination is stored, no byte outside the source is loaded, the destination is returned; it holds the original source bytes up to 128 bytes always, beyond that for every tolerated overlap, and for any other overlap one wrong byte is named |
| Memcpy.CopySmall | src/arch/aarch64/memcpy.S:37-76 | 0 to 32 bytes, under any overlap: the size classes cover every length and never leave either buffer |
| Memcpy.CopyTiny | src/arch/aarch64/memcpy.S:66-76 | 1 to 3 bytes: first, middle and last byte cover all of them |
| Memcpy.Copy64 | src/arch/aarch64/memcpy.S:80-91 | 33 to 64 bytes, under any overlap |
| Memcpy.Copy128 | src/arch/aarch64/memcpy.S:95-111 | 65 to 128 bytes, under any overlap, although the two tail pairs are stored first |
| Memcpy.CopyLong | src/arch/aarch64/memcpy.S:115-158 | More than 128 bytes: the aligned, pipelined copy terminates and leaves what the reference function of memory computes, storing exactly the destination, whatever the overlap |
| LongCopies.LongCopyExact | src/arch/aarch64/memcpy.S:115-158 | That function copies the source as it was for every tolerated overlap; for any other it leaves, at a given offset, the byte the source had lower by the distance of the buffers |
| LongCopies.ToleratesExactly | src/arch/aarch64/memcpy.S:115-158 | An overlap is tolerated, a condition on the three arguments alone, if and only if the copy is right for every content of memory |
| LongCopies.PassesCopies | src/arch/aarch64/memcpy.S:132-142 | Every number of passes keeps the bytes done and the bytes in flight equal to the original source, while the loads stay ahead of the stores |
| LongCopies.FirstStoreSlips | src/arch/aarch64/memcpy.S:125-129 | A destination beyond the first aligned offset: the first store overwrites a source byte that is loaded after it, and the loop carries it to the destination |
| LongCopies.LastLoadSlips | src/arch/aarch64/memcpy.S:145-154 | A loop that ends too near the last 64 bytes: the first load of the end reads a byte the loop stored |
| Memcpy.Loop64 | src/arch/aarch64/memcpy.S:132-142 | One pass stores the 64 bytes in flight at the next aligned offset and refills them from 64 bytes on, interleaved as in the reference |
| Memcpy.Copy64FromEnd | src/arch/aarch64/memcpy.S:145-158 | The bytes in flight and the last 64 bytes again complete the destination, whatever the residue |
| Memcpy.StillOriginal | src/arch/aarch64/memcpy.S:37-111 | A source range that no store has reached still holds its original bytes |
| Memset.Fill | src/arch/aarch64/memset.S:48-123 | Exactly the bytes from the pointer on, as many as the signed comparisons see, become the low byte of the value; nothing else is stored, nothing is loaded, the pointer is returned |
| Memset.ExtentIsCount | src/arch/aarch64/memset.S:55-60 | The number of bytes set is the count if and only if the count is below 2^63; 2^63 sets none |
| Memset.Replicate | src/arch/aarch64/memset.S:50-54 | Three or-and-shift steps fill the register with eight copies of the low byte |
| Memset.ReplicatedHolds | src/arch/aarch64/memset.S:50-54 | Such a register stores that byte at every width from 0 to 8 |
| Memset.Tail15Tiny | src/arch/aarch64/memset.S:78-93 | Up to 15 bytes, one store per bit of the count, without touching a neighbour |
| Memset.Tail63 | src/arch/aarch64/memset.S:61-77 | The rest is finished from the low six bits of the count, which may be negative, with a last store that repeats bytes already set |
| Memset.NotShort | src/arch/aarch64/memset.S:97-123 | 64 bytes or more: the aligning store, the pre-biased loop and the tail set exactly the buffer |
| GuestCopy.Memories.CopyToGuestAsm | src/arch/riscv/mem_extable.S:18-34 | Returns the length of the longest accessible prefix, capped at the length asked for, and writes exactly that prefix |
| GuestCopy.Memories.CopyFromGuestAsm | src/arch/riscv/mem_extable.S:37-53 | The same prefix, read into the host buffer and nothing beyond it |
| GuestCopy.ReachIsUnique | src/arch/riscv/mem_extable.S:17-53 | There is only one such length |
| GuestCopy.Memories.CopyToGuest | src/arch/riscv/vm_pages.rs:58-64 | An error if and only if the slice is empty or its first byte faults, and then nothing was written; a partial copy is a success |
| GuestCopy.Memories.CopyFromGuest | src/arch/riscv/vm_pages.rs:66-72 | The same for the other direction |
| GuestCopy.Memories.FetchGuestInstruction | src/arch/riscv/mem_extable.S:63-89 | The second half-word is read if and only if the first byte ends in 11; the only error is a fault in a byte that is read; the result is the two or four bytes of guest memory, lowest first |
| ApicTimers.ApicTimer.CheckInterrupt | src/arch/x86_64/lapic.rs:45-58 | A check meets one expiry exactly when one is due, fires if unmasked, and leaves the deadline on the grid of the last start: no drift over any history of checks, and no overflow |
| ApicTimers.LvtFields | src/arch/x86_64/lapic.rs:60-73 | Whatever the other bits of the register: the vector is bits 0-7, the mask bit 16, the mode bits 17-18, and mode 1 is periodic |
| ApicTimers.FromPowerOn | src/arch/x86_64/lapic.rs:45-58 | From power-on, an unmasked mode and a count: a check raises the interrupt exactly when the count has run out since |
| ApicTimers.FirstExpiry | src/arch/x86_64/lapic.rs:137-144 | A started timer first fires exactly from count times two to the shift after its start, if unmasked |
| ApicTimers.DueCounts | src/arch/x86_64/lapic.rs:45-58 | At least k expiries are due exactly from the k-th grid point on; a one-shot timer has only the first |
| ApicTimers.OnGridStep | src/arch/x86_64/lapic.rs:45-58 | The deadline has passed exactly when the reference has an expiry to deliver, and moving it on by one interval is the next grid point |
| ApicTimers.NeverEarlyNeverLost | src/arch/x86_64/lapic.rs:45-58 | Over every history: never more expiries than grid points passed, and m checks after time t have delivered all that was due at t, or m |
| ApicTimers.RepeatedChecks | src/arch/x86_64/lapic.rs:45-58 | After any history, k checks at one time deliver k more expiries, capped at all that is due by then |
| ApicTimers.ApicTimer.CurrentCounter | src/arch/x86_64/lapic.rs:93-103 | Periodic: between 1 and the initial count, the time to the next grid point over the divisor, rounded up; one-shot: the time to the deadline rounded up, and zero exactly from the deadline on; undefined exactly for a periodic timer without a count |
| ApicTimers.PeriodicWithoutCount | src/arch/x86_64/lapic.rs:93-97 | A new timer whose mode register is set to periodic reads a count of a zero period |
| ApicTimers.PeriodicCounter | src/arch/x86_64/lapic.rs:94-97 | The modulus of elapsed cycles is the distance to the next grid point |
| ApicTimers.OneShotCounter | src/arch/x86_64/lapic.rs:98-102 | The cycle count and the deadline run out together |
| ApicTimers.ApicTimer.StartTimer | src/arch/x86_64/lapic.rs:137-144 | A restart begins a fresh grid at now, or disarms without a count |
| ApicTimers.ApicTimer.SetLvtTimer | src/arch/x86_64/lapic.rs:106-116 | The two unsupported modes are rejected and change nothing; any other value restarts the timer |
| ApicTimers.ApicTimer.SetInitialCount | src/arch/x86_64/lapic.rs:119-123 | Restarts the timer with the new count |
| ApicTimers.ApicTimer.SetDivide | src/arch/x86_64/lapic.rs:126-131 | The bits written are read back, the divisor is the one they stand for, the timer restarts |
| ApicTimers.DivideRoundTrip | src/arch/x86_64/lapic.rs:82-85 | Register to shift and back loses none of the three bits, and the shift is the divisor of figure 10-10 of the Intel SDM |
| ApicTimers.IntervalBound | src/arch/x86_64/lapic.rs:133-135 | An interval is below 2^39 and is zero only without a count |
| VmxEvents.RoundTrip | src/arch/x86_64/vmx/vmcs.rs:520-526 | The interruption word decodes to the same vector, type, error code and valid bit |
| VmxEvents.EncodeIsSum | src/arch/x86_64/vmx/vmcs.rs:520-526 | The or-ed fields of the word do not overlap |
| VmxEvents.WordOfVector | src/arch/x86_64/vmx/definitions.rs:153-193 | The word of every vector as a number: external interrupts from 32 on, the NMI, the debug and software exceptions, the seven with an error code, the other exceptions and the reserved rest |
| VmxEvents.ControlBits | src/arch/x86_64/vmx/vcpu.rs:144-169 | Interrupt-window exiting is bit 2 of the controls, the monitor trap flag bit 27; interrupts are allowed exactly with bit 9 of RFLAGS and nothing blocking |
| VmxEvents.HandlerRuns | src/arch/x86_64/vmx/vcpu.rs:460-482 | Every exit but an interrupt window queues all that the handler's calls inject, in order, then the interrupt of the timer as those calls leave it, if it fires |
| VmxEvents.HandlerLeaves | src/arch/x86_64/vmx/vcpu.rs:460-468 | The same for the two controls and the guest's state |
| VmxEvents.AddedJoins | src/arch/x86_64/vmx/vcpu.rs:139-141 | What two lists of calls queue is what the first queues, then what the second does |
| VmxEvents.AddedOne | src/arch/x86_64/vmx/vcpu.rs:139-141 | A call queues its event if it injects one, and nothing otherwise |
| VmxEvents.TimerJoins | src/arch/x86_64/lapic.rs:106-131 | Two lists of calls leave the timer as the second does from where the first left it |
| VmxEvents.TimerOne | src/arch/x86_64/lapic.rs:106-131 | Each setter reaches its register, with the divisor of the figure, and restarts the timer; other calls leave it alone |
| VmxEvents.LastCallDecides | src/arch/x86_64/vmx/vcpu.rs:144-169 | The last call that sets a control, or the guest's state, decides it |
| VmxEvents.NoCallKeeps | src/arch/x86_64/vmx/vcpu.rs:144-169 | Without such a call they stay as they were |
| VmxEvents.NoneLostOrReordered | src/arch/x86_64/vmx/vcpu.rs:428-440 | The vectors decoded from the injected words, followed by those waiting, are the vectors queued, in order |
| VmxEvents.ControlsIndependent | src/arch/x86_64/vmx/vcpu.rs:144-169 | Switching interrupt-window exiting or the monitor trap flag sets that control and leaves the other |
| VmxEvents.VmxVcpu.InjectEvent | src/arch/x86_64/vmx/vcpu.rs:139-141 | The event goes to the end of the queue and queue and history stay consistent |
| VmxEvents.VmxVcpu.SetInterruptWindow | src/arch/x86_64/vmx/vcpu.rs:159-169 | Only the interrupt-window control changes |
| VmxEvents.VmxVcpu.SetMonitorTrapFlag | src/arch/x86_64/vmx/vcpu.rs:144-154 | Only the monitor trap flag changes |
| VmxEvents.VmxVcpu.InjectVmcs | src/arch/x86_64/vmx/vmcs.rs:653-670 | The error code is written only for vectors that have one, the caller's or else the last exit's; the instruction length only for software events; the word is valid, and for a vector of 32 or above 0x8000_0000 plus the vector, with no other field changed |
| VmxEvents.VmxVcpu.CheckPendingEvents | src/arch/x86_64/vmx/vcpu.rs:428-440 | The oldest event is injected if it is an exception or interrupts are allowed; otherwise it waits with interrupt-window exiting on; nothing is lost |
| VmxEvents.VmxVcpu.HandleExit | src/arch/x86_64/vmx/vcpu.rs:448-483 | Per exit: the queue grows by all the handler's events, unless it is an interrupt window, then by the timer's; at most the oldest event is injected, an exception without waiting, a vector of 32 or above only with bit 9 of RFLAGS set and nothing blocking; a waiting event leaves the window on, also after an interrupt-window exit; the next entry injects exactly when this exit wrote a word; both controls and the guest's state end as the exit, the handler's calls and a waiting event demand |
| VmxEvents.VmxVcpu.Run | src/arch/x86_64/vmx/vcpu.rs:396-483 | Over every run: the vectors injected, followed by those waiting, are those queued before it, then those its handlers queued and its timer raised, exit by exit, in order; at most one event per exit, and every exit that leaves the guest interruptible injects one until all events waiting at the start are in |
| FlexBitmaps.FlexBitmap.Get | src/arch/aarch64/utils/bitmap.rs:157-163 | Membership; panics exactly past the length, or at a length that fills its last word |
| FlexBitmaps.PaddingBit | src/arch/aarch64/utils/bitmap.rs:157-174 | Setting and reading back the bit just past the length works, on a padding bit, unless the length fills its last word: then both panic |
| FlexBitmaps.FlexBitmap.Set | src/arch/aarch64/utils/bitmap.rs:165-174 | Inserts or removes one member; same panics, with nothing changed |
| FlexBitmaps.FlexBitmap.SetBits | src/arch/aarch64/utils/bitmap.rs:176-194 | Accepted exactly for a fitting range that is one bit or whole words; the same words as writing every bit singly, and the set changes by exactly the range |
| FlexBitmaps.MembersDetermineMap | src/arch/aarch64/utils/bitmap.rs:134-137 | Two maps of one size with the same members are the same words |
| FlexBitmaps.FlexBitmap.InitDirty | src/arch/aarch64/utils/bitmap.rs:145-149 | Every position of every word becomes a member, padding included |
| FlexBitmaps.FlexBitmap.Clear | src/arch/aarch64/utils/bitmap.rs:151-155 | The set becomes empty |
| FlexBitmaps.FlexBitmap.Sum | src/arch/aarch64/utils/bitmap.rs:204-210 | The cardinality of the set |
| FlexBitmaps.FlexBitmap.First | src/arch/aarch64/utils/bitmap.rs:212-228 | The least member, or one past the last bit when there is none |
| FlexBitmaps.BitmapFindNth | src/arch/aarch64/utils/util.rs:60-79 | Some(i) if and only if i is the nth matching position of the range; None exactly when there are fewer matches, nth is 0, or the range leaves the word |
| BitTree.TreeIsASet | src/arch/aarch64/utils/bitmap.rs:69-93 | At every depth, set, clear and the default tree are insert, remove and the empty set |
| BitTree.GetAfterSet | src/arch/aarch64/utils/bitmap.rs:77-92 | Setting an index changes what is read at that index and at no other |
| BitTree.GetAfterClear | src/arch/aarch64/utils/bitmap.rs:83-92 | Clearing an index changes what is read at that index and at no other |
| BitTree.SameMembersSameTree | src/arch/aarch64/utils/bitmap.rs:56-61 | Trees of one depth that read the same everywhere are equal |
| BitTree.ClearingElevenKeeps121 | src/arch/aarch64/utils/bitmap.rs:250-263 | After setting 121 and clearing 11, bit 121 is still set |
| BitTree.BitMap.SetIndex | src/arch/aarch64/utils/bitmap.rs:77-81 | Inserts the index and changes no other member |
| BitTree.BitMap.ClearIndex | src/arch/aarch64/utils/bitmap.rs:83-87 | Removes the index and changes no other member |
| BitTree.BitMap.GetIndex | src/arch/aarch64/utils/bitmap.rs:89-92 | 1 for a member, 0 otherwise |
| MsrBitmaps.SlotsAreABijection | src/arch/x86_64/vmx/region.rs:61-80 | Accesses of legal MSRs and bits of the 4 KiB frame correspond one to one across the four quarters |
| MsrBitmaps.Layout | src/arch/x86_64/vmx/region.rs:61-80 | The layout of section 24.6.9 of the Intel SDM: read bits of low MSRs from byte 0, of high MSRs from 1024, write bits from 2048 and 3072, bit n % 8 of byte n / 8 |
| MsrBitmaps.SetDeterminesFrame | src/arch/x86_64/vmx/region.rs:60-86 | Two frames that stand for the same set are equal byte for byte |
| MsrBitmaps.MsrBitmap.SetIntercept | src/arch/x86_64/vmx/region.rs:60-86 | Adds or removes exactly one access of the intercepted set |
| MsrBitmaps.MsrBitmap.SetupMsrBitmap | src/arch/x86_64/vmx/vcpu.rs:179-190 | Adds exactly IA32_APIC_BASE and 0x800 to 0x83f, in both directions |
| MsrBitmaps.SetupNew | src/arch/x86_64/vmx/vcpu.rs:179-190 | The frame of a new virtual CPU byte by byte: 8 at 3 and 2051, 0xff at 0x100-0x107 and 0x900-0x907, 0 elsewhere |
| WorldSwitch.EntryDoes | src/arch/riscv/guest.S:4-90 | The entry path loads x1-x31 and four CSRs from the guest's half, points stvec at the exit path, stashes the hypervisor's state, and accesses only the block |
| WorldSwitch.ExitDoes | src/arch/riscv/guest.S:93-183 | The exit path saves x1-x31, a0 through sscratch, and the guest's CSRs, and gives the hypervisor its state back |
| WorldSwitch.RoundTrip | src/arch/riscv/guest.S:4-183 | For any guest registers at the trap: ra, sp, gp, tp, s0-s11, a0-a7, sstatus, hstatus, scounteren, stvec and sscratch are as before the call, and the guest's half holds what it trapped with |
| WorldSwitch.Resumes | src/arch/riscv/guest.S:57-131 | The next entry starts the guest with exactly the registers and CSRs it trapped with |
| WorldSwitch.Rounds | src/arch/riscv/vcpu.rs:297-303 | Any number of calls, with any edits of the guest's half in between, restores the hypervisor |
| WorldSwitch.SlotsDistinct | src/arch/riscv/vcpu.rs:108-133 | No two slots of the block, of registers or CSRs, share a word, within one half or across both |
| WorldSwitch.Core.CallGuest | src/arch/riscv/vcpu.rs:297-303 | The machine updated in place satisfies the round trip |
| RiscvVm.Csrs.Setup | src/arch/riscv/mod.rs:40-75 | Bits 2, 6 and 10 of hvip are cleared and no other changes; sie has exactly bits 1, 5 and 9 |
| RiscvVm.Csrs.RaiseTimer | src/arch/riscv/vm.rs:136-144 | The guest's timer line, bit 6 of hvip, goes up and the host timer, bit 5 of sie, off; no other bit changes |
| RiscvVm.Csrs.RearmTimer | src/arch/riscv/vm.rs:86-95 | The reverse of the same two bits, and no other |
| RiscvVm.MemoryMap | src/arch/riscv/devices/plic.rs:35-75 | Context i has its threshold at offset 0x20_0000 + 0x1000 i and its claim four bytes on, for sixteen contexts; exactly the offsets outside 0x20_0000-0x20_ffff are not modelled by the code |
| RiscvVm.PlicState.ReadU32 | src/arch/riscv/devices/plic.rs:35-48 | The claim of the addressed context; any other register panics |
| RiscvVm.PlicState.WriteU32 | src/arch/riscv/devices/plic.rs:50-76 | Thresholds and completions take effect and are passed on; a pending external interrupt still has a claim and only context 1 has one |
| RiscvVm.PlicState.HandleIrq | src/arch/riscv/vm.rs:217-226 | A claimed interrupt becomes context 1's claim and raises the line; zero is refused |
| RiscvVm.BoundedEffect | src/arch/riscv/vm.rs:72-156 | A handled exit changes only a0 and a1 on a hypercall or the destination of an emulated load; the pc moves by 4, by the instruction length, to where the debugger put it, or not at all |
| RiscvVm.HandledExits | src/arch/riscv/vm.rs:72-146 | Which exits are handled: interrupts and breakpoints, supported hypercalls, emulated accesses from supervisor mode |
| RiscvVm.FirmwareAnswers | src/arch/riscv/vm.rs:228-333 | Register 10 takes the firmware's error and register 11 its value, for every kind of hypercall |
| RiscvVm.ClaimLoad | src/arch/riscv/vm.rs:208-211 | A load at 0xC20_0004 + 0x1000 i puts context i's claim into its destination and changes no other register |
| RiscvVm.StorePassesOn | src/arch/riscv/vm.rs:204-207 | A store to a threshold or claim register reaches the real PLIC with its offset and the low 32 bits of the register; loads and other exits do not |
| RiscvVm.EmulatedAccesses | src/arch/riscv/vm.rs:163-215 | Exactly which accesses are emulated, by address and instruction |
| RiscvVm.AdvancesPast | src/arch/riscv/vm.rs:189-202 | A compressed instruction is decoded from 16 bits and moves the pc by 2, a long one from all 32 and by 4 |
| RiscvVm.FaultingInstruction | src/arch/riscv/vm.rs:189-202 | The faulting instruction is two or four bytes long; a non-zero trapped word is used whatever was fetched, a compressed one whatever its upper half; it cannot be had exactly when a needed fetch fails or the length is another |
| RiscvVm.Vm.SaveGprs | src/arch/riscv/vcpu.rs:284-294 | The copy holds x1-x31 and a zero x0 |
| RiscvVm.Vm.RestoreGprs | src/arch/riscv/vcpu.rs:274-281 | Exactly the slots of x1-x31 are written |
| RiscvVm.Vm.HandlePageFault | src/arch/riscv/vm.rs:163-215 | Succeeds exactly for a decodable store or claim load in the PLIC's range, with the register, claim and line effects of that access and what it passes on to the real PLIC |
| RiscvVm.Vm.Turn | src/arch/riscv/vm.rs:63-157 | One turn through the world switch: the guest resumes as if it had trapped with the emulated registers and pc, the hypervisor's state is restored, the interrupt lines follow the exit, x0 stays zero, and the timer line is up exactly while the host timer is off |
| RiscvVm.Vm.Run | src/arch/riscv/vm.rs:58-158 | Every run keeps those invariants, restores the hypervisor, ends with the lines its exits imply, passes on to the real PLIC exactly the guest's register writes in order, and leaves the guest to resume with the registers and pc its last exit was emulated to; it panics exactly at the first exit that is not handled |
| RiscvVm.GuestLearnsInterrupt | src/arch/riscv/vm.rs:208-226 | Over every run: while a claimed interrupt is the last one and not completed in context 1, the guest that loads the claim register at 0xC20_1004 resumes with its number |
| RiscvVm.HeldClaim | src/arch/riscv/vm.rs:217-226 | After every run the claim held is the number of the last interrupt |
| RiscvVm.LinesMeanHistory | src/arch/riscv/vm.rs:86-145 | After every run from set-up: the timer line is up iff a timer exit was not followed by a new deadline; the external line iff an interrupt was not followed by any completion; context 1's claim iff not by a completion there; every other claim is zero |
| RiscvVm.LineAndClaimAgree | src/arch/riscv/devices/plic.rs:63-72 | After every run from set-up: a line that is up has a claim, and a claim without the line is held if and only if the last interrupt was followed by a completion in another context and none in context 1 |
| RiscvVm.CompletionInAnotherContext | src/arch/riscv/devices/plic.rs:63-72 | A claimed interrupt and a store to context 0's completion register end with the line down and the claim held |
| Breakpoints.AddKeepsTransparent | src/arch/riscv/gdb.rs:217-244 | Adding a breakpoint keeps the overlay equal to the undisturbed memory if and only if, in the debugger's own state, every record covering the new bytes displaced what is in memory now, and each byte of a replaced record is in the new range, covered by another, or as it displaced it |
| Breakpoints.FreshAddIsSafe | src/arch/riscv/gdb.rs:217-244 | A free key on bytes no live breakpoint displaces is such an add |
| Breakpoints.SecondAddLosesInstruction | src/arch/riscv/gdb.rs:226-242 | Two adds and a remove at one address leave the breakpoint instruction in memory |
| Breakpoints.RemoveKeepsTransparent | src/arch/riscv/gdb.rs:246-256 | A removal keeps the overlay, whatever else is live and however ranges overlap |
| Breakpoints.RemoveAllRestores | src/arch/riscv/gdb.rs:246-256 | Removing every breakpoint, in any order, restores memory exactly |
| Breakpoints.RunIsTransparent | src/arch/riscv/gdb.rs:217-256 | Over every run of adds, removes and guest writes outside live ranges, the overlay is the memory of the same run without breakpoints |
| Breakpoints.RunStaysArmed | src/arch/riscv/gdb.rs:217-256 | Over every such run each live breakpoint is in place in memory and no two overlap |
| Breakpoints.RefusedRemoval | src/arch/riscv/gdb.rs:247-253 | A removal whose write fails keeps the overlay if and only if each byte of the record is covered by another or is in memory as it displaced it |
| Breakpoints.RefusedRemovalOfArmed | src/arch/riscv/gdb.rs:247-253 | Among breakpoints that are in place and apart, that is if and only if the displaced instruction is itself an ebreak |
| Breakpoints.RefusedRemovalLosesInstruction | src/arch/riscv/gdb.rs:247-253 | An add and a refused removal leave the ebreak in place of any other instruction |
| Breakpoints.Target.AddSwBreakpoint | src/arch/riscv/gdb.rs:217-244 | Any failed translation or access answers false and changes nothing; otherwise the new state is that of the add |
| Breakpoints.Target.RemoveSwBreakpoint | src/arch/riscv/gdb.rs:246-256 | An unknown address answers false; a refused write is an error that has dropped the record; otherwise the new state is that of the removal |

## Left out

- Memcpy.Copy: buffers end below the last address of the 64-bit space, so that the count plus the alignment fits a register.
- ApicTimers.ApicTimer.CheckInterrupt: clock readings at or above 2^64 - 2^39 are excluded; there the deadline sum can leave 64 bits.
- VmxEvents.VmxVcpu.HandleExit: VMCS reads and writes do not fail, and the external handler reaches the virtual CPU only through event injection, the two controls, the timer's setters and the guest's RFLAGS and interruptibility.
- RiscvVm.Vm.Turn: host physical and virtual addresses differ by a constant; the registers the hypervisor uses between two calls are not modelled.
- `.Lzero_mem` and the DC ZVA path of `memset`: no branch reaches it.
- `_copy_to_user` and `_copy_from_user`: the same loops as the guest copies.
- Page tables and address translation: their code is in other crates.
- SBI message decoding and the firmware behind it: flat tables and calls outside the repository.
- The host trap handler behind the exception table: not part of this model; a faulting access is taken to jump to the label in `t0`.
- `set_control`, VMCS host and guest set-up, per-CPU set-up and feature detection: straight-line hardware writes.
- `round_up`, `round_down`, `bit_set` and the range tests of `util.rs`: single expressions.
- AArch64 exception decoding, context frames, GIC and hypercall tables: register plumbing.
- The GDB connection loop, register marshalling and memory access: protocol plumbing. The x86 breakpoints are not modelled either.
- `VmCpus`, `PerCpu` and `PhysFrame`: small containers and allocator calls.
