/** Copies to and from guest memory that may fault at any byte (`riscv/mem_extable.S`) and
    their callers in `riscv/vm_pages.rs`. The host trap handler behind the exception table is
    taken to do what the assembly documents: a faulting guest access continues at the label
    kept in `t0`. */
module GuestCopy {
  import opened Machines
  import opened Wrappers

  datatype Result<+T> = Ok(value: T) | PageFault

  /** The `k`-th guest address from `gpa`. */
  function At(gpa: int, k: nat): int {
    Wrap(gpa + k)
  }

  /** Whether an access to this guest address traps: past the end of guest memory, or not mapped. */
  predicate Traps(size: nat, mapped: int -> bool, a: int) {
    !(0 <= a < size) || !mapped(a)
  }

  /** `k` is the length of the longest run of accessible bytes from `gpa`, capped at `len`. */
  ghost predicate Reach(size: nat, mapped: int -> bool, gpa: int, len: nat, k: nat) {
    && k <= len
    && (forall j: nat :: j < k ==> !Traps(size, mapped, At(gpa, j)))
    && (k < len ==> Traps(size, mapped, At(gpa, k)))
  }

  /** There is one such length. */
  lemma ReachIsUnique(size: nat, mapped: int -> bool, gpa: int, len: nat, k: nat, k': nat)
    requires Reach(size, mapped, gpa, len, k) && Reach(size, mapped, gpa, len, k')
    ensures k == k'
  {}

  class Memories {
    var host: seq<Byte>
    var guest: seq<Byte>
    const mapped: int -> bool

    constructor (h: seq<Byte>, g: seq<Byte>, ok: int -> bool)
      ensures host == h && guest == g && mapped == ok
    {
      host, guest, mapped := h, g, ok;
    }

    predicate Faults(a: int) reads this`guest {
      Traps(|guest|, mapped, a)
    }

    ghost predicate IsReach(gpa: int, len: nat, k: nat) reads this`guest {
      Reach(|guest|, mapped, gpa, len, k)
    }

    /** `_copy_to_guest`: the prefix the guest accepts, and no other byte of either memory. */
    method CopyToGuestAsm(gpa: int, src: int, len: nat) returns (t2: nat)
      requires |guest| <= TWO64 && 0 <= gpa < TWO64 && len < TWO64 && 0 <= src && src + len <= |host|
      modifies this`guest
      ensures IsReach(gpa, len, t2) && |guest| == old(|guest|)
      ensures forall i :: 0 <= i < |guest| ==>
        guest[i] == if Wrap(i - gpa) < t2 then host[src + Wrap(i - gpa)] else old(guest)[i]
    {
      var a0, a1 := gpa, src;
      t2 := 0;
      while t2 != len
        invariant t2 <= len && a0 == At(gpa, t2) && a1 == src + t2 && |guest| == old(|guest|)
        invariant forall j: nat :: j < t2 ==> !Faults(At(gpa, j))
        invariant forall i :: 0 <= i < |guest| ==>
          guest[i] == if Wrap(i - gpa) < t2 then host[src + Wrap(i - gpa)] else old(guest)[i]
        decreases len - t2
      {
        var t3 := host[a1];
        if Faults(a0) { return; }
        ghost var mid := guest;
        guest := guest[a0 := t3];
        forall i | 0 <= i < |guest|
          ensures guest[i] == if Wrap(i - gpa) < t2 + 1 then host[src + Wrap(i - gpa)] else old(guest)[i]
        {
          SameAddress(gpa, t2, i);
          assert mid[i] == if Wrap(i - gpa) < t2 then host[src + Wrap(i - gpa)] else old(guest)[i];
        }
        NextAddress(gpa, t2);
        a0, a1, t2 := Wrap(a0 + 1), a1 + 1, t2 + 1;
      }
    }

    /** `_copy_from_guest`: the same prefix, the other way. */
    method CopyFromGuestAsm(dst: int, gpa: int, len: nat) returns (t2: nat)
      requires |guest| <= TWO64 && 0 <= gpa < TWO64 && len < TWO64 && 0 <= dst && dst + len <= |host|
      modifies this`host
      ensures IsReach(gpa, len, t2) && |host| == old(|host|)
      ensures forall i :: 0 <= i < |host| && !(dst <= i < dst + t2) ==> host[i] == old(host)[i]
      ensures forall k: nat :: k < t2 ==> host[dst + k] == guest[At(gpa, k)]
    {
      var a0, a1 := dst, gpa;
      t2 := 0;
      while t2 != len
        invariant t2 <= len && a0 == dst + t2 && a1 == At(gpa, t2) && |host| == old(|host|)
        invariant forall j: nat :: j < t2 ==> !Faults(At(gpa, j))
        invariant forall i :: 0 <= i < |host| && !(dst <= i < dst + t2) ==> host[i] == old(host)[i]
        invariant forall k: nat :: k < t2 ==> host[dst + k] == guest[At(gpa, k)]
        decreases len - t2
      {
        if Faults(a1) { return; }
        var t3 := guest[a1];
        host := host[a0 := t3];
        NextAddress(gpa, t2);
        a0, a1, t2 := a0 + 1, Wrap(a1 + 1), t2 + 1;
      }
    }

    /** `copy_to_guest`: a partial copy is a success, and an error means no byte was copied:
        the first one faulted, or the slice was empty. */
    method CopyToGuest(gpa: int, src: int, len: nat) returns (r: Result<nat>)
      requires |guest| <= TWO64 && 0 <= gpa < TWO64 && len < TWO64 && 0 <= src && src + len <= |host|
      modifies this`guest
      ensures r == PageFault <==> len == 0 || old(Faults(gpa))
      ensures r == PageFault ==> guest == old(guest)
      ensures r.Ok? ==> old(IsReach(gpa, len, r.value)) && |guest| == old(|guest|)
      ensures r.Ok? ==> forall i :: 0 <= i < |guest| ==>
        guest[i] == if Wrap(i - gpa) < r.value then host[src + Wrap(i - gpa)] else old(guest)[i]
    {
      var copied := CopyToGuestAsm(gpa, src, len);
      assert old(IsReach(gpa, len, copied));
      assert copied > 0 ==> !Faults(At(gpa, 0));
      r := if copied == 0 then PageFault else Ok(copied);
    }

    /** `copy_from_guest`, likewise. */
    method CopyFromGuest(dst: int, gpa: int, len: nat) returns (r: Result<nat>)
      requires |guest| <= TWO64 && 0 <= gpa < TWO64 && len < TWO64 && 0 <= dst && dst + len <= |host|
      modifies this`host
      ensures r == PageFault <==> len == 0 || Faults(gpa)
      ensures r == PageFault ==> host == old(host)
      ensures r.Ok? ==> IsReach(gpa, len, r.value) && |host| == old(|host|)
      ensures r.Ok? ==> forall i :: 0 <= i < |host| && !(dst <= i < dst + r.value) ==> host[i] == old(host)[i]
      ensures r.Ok? ==> forall k: nat :: k < r.value ==> host[dst + k] == guest[At(gpa, k)]
    {
      var copied := CopyFromGuestAsm(dst, gpa, len);
      assert copied > 0 ==> !Faults(At(gpa, 0));
      r := if copied == 0 then PageFault else Ok(copied);
    }

    // ---- instruction fetch ----

    predicate HalfFaults(a: int) reads this`guest {
      Faults(a) || Faults(Wrap(a + 1))
    }

    function Half(a: int): (h: nat)
      reads this`guest
      requires !HalfFaults(a)
      ensures h < 0x1_0000
    {
      guest[a] as int + 0x100 * guest[Wrap(a + 1)] as int
    }

    /** `_fetch_guest_instruction` and its caller: the second half-word is read exactly when the
        first one ends in `11`, and a fault in a half-word that is read is the only error. */
    method FetchGuestInstruction(pc: int) returns (r: Option<nat>, ghost read: seq<int>)
      requires 0 <= pc < TWO64
      ensures read == if !HalfFaults(pc) && Half(pc) % 4 == 3 then [pc, Wrap(pc + 2)] else [pc]
      ensures r == None <==> exists a :: a in read && HalfFaults(a)
      // byte by byte
      ensures r == None <==>
        || Faults(pc) || Faults(Wrap(pc + 1))
        || (guest[pc] % 4 == 3 && (Faults(Wrap(pc + 2)) || Faults(Wrap(pc + 3))))
      ensures r.Some? ==>
        var low := guest[pc] as int + 0x100 * guest[Wrap(pc + 1)] as int;
        if guest[pc] % 4 != 3 then r.value == low
        else r.value == low + 0x1_0000 * guest[Wrap(pc + 2)] as int + 0x100_0000 * guest[Wrap(pc + 3)] as int
      ensures r.Some? && |read| == 1 ==> r.value == Half(pc)
      ensures r.Some? && |read| == 2 ==> r.value == Half(pc) + 0x1_0000 * Half(Wrap(pc + 2))
    {
      var raw := 0;
      var a0 := pc;
      read := [a0];
      if HalfFaults(a0) { return None, read; }
      var t2 := Half(a0);
      raw := t2;
      a0 := Wrap(a0 + 2);
      if t2 % 4 == 3 {
        read := read + [a0];
        if HalfFaults(a0) {
          assert a0 in read;
          return None, read;
        }
        t2 := Half(a0);
        raw := raw + 0x1_0000 * t2;
      }
      r := Some(raw);
    }
  }

  /** Address `i` is the `k`-th byte of the run from `gpa` exactly when its distance is `k`. */
  lemma SameAddress(gpa: int, k: nat, i: int)
    requires 0 <= gpa < TWO64 && k < TWO64 && 0 <= i < TWO64
    ensures i == At(gpa, k) <==> Wrap(i - gpa) == k
  {}

  lemma NextAddress(gpa: int, k: nat)
    ensures Wrap(At(gpa, k) + 1) == At(gpa, k + 1)
  {}
}
