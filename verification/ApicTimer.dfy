/** The virtual local APIC timer of `x86_64/lapic.rs` (section 10.5.4 of the Intel SDM, Vol. 3A),
    specified by the grid of expiry times `start + k * interval`. The clock is a parameter. */
module ApicTimers {
  import opened Bits
  import opened Wrappers

  /** The largest clock reading for which no deadline leaves 64 bits: an interval is below 2^39. */
  const CLOCK_LIMIT: nat := 0x1_0000_0000_0000_0000 - 0x80_0000_0000

  function Min(a: nat, b: nat): nat { if a <= b then a else b }

  function CeilDiv(x: nat, d: nat): nat
    requires d > 0
  {
    (x + d - 1) / d
  }

  // ---- the reference: a grid of expiries ----

  /** Expiries due by time `t` for a timer started at `start`. An unarmed timer has no interval. */
  function Due(start: nat, interval: nat, periodic: bool, t: nat): nat {
    if interval == 0 || t < start then 0
    else if periodic then (t - start) / interval
    else if t - start >= interval then 1 else 0
  }

  /** No check so far was later than `t`. */
  predicate After(start: nat, times: seq<nat>, t: nat) {
    start <= t && (times != [] ==> times[|times| - 1] <= t)
  }

  /** Checks since the start, on a clock that does not go back. */
  predicate History(start: nat, times: seq<nat>) {
    times == [] || (var last := |times| - 1; History(start, times[..last]) && After(start, times[..last], times[last]))
  }

  /** Expiries delivered by checks at the given times: one a check, and only what is due. */
  function Delivered(start: nat, interval: nat, periodic: bool, times: seq<nat>): nat {
    if times == [] then 0
    else
      var last := |times| - 1;
      Min(Delivered(start, interval, periodic, times[..last]) + 1, Due(start, interval, periodic, times[last]))
  }

  lemma MulAtLeast(d: int, k: int)
    requires d > 0 && k >= 1
    ensures d * k >= d
  {}

  lemma SplitIsUnique(d: int, q: int, r: int, q': int, r': int)
    requires d * q + r == d * q' + r' && 0 <= r < d && 0 <= r' < d
    ensures q == q' && r == r'
  {
    assert d * (q - q') == r' - r;
    assert d * (q' - q) == r - r';
    if q > q' { MulAtLeast(d, q - q'); }
    if q' > q { MulAtLeast(d, q' - q); }
  }

  lemma DivIsUnique(x: int, d: int, q: int, r: int)
    requires d > 0 && x == d * q + r && 0 <= r < d
    ensures x / d == q && x % d == r
  {
    SplitIsUnique(d, q, r, x / d, x % d);
  }

  lemma DivIsMonotone(a: int, b: int, d: int)
    requires d > 0 && a <= b
    ensures a / d <= b / d
  {
    var q, q' := a / d, b / d;
    assert d * q <= a && b < d * q' + d;
    assert d * (q - q') < d;
    if q > q' { MulAtLeast(d, q - q'); }
  }

  /** The `k`-th expiry time after the start. */
  function GridPoint(start: nat, interval: nat, k: nat): nat {
    if k == 0 then start else GridPoint(start, interval, k - 1) + interval
  }

  lemma {:induction false} GridPointIsMultiple(start: nat, interval: nat, k: nat)
    ensures GridPoint(start, interval, k) == start + k * interval
  {
    if k > 0 {
      GridPointIsMultiple(start, interval, k - 1);
      assert k * interval == (k - 1) * interval + interval;
    }
  }

  /** Being past the `k`-th grid point and having `k` expiries due are the same. */
  lemma PastGridPoint(elapsed: nat, interval: nat, k: nat)
    requires interval > 0
    ensures elapsed >= k * interval <==> elapsed / interval >= k
  {
    var q := elapsed / interval;
    assert elapsed == interval * q + elapsed % interval;
    assert q >= k ==> interval * q >= interval * k;
    assert q < k ==> interval * (q + 1) <= interval * k;
  }

  /** At least `k` expiries are due exactly from the `k`-th grid point on; a one-shot timer has one. */
  lemma DueCounts(start: nat, interval: nat, periodic: bool, t: nat, k: nat)
    requires k > 0
    ensures Due(start, interval, periodic, t) >= k <==>
      interval > 0 && t >= start + k * interval && (periodic || k == 1)
  {
    if interval > 0 && t >= start { PastGridPoint(t - start, interval, k); }
  }

  lemma DueGrows(start: nat, interval: nat, periodic: bool, t: nat, u: nat)
    requires start <= t <= u
    ensures Due(start, interval, periodic, t) <= Due(start, interval, periodic, u)
  {
    if interval > 0 { DivIsMonotone(t - start, u - start, interval); }
  }

  /** Nothing is delivered early, and after enough checks nothing due is missing: `m` further
      checks from time `t` on deliver all that was due at `t`, or one each. */
  lemma {:induction false} NeverEarlyNeverLost(start: nat, interval: nat, periodic: bool, times: seq<nat>,
                                               m: nat, t: nat)
    requires History(start, times) && m <= |times| && t >= start
    requires forall k :: |times| - m <= k < |times| ==> times[k] >= t
    ensures times != [] ==>
      Delivered(start, interval, periodic, times) <= Due(start, interval, periodic, times[|times| - 1])
    ensures Delivered(start, interval, periodic, times) >= Min(m, Due(start, interval, periodic, t))
    decreases |times|
  {
    if m > 0 {
      var last := |times| - 1;
      NeverEarlyNeverLost(start, interval, periodic, times[..last], m - 1, t);
      DueGrows(start, interval, periodic, t, times[last]);
    }
  }

  lemma DeliveredAppend(start: nat, interval: nat, periodic: bool, times: seq<nat>, t: nat)
    requires History(start, times) && After(start, times, t)
    ensures History(start, times + [t]) && After(start, times + [t], t)
    ensures Delivered(start, interval, periodic, times + [t])
         == Min(Delivered(start, interval, periodic, times) + 1, Due(start, interval, periodic, t))
  {
    assert (times + [t])[..|times|] == times;
  }

  /** No history has delivered more than is due at any time after it. */
  lemma NothingEarly(start: nat, interval: nat, periodic: bool, times: seq<nat>, t: nat)
    requires History(start, times) && After(start, times, t)
    ensures Delivered(start, interval, periodic, times) <= Due(start, interval, periodic, t)
  {
    if times != [] {
      NeverEarlyNeverLost(start, interval, periodic, times, 0, start);
      DueGrows(start, interval, periodic, times[|times| - 1], t);
    }
  }

  /** After any history, checks repeated at one moment deliver one expiry each until all that is
      due by then is delivered, and then none. */
  lemma {:induction false} RepeatedChecks(start: nat, interval: nat, periodic: bool,
                                          times: seq<nat>, all: seq<nat>, t: nat)
    requires History(start, times) && After(start, times, t)
    requires times <= all && forall i :: |times| <= i < |all| ==> all[i] == t
    ensures History(start, all) && After(start, all, t)
    ensures Delivered(start, interval, periodic, all)
         == Min(Delivered(start, interval, periodic, times) + (|all| - |times|), Due(start, interval, periodic, t))
    decreases |all|
  {
    if times == all {
      NothingEarly(start, interval, periodic, times, t);
    } else {
      RepeatedChecks(start, interval, periodic, times, all[..|all| - 1], t);
    }
  }

  // ---- the count register ----

  /** A periodic reading: the cycles to the next grid point, rounded up. */
  predicate PeriodicReading(start: nat, interval: nat, period: nat, now: nat, v: int) {
    && start <= now && interval > 0 && period > 0
    && var next := GridPoint(start, interval, Due(start, interval, true, now) + 1);
       next > now && v == CeilDiv(next - now, period)
  }

  /** A one-shot reading: the cycles to the only grid point, rounded up, and zero from there on. */
  predicate OneShotReading(start: nat, interval: nat, period: nat, now: nat, v: int) {
    && period > 0
    && if now < start + interval then v > 0 && v == CeilDiv(start + interval - now, period) else v == 0
  }

  /** The register counts the cycles left to the next grid point, rounded up. */
  lemma PeriodicCount(elapsed: nat, count: nat, period: nat)
    requires count > 0 && period > 0
    ensures count * period > 0
    ensures var next := (elapsed / (count * period) + 1) * (count * period);
            next > elapsed && count - elapsed / period % count == CeilDiv(next - elapsed, period)
    ensures elapsed / period % count < count
  {
    var interval := count * period;
    assert interval > 0;
    var q, r := elapsed / interval, elapsed % interval;
    assert elapsed == interval * q + r;
    var a, b := r / period, r % period;
    assert r == period * a + b;
    SplitBound(a, b, count, period);
    assert elapsed == period * (count * q + a) + b by {
      assert interval * q == period * (count * q);
      assert period * (count * q + a) == period * (count * q) + period * a;
    }
    DivIsUnique(elapsed, period, count * q + a, b);
    DivIsUnique(count * q + a, count, q, a);
    var left := interval - r;
    assert (q + 1) * interval - elapsed == left;
    CeilOf(left, period, count - a, b);
  }

  lemma SplitBound(a: int, b: int, count: int, period: int)
    requires period > 0 && 0 <= b && period * a + b < count * period
    ensures a < count
  {}

  lemma CeilOf(x: nat, d: nat, c: int, b: nat)
    requires d > 0 && b < d && x == d * c - b
    ensures CeilDiv(x, d) == c
  {
    DivIsUnique(x + d - 1, d, c, d - 1 - b);
  }

  lemma PeriodicCounter(start: nat, now: nat, count: nat, period: nat)
    requires start <= now && count > 0 && period > 0
    ensures PeriodicReading(start, count * period, period, now, count - (now - start) / period % count)
    ensures 0 <= (now - start) / period % count < count
  {
    PeriodicCount(now - start, count, period);
    var interval := count * period;
    GridPointIsMultiple(start, interval, (now - start) / interval + 1);
  }

  lemma OneShotCounter(start: nat, now: nat, count: nat, period: nat)
    requires start <= now && period > 0
    ensures var cycles := (now - start) / period;
            OneShotReading(start, count * period, period, now, if cycles < count then count - cycles else 0)
  {
    OneShotCount(now - start, count, period);
  }

  /** Before the deadline the register counts the cycles left, rounded up; the count and the
      deadline run out together. */
  lemma OneShotCount(elapsed: nat, count: nat, period: nat)
    requires period > 0
    ensures elapsed / period < count <==> elapsed < count * period
    ensures elapsed < count * period ==> count - elapsed / period == CeilDiv(count * period - elapsed, period)
  {
    var a, b := elapsed / period, elapsed % period;
    PastGridPoint(elapsed, period, count);
    if a < count {
      CountLeft(elapsed, a, b, count, period);
    }
  }

  lemma CountLeft(elapsed: nat, a: nat, b: nat, count: nat, period: nat)
    requires b < period && elapsed == period * a + b && a < count && elapsed < count * period
    ensures count - a == CeilDiv(count * period - elapsed, period)
  {
    assert count * period - elapsed == period * (count - a) - b;
    CeilOf(count * period - elapsed, period, count - a, b);
  }

  // ---- the registers ----

  datatype Outcome = Done | NotSupported | InvalidParam

  /** Bits 17 and 18 of the LVT timer register. */
  function Mode(lvt: nat): nat { lvt / 0x2_0000 % 4 }

  /** The divide configuration register's three bits: 0, 1 and 3. */
  function DivideBits(dcr: nat): (v: nat)
    ensures v < 8
  {
    dcr % 4 + 4 * (dcr / 8 % 2)
  }

  /** Section 10.5.4, figure 10-10: the code 111 divides by one, any other code `v` by 2^(v+1). */
  function Divisor(dcr: nat): nat {
    [2, 4, 8, 16, 32, 64, 128, 1][DivideBits(dcr)]
  }

  /** The shift a written divide configuration selects, and the register value read from it. */
  function ShiftOf(dcr: nat): (shift: nat)
    ensures shift < 8
  {
    (dcr % 4 + dcr / 8 % 2 * 4 + 1) % 8
  }

  function DivideOf(shift: nat): nat {
    var dcr := (shift + 0xff) % 0x100 % 8;
    dcr % 4 + 8 * (dcr / 4 % 2)
  }

  lemma DivideRoundTrip(dcr: nat)
    ensures DivideOf(ShiftOf(dcr)) == dcr % 4 + 8 * (dcr / 8 % 2)
    ensures Pow2(ShiftOf(dcr)) == Divisor(dcr)
  {
    DivideCodes(dcr % 4, dcr / 8 % 2);
    assert Pow2(0) == 1 && Pow2(1) == 2 && Pow2(2) == 4 && Pow2(3) == 8;
    assert Pow2(4) == 16 && Pow2(5) == 32 && Pow2(6) == 64 && Pow2(7) == 128;
  }

  lemma DivideCodes(low: nat, high: nat)
    requires low < 4 && high < 2
    ensures var v := low + 4 * high;
            DivideOf((v + 1) % 8) == low + 8 * high && (v + 1) % 8 == if v == 7 then 0 else v + 1
  {
    var v := low + 4 * high;
    assert v % 4 == low && v / 4 == high;
    assert v < 7 ==> (v + 1 + 0xff) % 0x100 == v;
  }

  lemma ShiftBound(shift: nat)
    requires shift < 8
    ensures Pow2(shift) <= 0x80
  {
    assert Pow2(7) == 0x80;
    Pow2Grows(shift, 7);
  }

  lemma {:induction false} Pow2Grows(i: nat, j: nat)
    requires i <= j
    ensures Pow2(i) <= Pow2(j)
  {
    if i < j { Pow2Grows(i, j - 1); }
  }

  lemma Product(a: nat, b: nat, c: nat)
    requires b <= c
    ensures a * b <= a * c
  {}

  lemma IntervalBound(count: nat, shift: nat)
    requires count < 0x1_0000_0000 && shift < 8
    ensures count * Pow2(shift) < 0x80_0000_0000
    ensures count * Pow2(shift) > 0 <==> count > 0
  {
    ShiftBound(shift);
    Product(count, Pow2(shift), 0x80);
  }

  /** The grid point that follows `fired` expiries; zero when none will. */
  function NextExpiry(start: nat, interval: nat, periodic: bool, fired: nat): nat {
    if interval == 0 || (!periodic && fired > 0) then 0 else GridPoint(start, interval, fired + 1)
  }

  /** Moving the deadline on by one interval, or disarming it, follows the grid. */
  lemma NextExpiryStep(start: nat, interval: nat, periodic: bool, fired: nat, t: nat)
    requires t >= start && fired <= Due(start, interval, periodic, t)
    ensures var d := NextExpiry(start, interval, periodic, fired);
            var due := Due(start, interval, periodic, t);
            && (d != 0 && t >= d <==> fired < due)
            && NextExpiry(start, interval, periodic, Min(fired + 1, due))
               == if d != 0 && t >= d then (if periodic then d + interval else 0) else d
  {
    if interval > 0 {
      PastGridPoint(t - start, interval, fired + 1);
      GridPointIsMultiple(start, interval, fired + 1);
    }
  }

  /** The expiries met by the checks are those of the reference, and the deadline is the next
      grid point: no drift, whatever the checks were. */
  ghost predicate OnGrid(start: nat, interval: nat, periodic: bool, checks: seq<nat>, fired: nat, deadline: nat) {
    && History(start, checks) && fired == Delivered(start, interval, periodic, checks)
    && deadline == NextExpiry(start, interval, periodic, fired)
  }

  /** One more check at `t`: an expiry is met exactly when the deadline has passed, and the moved
      deadline is on the grid again. */
  lemma OnGridStep(start: nat, interval: nat, periodic: bool, checks: seq<nat>, fired: nat, deadline: nat, t: nat)
    requires OnGrid(start, interval, periodic, checks, fired, deadline) && After(start, checks, t)
    ensures var due := Due(start, interval, periodic, t);
            var passed := deadline != 0 && t >= deadline;
            && (passed <==> Min(fired + 1, due) > fired) && fired <= due
            && After(start, checks + [t], t)
            && OnGrid(start, interval, periodic, checks + [t], Min(fired + 1, due),
                      if passed then (if periodic then deadline + interval else 0) else deadline)
  {
    NothingEarly(start, interval, periodic, checks, t);
    NextExpiryStep(start, interval, periodic, fired, t);
    DeliveredAppend(start, interval, periodic, checks, t);
  }

  lemma ArmedOneShot(start: nat, interval: nat, fired: nat)
    ensures NextExpiry(start, interval, false, fired) in {0, start + interval}
  {
    GridPointIsMultiple(start, interval, 1);
  }

  /** The timer as its registers, its last start and the checks since then: what its future
      depends on. */
  datatype Timer = Timer(lvt: nat, shift: nat, count: nat, start: nat, checks: seq<nat>) {
    predicate Masked() { lvt / 0x1_0000 % 2 == 1 }
    predicate Periodic() { Mode(lvt) == 1 }
    function Vector(): nat { lvt % 0x100 }
    function Interval(): nat { count * Pow2(shift) }

    /** Whether a check at `now` raises an interrupt: an expiry is due that no check has met. */
    predicate Fires(now: nat) {
      !Masked() && Due(start, Interval(), Periodic(), now) > Delivered(start, Interval(), Periodic(), checks)
    }

    function Checked(now: nat): Timer { this.(checks := checks + [now]) }

    function Restarted(now: nat): Timer { this.(start := if count == 0 then start else now, checks := []) }
  }

  /** The fields of the LVT timer register, whatever the other bits are: the vector in bits 0-7, the
      mask in bit 16, the mode in bits 17-18. */
  lemma LvtFields(t: Timer, vector: nat, mid: nat, mask: nat, mode: nat, high: nat)
    requires vector < 0x100 && mid < 0x100 && mask < 2 && mode < 4
    requires t.lvt == vector + 0x100 * mid + 0x1_0000 * mask + 0x2_0000 * mode + 0x8_0000 * high
    ensures t.Vector() == vector && (t.Masked() <==> mask == 1) && Mode(t.lvt) == mode
    ensures t.Periodic() <==> mode == 1
  {
    var low := vector + 0x100 * mid;
    DivIsUnique(t.lvt, 0x100, mid + 0x100 * mask + 0x200 * mode + 0x800 * high, vector);
    DivIsUnique(t.lvt, 0x1_0000, mask + 2 * mode + 8 * high, low);
    DivIsUnique(t.lvt, 0x2_0000, mode + 4 * high, low + 0x1_0000 * mask);
  }

  /** A timer started with a count raises its first interrupt exactly from `count * 2^shift` after
      the start on, if it is not masked. */
  lemma FirstExpiry(t: Timer, now: nat)
    requires t.checks == [] && t.count > 0 && t.start <= now
    ensures t.Fires(now) <==> !t.Masked() && now >= t.start + t.count * Pow2(t.shift)
  {
    assert t.Interval() > 0;
    DueCounts(t.start, t.Interval(), t.Periodic(), now, 1);
  }

  class ApicTimer {
    var lvt: nat
    var divideShift: nat
    var initialCount: nat
    var lastStart: nat
    var deadline: nat
    /** Since the last start: the interval, the times of the checks, and the expiries they met. */
    ghost var interval: nat
    ghost var checks: seq<nat>
    ghost var fired: nat

    predicate Masked() reads this`lvt { lvt / 0x1_0000 % 2 == 1 }
    predicate Periodic() reads this`lvt { Mode(lvt) == 1 }
    function Vector(): nat reads this`lvt { lvt % 0x100 }
    function IntervalNs(): nat reads this`initialCount, this`divideShift { initialCount * Pow2(divideShift) }

    ghost function View(): Timer reads this { Timer(lvt, divideShift, initialCount, lastStart, checks) }

    /** The clock has not gone back behind the last start or check. */
    ghost predicate Now(now: nat) reads this {
      After(lastStart, checks, now) && now < CLOCK_LIMIT
    }

    predicate Registers() reads this`lvt, this`divideShift, this`initialCount {
      lvt < 0x1_0000_0000 && Mode(lvt) < 2 && divideShift < 8 && initialCount < 0x1_0000_0000
    }

    ghost predicate Valid() reads this {
      && Registers() && interval == IntervalNs()
      && OnGrid(lastStart, interval, Periodic(), checks, fired, deadline)
    }

    constructor ()
      ensures Valid() && Masked() && View() == Timer(0x1_0000, 0, 0, 0, [])
    {
      lvt, divideShift, initialCount, lastStart, deadline := 0x1_0000, 0, 0, 0, 0;
      interval, checks, fired := 0, [], 0;
    }

    /** One check delivers at most one expiry, and one exactly when one is due; it raises an
        interrupt when it does and the timer is not masked. */
    method CheckInterrupt(now: nat) returns (fires: bool)
      requires Valid() && Now(now)
      modifies this`deadline, this`checks, this`fired
      ensures Valid() && View() == old(View()).Checked(now) && fires == old(View()).Fires(now)
      ensures fired == Min(old(fired) + 1, Due(lastStart, interval, Periodic(), now))
      ensures fires <==> !Masked() && fired > old(fired)
    {
      OnGridStep(lastStart, interval, Periodic(), checks, fired, deadline, now);
      NoOverflow(now);
      if deadline == 0 {
        fires := false;
      } else if now >= deadline {
        if Periodic() {
          deadline := deadline + IntervalNs();
        } else {
          deadline := 0;
        }
        fires := !Masked();
      } else {
        fires := false;
      }
      fired := Min(fired + 1, Due(lastStart, interval, Periodic(), now));
      checks := checks + [now];
    }

    /** The sum that moves a passed deadline on fits 64 bits. */
    lemma NoOverflow(now: nat)
      requires Valid() && Now(now)
      ensures deadline <= now ==> deadline + IntervalNs() < TWO64
    {
      IntervalBound(initialCount, divideShift);
    }

    /** The value of the count register, or `None` for the division by zero of a periodic timer
        that has no count. */
    method CurrentCounter(now: nat) returns (r: Option<nat>)
      requires Valid() && Now(now)
      ensures r == None <==> Periodic() && initialCount == 0
      ensures r.Some? && Periodic() ==>
        1 <= r.value <= initialCount && PeriodicReading(lastStart, interval, Pow2(divideShift), now, r.value)
      ensures r.Some? && !Periodic() ==> OneShotReading(lastStart, interval, Pow2(divideShift), now, r.value)
      ensures r.Some? && !Periodic() && deadline != 0 ==> (r.value == 0 <==> now >= deadline)
    {
      var elapsed := now - lastStart;
      var cycles := elapsed / Pow2(divideShift);
      if Periodic() {
        if initialCount == 0 { return None; }
        PeriodicCounter(lastStart, now, initialCount, Pow2(divideShift));
        r := Some(initialCount - cycles % initialCount);
      } else {
        OneShotCounter(lastStart, now, initialCount, Pow2(divideShift));
        ArmedOneShot(lastStart, interval, fired);
        if cycles < initialCount {
          r := Some(initialCount - cycles);
        } else {
          r := Some(0);
        }
      }
    }

    /** A restart at `now`: a fresh grid, or no deadline at all without a count. */
    method StartTimer(now: nat)
      requires Registers()
      requires lastStart <= now < CLOCK_LIMIT
      modifies this`lastStart, this`deadline, this`interval, this`checks, this`fired
      ensures Valid() && fired == 0 && View() == old(View()).Restarted(now)
      ensures deadline == if initialCount == 0 then 0 else now + IntervalNs()
    {
      interval, checks, fired := IntervalNs(), [], 0;
      if initialCount != 0 {
        IntervalBound(initialCount, divideShift);
        lastStart := now;
        assert lastStart + IntervalNs() < TWO64;
        deadline := lastStart + IntervalNs();
        GridPointIsMultiple(lastStart, interval, 1);
      } else {
        deadline := 0;
      }
    }

    /** Rejected modes change nothing; an accepted value restarts the timer. */
    method SetLvtTimer(bits: nat, now: nat) returns (r: Outcome)
      requires Valid() && Now(now) && bits < 0x1_0000_0000
      modifies this`lvt, this`lastStart, this`deadline, this`interval, this`checks, this`fired
      ensures Valid()
      ensures r == match Mode(bits) case 2 => NotSupported case 3 => InvalidParam case _ => Done
      ensures r != Done ==> unchanged(this)
      ensures r == Done ==> fired == 0 && View() == old(View()).(lvt := bits).Restarted(now)
      ensures r == Done ==> deadline == if initialCount == 0 then 0 else now + IntervalNs()
    {
      var mode := Mode(bits);
      if mode == 2 { return NotSupported; }
      if mode == 3 { return InvalidParam; }
      lvt := bits;
      StartTimer(now);
      r := Done;
    }

    method SetInitialCount(initial: nat, now: nat)
      requires Valid() && Now(now) && initial < 0x1_0000_0000
      modifies this`initialCount, this`lastStart, this`deadline, this`interval, this`checks, this`fired
      ensures Valid() && fired == 0 && View() == old(View()).(count := initial).Restarted(now)
      ensures deadline == if initial == 0 then 0 else now + IntervalNs()
    {
      initialCount := initial;
      StartTimer(now);
    }

    /** The value of the divide configuration register. */
    function Divide(): nat reads this`divideShift {
      DivideOf(divideShift)
    }

    /** The three bits written are read back, and the timer counts at the divisor they stand for. */
    method SetDivide(dcr: nat, now: nat)
      requires Valid() && Now(now) && dcr < 0x1_0000_0000
      modifies this`divideShift, this`lastStart, this`deadline, this`interval, this`checks, this`fired
      ensures Valid() && fired == 0 && View() == old(View()).(shift := ShiftOf(dcr)).Restarted(now)
      ensures Divide() == dcr % 4 + 8 * (dcr / 8 % 2)
      ensures Pow2(divideShift) == Divisor(dcr)
      ensures deadline == if initialCount == 0 then 0 else now + IntervalNs()
    {
      divideShift := ShiftOf(dcr);
      DivideRoundTrip(dcr);
      StartTimer(now);
    }
  }

  /** From power-on: the mode, unmasked, with a vector, then a count; a check raises the interrupt
      exactly when the count has run out since. */
  method FromPowerOn(vector: nat, periodic: bool, count: nat, at: nat, now: nat) returns (fires: bool)
    requires vector < 0x100 && 0 < count < 0x1_0000_0000 && at <= now < CLOCK_LIMIT
    ensures fires <==> now >= at + count
  {
    var timer := new ApicTimer();
    var lvt := if periodic then 0x2_0000 + vector else vector;
    var _ := timer.SetLvtTimer(lvt, at);
    timer.SetInitialCount(count, at);
    ghost var u := Timer(lvt, 0, count, at, []);
    assert timer.View() == u;
    LvtFields(u, vector, 0, 0, if periodic then 1 else 0, 0);
    FirstExpiry(u, now);
    assert Pow2(0) == 1;
    fires := timer.CheckInterrupt(now);
  }

  /** A periodic timer without a count is one register write away from power-on, and reading its
      count divides by zero. */
  method PeriodicWithoutCount(now: nat) returns (r: Option<nat>)
    requires now < CLOCK_LIMIT
    ensures r == None
  {
    var timer := new ApicTimer();
    var _ := timer.SetLvtTimer(0x2_0000, now);
    r := timer.CurrentCounter(now);
  }
}
