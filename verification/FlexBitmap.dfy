/** The word-packed bitmap of `utils/bitmap.rs` and the bit search of `utils/util.rs`,
    both tied to the plain set of the positions whose bit is set. */
module FlexBitmaps {
  import opened Bits
  import opened Wrappers

  const MAX_WORD: nat := TWO64 - 1

  predicate AreWords(words: seq<nat>) {
    forall k :: 0 <= k < |words| ==> words[k] < TWO64
  }

  /** The positions whose bit is set, padding bits of the last word included. */
  ghost function Members(words: seq<nat>): set<nat> {
    set i: nat | i < 64 * |words| && Holds(words, i)
  }

  predicate Holds(words: seq<nat>, i: nat) {
    i < 64 * |words| && Bit(words[i / 64], i % 64)
  }

  ghost function Interval(lo: nat, hi: nat): (s: set<nat>)
    ensures forall i: nat :: i in s <==> lo <= i < hi
    decreases hi
  {
    if hi <= lo then {} else Interval(lo, hi - 1) + {hi - 1}
  }

  /** One bit written, as `set` does it. */
  function WithBit(words: seq<nat>, b: nat, val: bool): seq<nat>
    requires b < 64 * |words|
  {
    var w := words[b / 64];
    words[b / 64 := if val then Or(w, Pow2(b % 64)) else AndNot(w, Pow2(b % 64))]
  }

  /** The reference for `set_bits`: the bits of `[b, b + n)` written one by one. */
  function WithEach(words: seq<nat>, b: nat, n: nat, val: bool): (r: seq<nat>)
    requires b + n <= 64 * |words|
    ensures |r| == |words|
  {
    if n == 0 then words else WithBit(WithEach(words, b, n - 1, val), b + n - 1, val)
  }

  lemma WithBitHolds(words: seq<nat>, b: nat, val: bool, i: nat)
    requires b < 64 * |words|
    ensures Holds(WithBit(words, b, val), i) <==> if i == b then val else Holds(words, i)
  {
    if i < 64 * |words| && i / 64 == b / 64 {
      SetBit(words[b / 64], b % 64, i % 64);
      ClearBit(words[b / 64], b % 64, i % 64);
    }
  }

  lemma {:induction false} WithEachHolds(words: seq<nat>, b: nat, n: nat, val: bool, i: nat)
    requires b + n <= 64 * |words|
    ensures Holds(WithEach(words, b, n, val), i) <==> if b <= i < b + n then val else Holds(words, i)
  {
    if n > 0 {
      WithEachHolds(words, b, n - 1, val, i);
      WithBitHolds(WithEach(words, b, n - 1, val), b + n - 1, val, i);
    }
  }

  lemma {:induction false} WithEachIsWords(words: seq<nat>, b: nat, n: nat, val: bool)
    requires b + n <= 64 * |words| && AreWords(words)
    ensures AreWords(WithEach(words, b, n, val))
  {
    if n > 0 {
      WithEachIsWords(words, b, n - 1, val);
      var prev := WithEach(words, b, n - 1, val);
      var p := b + n - 1;
      KeepsWord(prev[p / 64], p % 64);
    }
  }

  /** What writing a range one bit at a time does to the set. */
  lemma WithEachMembers(words: seq<nat>, b: nat, n: nat, val: bool)
    requires b + n <= 64 * |words| && AreWords(words)
    ensures Members(WithEach(words, b, n, val))
         == if val then Members(words) + Interval(b, b + n) else Members(words) - Interval(b, b + n)
  {
    forall i: nat ensures i in Members(WithEach(words, b, n, val))
                     <==> if b <= i < b + n then val else i in Members(words)
    {
      WithEachHolds(words, b, n, val, i);
    }
  }

  /** The set determines the words: two well-formed maps of one size with the same members are equal. */
  lemma MembersDetermineMap(a: seq<nat>, b: seq<nat>)
    requires AreWords(a) && AreWords(b) && |a| == |b| && Members(a) == Members(b)
    ensures a == b
  {
    forall k | 0 <= k < |a| ensures a[k] == b[k] {
      forall j: nat ensures Bit(a[k], j) <==> Bit(b[k], j) {
        if j < 64 {
          var i := 64 * k + j;
          assert i / 64 == k && i % 64 == j;
          assert Holds(a, i) == (i in Members(a)) == (i in Members(b)) == Holds(b, i);
        } else {
          WordWidth(a[k]);
          WordWidth(b[k]);
        }
      }
      SameBits(a[k], b[k]);
    }
  }

  /** `count_ones` on the low `n` bits. */
  function CountOnes(w: nat, n: nat): nat {
    if n == 0 then 0 else CountOnes(w, n - 1) + (if Bit(w, n - 1) then 1 else 0)
  }

  predicate HasBit(w: nat, base: nat, i: nat) {
    i >= base && Bit(w, i - base)
  }

  ghost function Shifted(w: nat, base: nat, n: nat): set<nat> {
    set i: nat | base <= i < base + n && HasBit(w, base, i)
  }

  lemma {:induction false} CountIsCardinality(w: nat, base: nat, n: nat)
    ensures |Shifted(w, base, n)| == CountOnes(w, n)
  {
    if n > 0 {
      CountIsCardinality(w, base, n - 1);
      OneMoreBit(w, base, n - 1);
    }
  }

  lemma OneMoreBit(w: nat, base: nat, n: nat)
    ensures Shifted(w, base, n + 1) == if Bit(w, n) then Shifted(w, base, n) + {base + n} else Shifted(w, base, n)
  {}

  /** One more word adds its own ones to the cardinality. */
  lemma MembersOfPrefix(words: seq<nat>, k: nat)
    requires k < |words|
    ensures |Members(words[..k + 1])| == |Members(words[..k])| + CountOnes(words[k], 64)
  {
    CountIsCardinality(words[k], 64 * k, 64);
    forall i: nat ensures i in Members(words[..k + 1])
                     <==> i in Members(words[..k]) || i in Shifted(words[k], 64 * k, 64)
    {
      assert Holds(words[..k + 1], i) <==>
        Holds(words[..k], i) || (64 * k <= i < 64 * k + 64 && HasBit(words[k], 64 * k, i));
    }
    assert Members(words[..k + 1]) == Members(words[..k]) + Shifted(words[k], 64 * k, 64);
  }

  class FlexBitmap {
    var len: nat
    var words: seq<nat>

    ghost predicate Valid() reads this {
      |words| == (len + 64 - 1) / 64 && AreWords(words)
    }

    constructor (n: nat)
      ensures Valid() && len == n && Members(words) == {}
    {
      len := n;
      words := seq((n + 64 - 1) / 64, _ => 0);
      new;
      forall i: nat | i < 64 * |words| ensures !Bit(words[i / 64], i % 64) { BitOfZero(i % 64); }
    }

    /** Sets every bit of every word, the padding past `len` included. */
    method InitDirty()
      requires Valid()
      modifies this`words
      ensures Valid() && |words| == old(|words|)
      ensures Members(words) == Interval(0, 64 * |words|)
    {
      for i := 0 to |words|
        invariant |words| == old(|words|) && AreWords(words)
        invariant forall k :: 0 <= k < i ==> words[k] == MAX_WORD
      {
        words := words[i := MAX_WORD];
      }
      forall i: nat | i < 64 * |words| ensures Bit(words[i / 64], i % 64) { MaxWord(i % 64); }
    }

    method Clear()
      requires Valid()
      modifies this`words
      ensures Valid() && |words| == old(|words|) && Members(words) == {}
    {
      for i := 0 to |words|
        invariant |words| == old(|words|) && AreWords(words)
        invariant forall k :: 0 <= k < i ==> words[k] == 0
      {
        words := words[i := 0];
      }
      forall i: nat | i < 64 * |words| ensures !Bit(words[i / 64], i % 64) { BitOfZero(i % 64); }
    }

    /** `None` is the panic: the explicit one past `len`, or the word index of `len` itself when
        `len` fills its last word. Any other `idx == len` reads a padding bit. */
    method Get(idx: nat) returns (r: Option<nat>)
      requires Valid()
      ensures r.None? <==> idx > len || (idx == len && len % 64 == 0)
      ensures r.Some? ==> r.value == if idx in Members(words) then 1 else 0
    {
      if idx > len || idx / 64 >= |words| { return None; }
      r := Some(Shr(words[idx / 64], idx % 64) % 2);
    }

    /** `false` is the panic, with nothing written. */
    method Set(bit: nat, val: bool) returns (ok: bool)
      requires Valid()
      modifies this`words
      ensures Valid() && |words| == old(|words|)
      ensures ok <==> !(bit > len || (bit == len && len % 64 == 0))
      ensures !ok ==> words == old(words)
      ensures ok ==> words == WithBit(old(words), bit, val)
      ensures ok ==> Members(words) == if val then old(Members(words)) + {bit} else old(Members(words)) - {bit}
    {
      if bit > len || bit / 64 >= |words| { return false; }
      WithEachIsWords(words, bit, 1, val);
      WithEachMembers(words, bit, 1, val);
      assert WithEach(words, bit, 1, val) == WithBit(WithEach(words, bit, 0, val), bit, val);
      if val {
        words := words[bit / 64 := Or(words[bit / 64], Pow2(bit % 64))];
      } else {
        words := words[bit / 64 := AndNot(words[bit / 64], Pow2(bit % 64))];
      }
      ok := true;
    }

    /** The loop of `set_bits`: one whole word per step. */
    method FillWords(bit: nat, n: nat, val: bool)
      requires Valid() && bit + n <= 64 * |words| && bit % 64 == 0 && (bit + n) % 64 == 0
      modifies this`words
      ensures Valid() && |words| == old(|words|)
      ensures Members(words) == if val then old(Members(words)) + Interval(bit, bit + n)
                                else old(Members(words)) - Interval(bit, bit + n)
    {
      var head := bit;
      while head < bit + n
        invariant bit <= head <= bit + n && head % 64 == 0
        invariant |words| == old(|words|) && AreWords(words)
        invariant forall k :: 0 <= k < |words| ==>
          words[k] == if bit / 64 <= k < head / 64 then (if val then MAX_WORD else 0) else old(words)[k]
      {
        words := words[head / 64 := if val then MAX_WORD else 0];
        head := head + 64;
      }
      FilledMembers(old(words), words, bit, n, val);
    }

    /** Accepted exactly when the range fits and is one bit or whole words; then the same words
        as writing the bits one by one. */
    method SetBits(bit: nat, n: nat, val: bool) returns (ok: bool)
      requires Valid()
      modifies this`words
      ensures Valid() && |words| == old(|words|)
      ensures ok <==> bit + n <= len && (n == 1 || (bit % 64 == 0 && (bit + n) % 64 == 0))
      ensures !ok ==> words == old(words)
      ensures ok ==> words == WithEach(old(words), bit, n, val)
      ensures ok ==> Members(words) == if val then old(Members(words)) + Interval(bit, bit + n)
                                     else old(Members(words)) - Interval(bit, bit + n)
    {
      if bit + n > len { return false; }
      WithEachIsWords(words, bit, n, val);
      WithEachMembers(words, bit, n, val);
      if n == 1 {
        ok := Set(bit, val);
        assert words == WithBit(WithEach(old(words), bit, 0, val), bit, val);
      } else {
        if bit % 64 != 0 || (bit + n) % 64 != 0 { return false; }
        FillWords(bit, n, val);
        MembersDetermineMap(words, WithEach(old(words), bit, n, val));
        ok := true;
      }
    }

    /** The number of members. */
    method Sum() returns (sum: nat)
      requires Valid()
      ensures sum == |Members(words)|
    {
      sum := 0;
      for k := 0 to |words|
        invariant sum == |Members(words[..k])|
      {
        MembersOfPrefix(words, k);
        sum := sum + CountOnes(words[k], 64);
      }
      assert words[..|words|] == words;
    }

    /** The least member, or one past the last bit when there is none. */
    method First() returns (first: nat)
      requires Valid()
      ensures forall i :: i in Members(words) ==> first <= i
      ensures if Members(words) == {} then first == 64 * |words| else first in Members(words)
    {
      first := 0;
      for k := 0 to |words|
        invariant first == 64 * k
        invariant forall i :: i in Members(words) ==> first <= i
      {
        if words[k] == 0 {
          forall i | i in Members(words) ensures first + 64 <= i { BitOfZero(i % 64); }
          first := first + 64;
        } else {
          first := FirstOfWord(words, k);
          return;
        }
      }
    }
  }

  /** The bit just past the length can be set and read back, unless the length fills its word. */
  method PaddingBit(len: nat) returns (r: Option<nat>)
    ensures r == if len % 64 == 0 then None else Some(1)
  {
    var bitmap := new FlexBitmap(len);
    var _ := bitmap.Set(len, true);
    r := bitmap.Get(len);
  }

  /** The inner loop of `first`: shift until the low bit is one. */
  method FirstOfWord(words: seq<nat>, k: nat) returns (first: nat)
    requires AreWords(words) && k < |words| && words[k] != 0
    requires forall i :: i in Members(words) ==> 64 * k <= i
    ensures first in Members(words)
    ensures forall i :: i in Members(words) ==> first <= i
  {
    first := 64 * k;
    var tmp := words[k];
    ghost var n := 0;
    while tmp % 2 == 0
      invariant first == 64 * k + n && tmp == Shr(words[k], n) > 0
      invariant forall i: nat :: i < n ==> !Bit(words[k], i)
      decreases tmp
    {
      ShrStep(words[k], n);
      tmp := tmp / 2;
      first := first + 1;
      n := n + 1;
    }
    WordWidth(words[k]);
    assert Bit(words[k], n);
    assert first / 64 == k && first % 64 == n;
    forall i | i in Members(words) ensures first <= i {
      if i / 64 == k { assert Bit(words[k], i % 64); }
    }
  }

  lemma FilledMembers(was: seq<nat>, words: seq<nat>, bit: nat, n: nat, val: bool)
    requires |words| == |was| && AreWords(was)
    requires bit % 64 == 0 && (bit + n) % 64 == 0 && bit + n <= 64 * |words|
    requires forall k :: 0 <= k < |words| ==>
      words[k] == if bit / 64 <= k < (bit + n) / 64 then (if val then MAX_WORD else 0) else was[k]
    ensures Members(words) == if val then Members(was) + Interval(bit, bit + n)
                            else Members(was) - Interval(bit, bit + n)
  {
    forall i: nat | i < 64 * |words|
      ensures Bit(words[i / 64], i % 64) <==> if bit <= i < bit + n then val else Bit(was[i / 64], i % 64)
    {
      MaxWord(i % 64);
      BitOfZero(i % 64);
    }
    assert forall i: nat :: i in Members(words)
                       <==> if bit <= i < bit + n then val else i in Members(was);
  }

  // ---- bitbitmapfind_nth ----

  /** How many positions of `[lo, hi)` hold the wanted bit. */
  function Matches(bitmap: nat, lo: nat, hi: nat, wanted: bool): nat
    decreases hi
  {
    if hi <= lo then 0
    else Matches(bitmap, lo, hi - 1, wanted) + (if Bit(bitmap, hi - 1) == wanted then 1 else 0)
  }

  lemma {:induction false} MatchesGrow(bitmap: nat, lo: nat, mid: nat, hi: nat, wanted: bool)
    requires mid <= hi
    ensures Matches(bitmap, lo, mid, wanted) <= Matches(bitmap, lo, hi, wanted)
    decreases hi
  {
    if mid < hi { MatchesGrow(bitmap, lo, mid, hi - 1, wanted); }
  }

  /** Position `i` is the `nth` match of the range, counting from one. */
  predicate IsNth(bitmap: nat, start: nat, size: nat, nth: nat, wanted: bool, i: nat) {
    && start <= i < start + size
    && Bit(bitmap, i) == wanted
    && Matches(bitmap, start, i, wanted) + 1 == nth
  }

  /** Exactly the `nth` match; `None` exactly when there is none, or the range leaves the word. */
  method BitmapFindNth(bitmap: nat, start: nat, size: nat, nth: nat, wanted: bool) returns (r: Option<nat>)
    ensures start + size > 64 ==> r == None
    ensures start + size <= 64 ==>
      forall i: nat :: r == Some(i) <==> IsNth(bitmap, start, size, nth, wanted, i)
    ensures r == None <==>
      start + size > 64 || nth == 0 || Matches(bitmap, start, start + size, wanted) < nth
  {
    if size + start > 64 { return None; }
    var count := 0;
    var bit := if wanted then 1 else 0;
    var end := start + size;
    for i := start to end
      invariant count == Matches(bitmap, start, i, wanted)
      invariant nth == 0 || count < nth
      invariant forall j: nat :: j < i ==> !IsNth(bitmap, start, size, nth, wanted, j)
    {
      if Shr(bitmap, i) % 2 == bit {
        count := count + 1;
        if count == nth {
          MatchesGrow(bitmap, start, i + 1, end, wanted);
          forall j: nat | IsNth(bitmap, start, size, nth, wanted, j) ensures j == i {
            if j > i { MatchesGrow(bitmap, start, i + 1, j, wanted); }
          }
          return Some(i);
        }
      }
    }
    r := None;
  }
}
