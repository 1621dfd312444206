/** Bitwise operations of machine words. A word is a natural number below two to its
    width; every operation is defined digit by digit in base two, so one theory serves
    words of any width. */
module Bits {
  import opened Wrappers

  /** `1 << i`. */
  function Pow2(i: nat): (p: nat)
    ensures p > 0
  {
    if i == 0 then 1 else 2 * Pow2(i - 1)
  }

  /** `x >> i`. */
  function Shr(x: nat, i: nat): nat {
    if i == 0 then x else Shr(x / 2, i - 1)
  }

  /** Whether bit `i` is set: `(x >> i) & 1 == 1`. */
  predicate Bit(x: nat, i: nat) {
    Shr(x, i) % 2 == 1
  }

  /** `x | y`. */
  function Or(x: nat, y: nat): nat {
    if x == 0 then y else 2 * Or(x / 2, y / 2) + (if x % 2 == 1 || y % 2 == 1 then 1 else 0)
  }

  /** `x & !y`. */
  function AndNot(x: nat, y: nat): nat {
    if x == 0 then 0 else 2 * AndNot(x / 2, y / 2) + (if x % 2 == 1 && y % 2 == 0 then 1 else 0)
  }

  lemma {:induction false} ShrStep(x: nat, i: nat)
    ensures Shr(x, i + 1) == Shr(x, i) / 2
  {
    if i > 0 { ShrStep(x / 2, i - 1); }
  }

  lemma {:induction false} BitOfZero(i: nat)
    ensures !Bit(0, i)
  {
    if i > 0 { BitOfZero(i - 1); }
  }

  lemma {:induction false} BitOfOr(x: nat, y: nat, i: nat)
    ensures Bit(Or(x, y), i) <==> Bit(x, i) || Bit(y, i)
  {
    if x == 0 {
      BitOfZero(i);
    } else if i > 0 {
      BitOfOr(x / 2, y / 2, i - 1);
    }
  }

  lemma {:induction false} BitOfAndNot(x: nat, y: nat, i: nat)
    ensures Bit(AndNot(x, y), i) <==> Bit(x, i) && !Bit(y, i)
  {
    if x == 0 {
      BitOfZero(i);
    } else if i > 0 {
      BitOfAndNot(x / 2, y / 2, i - 1);
    }
  }

  lemma {:induction false} BitOfPow2(k: nat, i: nat)
    ensures Bit(Pow2(k), i) <==> k == i
  {
    if k > 0 && i > 0 {
      assert Pow2(k) / 2 == Pow2(k - 1);
      BitOfPow2(k - 1, i - 1);
    } else if i > 0 {
      BitOfZero(i - 1);
    }
  }

  /** Setting bit `k` sets bit `k` and changes no other. */
  lemma SetBit(x: nat, k: nat, i: nat)
    ensures Bit(Or(x, Pow2(k)), i) <==> i == k || Bit(x, i)
  {
    BitOfOr(x, Pow2(k), i);
    BitOfPow2(k, i);
  }

  /** Clearing bit `k` clears bit `k` and changes no other. */
  lemma ClearBit(x: nat, k: nat, i: nat)
    ensures Bit(AndNot(x, Pow2(k)), i) <==> i != k && Bit(x, i)
  {
    BitOfAndNot(x, Pow2(k), i);
    BitOfPow2(k, i);
  }

  /** Or-ing in a value shifted past the occupied bits adds it. */
  lemma {:induction false} OrShifted(x: nat, y: nat, k: nat)
    requires x < Pow2(k)
    ensures Or(x, y * Pow2(k)) == x + y * Pow2(k)
  {
    if k > 0 && x > 0 {
      var p := Pow2(k - 1);
      assert y * Pow2(k) == 2 * (y * p);
      OrShifted(x / 2, y, k - 1);
    }
  }

  /** Clearing a bit above the occupied ones changes nothing. */
  lemma {:induction false} ClearAbove(x: nat, k: nat)
    requires x < Pow2(k)
    ensures AndNot(x, Pow2(k)) == x
  {
    if x > 0 {
      assert Pow2(k) / 2 == Pow2(k - 1);
      ClearAbove(x / 2, k - 1);
    }
  }

  /** A word below `2^w` has no bit at `w` or above, and only such a word. */
  lemma {:induction false} Width(x: nat, w: nat)
    ensures x < Pow2(w) <==> forall i :: i >= w ==> !Bit(x, i)
    decreases x, w
  {
    if x == 0 {
      forall i | i >= w ensures !Bit(x, i) { BitOfZero(i); }
    } else if w == 0 {
      var i := TopBit(x);
      assert Bit(x, i);
    } else {
      Width(x / 2, w - 1);
      assert forall i :: i > 0 ==> (Bit(x, i) <==> Bit(x / 2, i - 1));
      if forall i :: i >= w ==> !Bit(x, i) {
        forall i | i >= w - 1 ensures !Bit(x / 2, i) { assert !Bit(x, i + 1); }
      }
    }
  }

  /** A non-zero word has a bit set. */
  lemma {:induction false} TopBit(x: nat) returns (i: nat)
    requires x > 0
    ensures Bit(x, i)
  {
    if x == 1 {
      i := 0;
    } else {
      i := TopBit(x / 2);
      i := i + 1;
    }
  }

  /** Setting or clearing a bit inside the width keeps the word inside it. */
  lemma KeepsWidth(x: nat, k: nat, w: nat)
    requires x < Pow2(w) && k < w
    ensures Or(x, Pow2(k)) < Pow2(w)
    ensures AndNot(x, Pow2(k)) < Pow2(w)
  {
    Width(x, w);
    forall i | i >= w ensures !Bit(Or(x, Pow2(k)), i) && !Bit(AndNot(x, Pow2(k)), i) {
      SetBit(x, k, i);
      ClearBit(x, k, i);
    }
    Width(Or(x, Pow2(k)), w);
    Width(AndNot(x, Pow2(k)), w);
  }

  /** The all-ones word of width `w`. */
  lemma {:induction false} AllOnes(w: nat, i: nat)
    ensures Bit(Pow2(w) - 1, i) <==> i < w
  {
    if w == 0 {
      BitOfZero(i);
    } else if i > 0 {
      assert (Pow2(w) - 1) / 2 == Pow2(w - 1) - 1;
      AllOnes(w - 1, i - 1);
    }
  }

  /** Two words with the same bits are the same word. */
  lemma {:induction false} SameBits(x: nat, y: nat)
    requires forall i: nat :: Bit(x, i) <==> Bit(y, i)
    ensures x == y
    decreases x + y
  {
    if x > 0 || y > 0 {
      assert Bit(x, 0) <==> Bit(y, 0);
      forall i: nat ensures Bit(x / 2, i) <==> Bit(y / 2, i) {
        assert Bit(x, i + 1) <==> Bit(y, i + 1);
      }
      SameBits(x / 2, y / 2);
    }
  }

  // ---- 64-bit words ----

  lemma Pow2Of64()
    ensures Pow2(64) == TWO64
  {
    Pow2Byte(0); Pow2Byte(8); Pow2Byte(16); Pow2Byte(24);
    Pow2Byte(32); Pow2Byte(40); Pow2Byte(48); Pow2Byte(56);
  }

  lemma Pow2Byte(i: nat)
    ensures Pow2(i + 8) == 0x100 * Pow2(i)
  {
    assert Pow2(i + 4) == 2 * Pow2(i + 3) == 4 * Pow2(i + 2) == 8 * Pow2(i + 1);
    assert Pow2(i + 8) == 2 * Pow2(i + 7) == 4 * Pow2(i + 6) == 8 * Pow2(i + 5);
  }

  lemma WordWidth(x: nat)
    ensures x < TWO64 <==> forall i :: i >= 64 ==> !Bit(x, i)
  {
    Pow2Of64();
    Width(x, 64);
  }

  lemma KeepsWord(x: nat, k: nat)
    requires x < TWO64 && k < 64
    ensures Or(x, Pow2(k)) < TWO64
    ensures AndNot(x, Pow2(k)) < TWO64
  {
    Pow2Of64();
    KeepsWidth(x, k, 64);
  }

  lemma MaxWord(i: nat)
    ensures Bit(TWO64 - 1, i) <==> i < 64
  {
    Pow2Of64();
    AllOnes(64, i);
  }
}
