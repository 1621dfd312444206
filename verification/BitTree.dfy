/** The 16-ary tree of bitmaps (`BitAlloc16`, `BitMap<T>` nested to any depth) of
    `utils/bitmap.rs`, shown to be a flat set of indices. */
module BitTree {
  import opened Bits

  /** A tree is a value, as the nested fixed-size arrays of the source are. */
  datatype Tree = Leaf(bits: nat) | Node(kids: seq<Tree>)

  /** `CAP`: sixteen bits in a leaf, sixteen subtrees in a node. */
  function Cap(depth: nat): (c: nat)
    ensures c >= 16
  {
    if depth == 0 then 16 else 16 * Cap(depth - 1)
  }

  predicate Shaped(t: Tree, depth: nat) {
    if depth == 0 then t.Leaf? && t.bits < Pow2(16)
    else t.Node? && |t.kids| == 16 && forall k :: 0 <= k < 16 ==> Shaped(t.kids[k], depth - 1)
  }

  function Default(depth: nat): (t: Tree)
    ensures Shaped(t, depth)
  {
    if depth == 0 then Leaf(0) else Node(seq(16, _ => Default(depth - 1)))
  }

  /** The child an index falls in is one of the sixteen. */
  lemma ChildInRange(idx: nat, cap: nat)
    requires cap > 0 && idx < 16 * cap
    ensures 0 <= idx / cap < 16
  {}

  /** Child and remainder together identify the index. */
  lemma SplitIsInjective(i: nat, j: nat, cap: nat)
    requires cap > 0 && i / cap == j / cap && i % cap == j % cap
    ensures i == j
  {}

  function Set(t: Tree, depth: nat, idx: nat): (r: Tree)
    requires Shaped(t, depth) && idx < Cap(depth)
    ensures Shaped(r, depth)
    decreases depth
  {
    if depth == 0 then
      KeepsWidth(t.bits, idx, 16);
      Leaf(Or(t.bits, Pow2(idx)))
    else
      var cap := Cap(depth - 1);
      ChildInRange(idx, cap);
      Node(t.kids[idx / cap := Set(t.kids[idx / cap], depth - 1, idx % cap)])
  }

  function Clear(t: Tree, depth: nat, idx: nat): (r: Tree)
    requires Shaped(t, depth) && idx < Cap(depth)
    ensures Shaped(r, depth)
    decreases depth
  {
    if depth == 0 then
      KeepsWidth(t.bits, idx, 16);
      Leaf(AndNot(t.bits, Pow2(idx)))
    else
      var cap := Cap(depth - 1);
      ChildInRange(idx, cap);
      Node(t.kids[idx / cap := Clear(t.kids[idx / cap], depth - 1, idx % cap)])
  }

  function Get(t: Tree, depth: nat, idx: nat): nat
    requires Shaped(t, depth) && idx < Cap(depth)
    decreases depth
  {
    if depth == 0 then
      if Bit(t.bits, idx) then 1 else 0
    else
      var cap := Cap(depth - 1);
      ChildInRange(idx, cap);
      Get(t.kids[idx / cap], depth - 1, idx % cap)
  }

  /** The set of indices a tree stands for. */
  ghost function Members(t: Tree, depth: nat): set<nat>
    requires Shaped(t, depth)
  {
    set i: nat | i < Cap(depth) && Get(t, depth, i) == 1
  }

  lemma {:induction false} GetAfterSet(t: Tree, depth: nat, i: nat, j: nat)
    requires Shaped(t, depth) && i < Cap(depth) && j < Cap(depth)
    ensures Get(Set(t, depth, i), depth, j) == if i == j then 1 else Get(t, depth, j)
  {
    if depth == 0 {
      SetBit(t.bits, i, j);
    } else {
      var cap := Cap(depth - 1);
      ChildInRange(i, cap);
      ChildInRange(j, cap);
      if i / cap == j / cap {
        GetAfterSet(t.kids[i / cap], depth - 1, i % cap, j % cap);
        if i % cap == j % cap { SplitIsInjective(i, j, cap); }
      }
    }
  }

  lemma {:induction false} GetAfterClear(t: Tree, depth: nat, i: nat, j: nat)
    requires Shaped(t, depth) && i < Cap(depth) && j < Cap(depth)
    ensures Get(Clear(t, depth, i), depth, j) == if i == j then 0 else Get(t, depth, j)
  {
    if depth == 0 {
      ClearBit(t.bits, i, j);
    } else {
      var cap := Cap(depth - 1);
      ChildInRange(i, cap);
      ChildInRange(j, cap);
      if i / cap == j / cap {
        GetAfterClear(t.kids[i / cap], depth - 1, i % cap, j % cap);
        if i % cap == j % cap { SplitIsInjective(i, j, cap); }
      }
    }
  }

  lemma {:induction false} GetOfDefault(depth: nat, i: nat)
    requires i < Cap(depth)
    ensures Get(Default(depth), depth, i) == 0
  {
    if depth == 0 {
      BitOfZero(i);
    } else {
      var cap := Cap(depth - 1);
      ChildInRange(i, cap);
      GetOfDefault(depth - 1, i % cap);
    }
  }

  /** Set, clear and the fresh tree are insert, remove and the empty set, at every depth. */
  lemma TreeIsASet(t: Tree, depth: nat, i: nat)
    requires Shaped(t, depth) && i < Cap(depth)
    ensures Members(Set(t, depth, i), depth) == Members(t, depth) + {i}
    ensures Members(Clear(t, depth, i), depth) == Members(t, depth) - {i}
    ensures Members(Default(depth), depth) == {}
  {
    forall j: nat | j < Cap(depth)
      ensures Get(Set(t, depth, i), depth, j) == if i == j then 1 else Get(t, depth, j)
      ensures Get(Clear(t, depth, i), depth, j) == if i == j then 0 else Get(t, depth, j)
      ensures Get(Default(depth), depth, j) == 0
    {
      GetAfterSet(t, depth, i, j);
      GetAfterClear(t, depth, i, j);
      GetOfDefault(depth, j);
    }
  }

  /** The representation is canonical: trees that stand for the same set are equal. */
  lemma {:induction false} SameMembersSameTree(t: Tree, u: Tree, depth: nat)
    requires Shaped(t, depth) && Shaped(u, depth)
    requires forall i: nat :: i < Cap(depth) ==> Get(t, depth, i) == Get(u, depth, i)
    ensures t == u
    decreases depth
  {
    if depth == 0 {
      forall i: nat ensures Bit(t.bits, i) <==> Bit(u.bits, i) {
        if i < 16 {
          assert Get(t, depth, i) == Get(u, depth, i);
        } else {
          Width(t.bits, 16);
          Width(u.bits, 16);
        }
      }
      SameBits(t.bits, u.bits);
    } else {
      var d, cap := depth - 1, Cap(depth - 1);
      forall k | 0 <= k < 16 ensures t.kids[k] == u.kids[k] {
        forall j: nat | j < cap ensures Get(t.kids[k], d, j) == Get(u.kids[k], d, j) {
          Rejoin(k, j, cap);
          assert Get(t, depth, k * cap + j) == Get(u, depth, k * cap + j);
        }
        SameMembersSameTree(t.kids[k], u.kids[k], d);
      }
    }
  }

  lemma Rejoin(k: nat, j: nat, cap: nat)
    requires k < 16 && j < cap
    ensures k * cap + j < 16 * cap && (k * cap + j) / cap == k && (k * cap + j) % cap == j
  {
    var i := k * cap + j;
    var q, r := i / cap, i % cap;
    assert cap * q + r == cap * k + j;
    assert cap * (q - k) == j - r;
    OnlyZeroFits(cap, q - k, j - r);
    assert (15 - k) * cap >= 0;
  }

  /** A multiple of `cap` strictly between `-cap` and `cap` is zero. */
  lemma OnlyZeroFits(cap: int, m: int, d: int)
    requires cap > 0 && cap * m == d && -cap < d < cap
    ensures m == 0
  {}

  /** The unit test that clears bit 11 and then expects bit 121 to be clear is wrong about the
      code: bit 121 stays set. */
  lemma ClearingElevenKeeps121()
    ensures Cap(1) == 256
    ensures Get(Clear(Set(Default(1), 1, 121), 1, 11), 1, 121) == 1
  {
    assert Cap(1) == 16 * Cap(0);
    GetAfterSet(Default(1), 1, 121, 121);
    GetAfterClear(Set(Default(1), 1, 121), 1, 11, 121);
  }

  class BitMap {
    const depth: nat
    var root: Tree

    ghost predicate Valid() reads this { Shaped(root, depth) }

    constructor (d: nat)
      ensures Valid() && depth == d && Members(root, depth) == {}
    {
      depth := d;
      root := Default(d);
      new;
      TreeIsASet(root, depth, 0);
    }

    method SetIndex(idx: nat)
      requires Valid() && idx < Cap(depth)
      modifies this
      ensures Valid() && Members(root, depth) == old(Members(root, depth)) + {idx}
    {
      TreeIsASet(root, depth, idx);
      root := Set(root, depth, idx);
    }

    method ClearIndex(idx: nat)
      requires Valid() && idx < Cap(depth)
      modifies this
      ensures Valid() && Members(root, depth) == old(Members(root, depth)) - {idx}
    {
      TreeIsASet(root, depth, idx);
      root := Clear(root, depth, idx);
    }

    method GetIndex(idx: nat) returns (r: nat)
      requires Valid() && idx < Cap(depth)
      ensures r == if idx in Members(root, depth) then 1 else 0
    {
      r := Get(root, depth, idx);
      GetIsBit(root, depth, idx);
    }
  }

  lemma {:induction false} GetIsBit(t: Tree, depth: nat, i: nat)
    requires Shaped(t, depth) && i < Cap(depth)
    ensures Get(t, depth, i) == 0 || Get(t, depth, i) == 1
  {
    if depth > 0 {
      ChildInRange(i, Cap(depth - 1));
      GetIsBit(t.kids[i / Cap(depth - 1)], depth - 1, i % Cap(depth - 1));
    }
  }
}
