/** Relaxed radix balanced trees, as the debugger's pretty printer walks them. */
module RrbTree {
  import opened Wrappers
  import opened Arithmetic
  import opened Bits

  /** An inner node may carry a table of accumulated sizes; a node without one is addressed
      by the bits of the index alone. */
  datatype Node<T> = Inner(children: seq<Node<T>>, relaxed: Option<seq<nat>>) | Leaf(elems: seq<T>)

  /** The two branching exponents of the tree: inner nodes and leaves. */
  datatype Shape = Shape(bits: nat, leafBits: nat) {
    ghost predicate Valid() {
      bits > 0
    }

    /** The shift of an inner node `h` levels above the leaves. */
    function Shift(h: nat): (s: nat)
      requires h > 0
      ensures s >= leafBits
    {
      if h == 1 then leafBits else Shift(h - 1) + bits
    }

    /** How many elements fit below a node at level `h`. */
    ghost function Cap(h: nat): (c: nat)
      ensures c > 0
    {
      if h == 0 then Pow2(leafBits) else Pow2(bits) * Cap(h - 1)
    }
  }

  // ----- the sequence a tree stands for

  ghost function Flatten<T>(t: Node<T>): seq<T>
    decreases t, 1
  {
    match t
    case Leaf(elems) => elems
    case Inner(children, _) => FlattenAll(children)
  }

  ghost function FlattenAll<T>(ts: seq<Node<T>>): seq<T>
    decreases ts, 0
  {
    if ts == [] then [] else Flatten(ts[0]) + FlattenAll(ts[1..])
  }

  // ----- well-formed trees

  /** Every slot of every node is used. */
  ghost predicate Full<T>(sh: Shape, t: Node<T>, h: nat)
    decreases h
  {
    if h == 0 then t.Leaf? && |t.elems| == Pow2(sh.leafBits)
    else t.Inner? && |t.children| == Pow2(sh.bits) && forall i :: 0 <= i < |t.children| ==>
      Full(sh, t.children[i], h - 1)
  }

  /** All children are full but the last. Size tables make no difference, as nothing looks at them. */
  ghost predicate IsRegular<T>(sh: Shape, t: Node<T>, h: nat, size: nat)
    decreases h
  {
    0 < size <= sh.Cap(h) &&
    if h == 0 then t.Leaf? && |t.elems| == size
    else
      var last := (size - 1) / sh.Cap(h - 1);
      && t.Inner? && |t.children| == last + 1
      && (forall i :: 0 <= i < last ==> Full(sh, t.children[i], h - 1))
      && IsRegular(sh, t.children[last], h - 1, (size - 1) % sh.Cap(h - 1) + 1)
  }

  ghost function Before(sizes: seq<nat>, i: nat): nat
    requires i <= |sizes|
  {
    if i == 0 then 0 else sizes[i - 1]
  }

  /** The size of child `i` by the accumulated sizes. */
  ghost function SizeOf(sizes: seq<nat>, i: nat): (n: nat)
    requires i < |sizes|
  {
    if Before(sizes, i) <= sizes[i] then sizes[i] - Before(sizes, i) else 0
  }

  /** A subtree of `size` elements that lookup can rely on. `RrbCheck` compares this with the library's check. */
  ghost predicate WellFormed<T>(sh: Shape, t: Node<T>, h: nat, size: nat)
    decreases h
  {
    if h > 0 && t.Inner? && t.relaxed.Some? then
      var sizes := t.relaxed.value;
      && 0 < |sizes| == |t.children| <= Pow2(sh.bits) && sizes[|sizes| - 1] == size
      && (forall i :: 0 <= i < |sizes| ==> 0 < SizeOf(sizes, i) <= sh.Cap(h - 1))
      && (forall i :: 0 <= i < |sizes| ==> WellFormed(sh, t.children[i], h - 1, SizeOf(sizes, i)))
    else IsRegular(sh, t, h, size)
  }

  // ----- lengths

  lemma {:induction false} FlattenAllSplit<T>(ts: seq<Node<T>>, i: nat)
    requires i < |ts|
    ensures FlattenAll(ts) == FlattenAll(ts[..i]) + Flatten(ts[i]) + FlattenAll(ts[i + 1..])
  {
    if i == 0 {
      assert ts[..0] == [];
    } else {
      FlattenAllSplit(ts[1..], i - 1);
      assert ts[..i][1..] == ts[1..][..i - 1];
      assert ts[1..][i - 1 + 1..] == ts[i + 1..];
    }
  }

  lemma {:induction false} FlattenAllSnoc<T>(ts: seq<Node<T>>, i: nat)
    requires i < |ts|
    ensures FlattenAll(ts[..i + 1]) == FlattenAll(ts[..i]) + Flatten(ts[i])
  {
    FlattenAllSplit(ts[..i + 1], i);
    assert ts[..i + 1][..i] == ts[..i];
    assert ts[..i + 1][i + 1..] == [];
  }

  lemma {:induction false} FullLength<T>(sh: Shape, t: Node<T>, h: nat)
    requires Full(sh, t, h)
    ensures |Flatten(t)| == sh.Cap(h)
    decreases h, 1
  {
    if h > 0 {
      FullPrefixLength(sh, t.children, h - 1, Pow2(sh.bits));
      assert t.children[..Pow2(sh.bits)] == t.children;
    }
  }

  lemma {:induction false} FullPrefixLength<T>(sh: Shape, ts: seq<Node<T>>, h: nat, n: nat)
    requires n <= |ts| && forall i :: 0 <= i < n ==> Full(sh, ts[i], h)
    ensures |FlattenAll(ts[..n])| == n * sh.Cap(h)
    decreases h, 2, n
  {
    hide Flatten, Full;
    if n > 0 {
      FullPrefixLength(sh, ts, h, n - 1);
      FullLength(sh, ts[n - 1], h);
      FlattenAllSnoc(ts, n - 1);
      OneMore(n, sh.Cap(h));
    }
  }

  lemma {:induction false} RegularLength<T>(sh: Shape, t: Node<T>, h: nat, size: nat)
    requires IsRegular(sh, t, h, size)
    ensures |Flatten(t)| == size
    decreases h
  {
    if h > 0 {
      var last := (size - 1) / sh.Cap(h - 1);
      DivBasics(size - 1, sh.Cap(h - 1));
      FullPrefixLength(sh, t.children, h - 1, last);
      RegularLength(sh, t.children[last], h - 1, (size - 1) % sh.Cap(h - 1) + 1);
      FlattenAllSnoc(t.children, last);
      assert t.children[..last + 1] == t.children;
    }
  }

  lemma {:induction false} WellFormedLength<T>(sh: Shape, t: Node<T>, h: nat, size: nat)
    requires WellFormed(sh, t, h, size)
    ensures |Flatten(t)| == size
    decreases h, 1
  {
    if h > 0 && t.Inner? && t.relaxed.Some? {
      RelaxedPrefixLength(sh, t, h, |t.children|);
      assert t.children[..|t.children|] == t.children;
    } else {
      RegularLength(sh, t, h, size);
    }
  }

  lemma {:induction false} RelaxedPrefixLength<T>(sh: Shape, t: Node<T>, h: nat, n: nat)
    requires h > 0 && t.Inner? && t.relaxed.Some? && n <= |t.children| == |t.relaxed.value|
    requires forall i :: 0 <= i < n ==> 0 < SizeOf(t.relaxed.value, i)
    requires forall i :: 0 <= i < n ==> WellFormed(sh, t.children[i], h - 1, SizeOf(t.relaxed.value, i))
    ensures |FlattenAll(t.children[..n])| == Before(t.relaxed.value, n)
    decreases h, 0, n
  {
    if n > 0 {
      RelaxedPrefixLength(sh, t, h, n - 1);
      WellFormedLength(sh, t.children[n - 1], h - 1, SizeOf(t.relaxed.value, n - 1));
      FlattenAllSnoc(t.children, n - 1);
    }
  }

  // ----- arithmetic of shifts and masks

  function ShiftRight(x: nat, k: nat): nat {
    DivBasics(x, Pow2(k));
    x / Pow2(k)
  }

  function LowBits(x: nat, k: nat): (r: nat)
    ensures r < Pow2(k) && r <= x
  {
    DivBasics(x, Pow2(k));
    x % Pow2(k)
  }

  lemma {:induction false} Pow2Sum(a: nat, b: nat)
    ensures Pow2(a + b) == Pow2(a) * Pow2(b)
    decreases b
  {
    if b > 0 {
      Pow2Sum(a, b - 1);
    }
  }

  /** A shift divides by the capacity of the level below. */
  lemma {:induction false} ShiftIsCap(sh: Shape, h: nat)
    requires h > 0
    ensures Pow2(sh.Shift(h)) == sh.Cap(h - 1)
    decreases h
  {
    if h > 1 {
      ShiftIsCap(sh, h - 1);
      Pow2Sum(sh.Shift(h - 1), sh.bits);
    }
  }
}
