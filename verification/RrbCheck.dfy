/** The library's own check of a tree, and what it takes besides for a tree to be well formed. */
module RrbCheck {
  import opened Wrappers
  import opened Arithmetic
  import opened Bits
  import opened RrbTree
  import opened RrbLookup

  /** The number of children of a node without a size table. */
  function Count(size: nat, c: nat): nat
    requires c > 0
  {
    DivBasics(size, c);
    size / c + if size % c > 0 then 1 else 0
  }

  /** `node::check` in debug mode. A node without a size table has its first child left out, unless that is
      its last one too. */
  ghost predicate Check<T>(sh: Shape, t: Node<T>, h: nat, size: nat)
    decreases h
  {
    size > 0 &&
    if h == 0 then t.Leaf? && size <= Pow2(sh.leafBits)
    else
      t.Inner? &&
      match t.relaxed
      case Some(sizes) =>
        && 0 < |sizes| <= Pow2(sh.bits) && |sizes| <= |t.children| && sizes[|sizes| - 1] == size
        && (forall i :: 1 <= i < |sizes| ==> Before(sizes, i) < sizes[i])
        && (forall i :: 0 <= i < |sizes| ==> Check(sh, t.children[i], h - 1, SizeOf(sizes, i)))
      case None =>
        var c := Pow2(sh.Shift(h));
        var count := Count(size, c);
        && size <= Pow2(sh.bits) * c && 0 < count <= Pow2(sh.bits) && count <= |t.children|
        && (forall i :: 1 <= i < count - 1 ==> Check(sh, t.children[i], h - 1, c))
        && (count - 1) * c <= size && Check(sh, t.children[count - 1], h - 1, size - (count - 1) * c)
  }

  /** What the check cannot see or leaves out: arrays of the right lengths, and the skipped first children. */
  ghost predicate Sound<T>(sh: Shape, t: Node<T>, h: nat, size: nat)
    decreases h
  {
    if h == 0 then t.Leaf? && |t.elems| == size
    else
      t.Inner? &&
      match t.relaxed
      case Some(sizes) =>
        |t.children| == |sizes| && forall i :: 0 <= i < |sizes| ==> Sound(sh, t.children[i], h - 1, SizeOf(sizes, i))
      case None =>
        var c := Pow2(sh.Shift(h));
        var count := Count(size, c);
        && 0 < |t.children| == count && (count > 1 ==> Check(sh, t.children[0], h - 1, c))
        && (forall i :: 0 <= i < count - 1 ==> Sound(sh, t.children[i], h - 1, c))
        && (count - 1) * c <= size && Sound(sh, t.children[count - 1], h - 1, size - (count - 1) * c)
  }

  ghost predicate Checked<T>(sh: Shape, t: Node<T>, h: nat, size: nat) {
    Check(sh, t, h, size) && Sound(sh, t, h, size)
  }

  // ----- the layout that the bits of a position stand for

  ghost function Last(size: nat, c: nat): nat
    requires size > 0 && c > 0
  {
    (size - 1) / c
  }

  /** The size of child `i`, when children of capacity `c` are filled from the left. */
  ghost function Part(size: nat, c: nat, i: nat): nat
    requires size > 0 && c > 0
  {
    if i < Last(size, c) then c else (size - 1) % c + 1
  }

  /** The size table of such a node. */
  ghost function Layout(size: nat, c: nat): (sizes: seq<nat>)
    requires size > 0 && c > 0
    ensures |sizes| == Last(size, c) + 1
  {
    seq(Last(size, c) + 1, i requires i >= 0 => if i < Last(size, c) then (i + 1) * c else size)
  }

  /** Every size table says what the bits of a position say. */
  ghost predicate Even<T>(sh: Shape, t: Node<T>, h: nat, size: nat)
    decreases h
  {
    h > 0 && t.Inner? && size > 0 ==>
      var c := sh.Cap(h - 1);
      && (t.relaxed.Some? ==> t.relaxed.value == Layout(size, c))
      && (forall i :: 0 <= i <= Last(size, c) && i < |t.children| ==> Even(sh, t.children[i], h - 1, Part(size, c, i)))
  }

  /** That is so below every node without a size table. */
  ghost predicate EvenBelow<T>(sh: Shape, t: Node<T>, h: nat, size: nat)
    decreases h
  {
    if h > 0 && t.Inner? && t.relaxed.Some? then
      var sizes := t.relaxed.value;
      forall i :: 0 <= i < |sizes| && i < |t.children| ==> EvenBelow(sh, t.children[i], h - 1, SizeOf(sizes, i))
    else Even(sh, t, h, size)
  }

  // ----- counting children

  /** Rounding up is rounding down from one less. */
  lemma CountIs(size: nat, c: nat)
    requires c > 0 && size > 0
    ensures Count(size, c) == Last(size, c) + 1 && Last(size, c) * c <= size
    ensures size - Last(size, c) * c == (size - 1) % c + 1
  {
    var q, r := Decompose(size - 1, c);
    DivModUnique(size - 1, c, q, r);
    if r + 1 < c {
      DivModUnique(size, c, q, r + 1);
    } else {
      assert (q + 1) * c == q * c + c;
      DivModUnique(size, c, q + 1, 0);
    }
  }

  /** A size fits below a node exactly when its children are not too many. */
  lemma LastBound(size: nat, m: nat, c: nat)
    requires c > 0 && size > 0
    ensures size <= m * c <==> Last(size, c) < m
  {
    var q, r := Decompose(size - 1, c);
    DivModUnique(size - 1, c, q, r);
    if q >= m {
      MulMonotone(m, q, c);
    } else {
      MulMonotone(q + 1, m, c);
      assert (q + 1) * c == q * c + c;
    }
  }

  lemma PartsOfFull(m: nat, c: nat)
    requires m > 0 && c > 0
    ensures m * c > 0 && Last(m * c, c) == m - 1 && forall i: nat :: Part(m * c, c, i) == c
  {
    MulBound(m, c);
    OneMore(m, c);
    DivModUnique(m * c - 1, c, m - 1, c - 1);
  }

  /** The table of a node filled from the left gives its children their parts. */
  lemma LayoutParts(size: nat, c: nat, i: nat)
    requires size > 0 && c > 0 && i <= Last(size, c)
    ensures SizeOf(Layout(size, c), i) == Part(size, c, i) && Before(Layout(size, c), i) < Layout(size, c)[i]
  {
    CountIs(size, c);
    if i > 0 {
      OneMore(i + 1, c);
    }
  }

  /** And no other table does. */
  lemma {:induction false} OnlyLayout(sizes: seq<nat>, size: nat, c: nat, n: nat)
    requires size > 0 && c > 0 && |sizes| == Last(size, c) + 1 && n <= |sizes|
    requires forall i :: 0 <= i < |sizes| ==> 0 < SizeOf(sizes, i) == Part(size, c, i)
    ensures sizes[..n] == Layout(size, c)[..n]
  {
    if n > 0 {
      OnlyLayout(sizes, size, c, n - 1);
      LayoutParts(size, c, n - 1);
      assert n > 1 ==> sizes[n - 2] == sizes[..n - 1][n - 2] == Layout(size, c)[n - 2];
      assert sizes[n - 1] == Before(sizes, n - 1) + Part(size, c, n - 1);
      assert sizes[..n] == sizes[..n - 1] + [sizes[n - 1]];
    }
  }

  // ----- below a node without a size table

  lemma {:induction false} FullIsRegular<T>(sh: Shape, t: Node<T>, h: nat)
    ensures Full(sh, t, h) <==> IsRegular(sh, t, h, sh.Cap(h))
    decreases h
  {
    if h > 0 && t.Inner? {
      var c, m := sh.Cap(h - 1), Pow2(sh.bits);
      PartsOfFull(m, c);
      assert Part(m * c, c, m - 1) == c;
      forall i | 0 <= i < |t.children|
        ensures Full(sh, t.children[i], h - 1) <==> IsRegular(sh, t.children[i], h - 1, c)
      {
        FullIsRegular(sh, t.children[i], h - 1);
      }
    }
  }

  lemma RegularOpened<T>(sh: Shape, t: Node<T>, h: nat, size: nat, c: nat)
    requires h > 0 && t.Inner? && size > 0 && c == sh.Cap(h - 1)
    ensures IsRegular(sh, t, h, size) <==>
              && size <= sh.Cap(h) && |t.children| == Last(size, c) + 1
              && (forall i :: 0 <= i < |t.children| ==> IsRegular(sh, t.children[i], h - 1, Part(size, c, i)))
  {
    forall i | 0 <= i < |t.children|
      ensures Full(sh, t.children[i], h - 1) <==> IsRegular(sh, t.children[i], h - 1, c)
    {
      FullIsRegular(sh, t.children[i], h - 1);
    }
  }

  /** The node has `n` children, accepted for their parts. */
  ghost predicate PartsChecked<T>(sh: Shape, ts: seq<Node<T>>, h: nat, size: nat, c: nat)
    requires size > 0 && c > 0
  {
    |ts| == Last(size, c) + 1 && forall i :: 0 <= i < |ts| ==> Checked(sh, ts[i], h, Part(size, c, i))
  }

  lemma PlainOpened<T>(sh: Shape, t: Node<T>, h: nat, size: nat, c: nat)
    requires h > 0 && t.Inner? && t.relaxed.None? && size > 0 && c == sh.Cap(h - 1)
    ensures Checked(sh, t, h, size) <==> size <= sh.Cap(h) && PartsChecked(sh, t.children, h - 1, size, c)
  {
    LastBound(size, Pow2(sh.bits), c);
    ShiftIsCap(sh, h);
    CountIs(size, c);
  }

  lemma CheckOfTable<T>(sh: Shape, t: Node<T>, h: nat, size: nat, c: nat, sizes: seq<nat>)
    requires h > 0 && t.Inner? && t.relaxed == Some(sizes) && size > 0 && c > 0
    requires |sizes| == Last(size, c) + 1 && sizes[|sizes| - 1] == size
    requires forall i :: 0 <= i < |sizes| ==> SizeOf(sizes, i) == Part(size, c, i) && Before(sizes, i) < sizes[i]
    ensures Check(sh, t, h, size) <==>
              && |sizes| <= Pow2(sh.bits) && |sizes| <= |t.children|
              && (forall i :: 0 <= i < |sizes| ==> Check(sh, t.children[i], h - 1, Part(size, c, i)))
  {
    hide SizeOf, Part, Before, Last, Pow2;
  }

  lemma SoundOfTable<T>(sh: Shape, t: Node<T>, h: nat, size: nat, c: nat, sizes: seq<nat>)
    requires h > 0 && t.Inner? && t.relaxed == Some(sizes) && size > 0 && c > 0
    requires forall i :: 0 <= i < |sizes| ==> SizeOf(sizes, i) == Part(size, c, i)
    ensures Sound(sh, t, h, size) <==>
              && |sizes| == |t.children|
              && (forall i :: 0 <= i < |sizes| ==> Sound(sh, t.children[i], h - 1, Part(size, c, i)))
  {
    hide SizeOf, Part;
  }

  lemma TableOpened<T>(sh: Shape, t: Node<T>, h: nat, size: nat, c: nat, sizes: seq<nat>)
    requires h > 0 && t.Inner? && t.relaxed == Some(sizes) && size > 0 && c == sh.Cap(h - 1)
    requires |sizes| == Last(size, c) + 1 && sizes[|sizes| - 1] == size
    requires forall i :: 0 <= i < |sizes| ==> SizeOf(sizes, i) == Part(size, c, i) && Before(sizes, i) < sizes[i]
    ensures Checked(sh, t, h, size) <==> size <= sh.Cap(h) && PartsChecked(sh, t.children, h - 1, size, c)
  {
    LastBound(size, Pow2(sh.bits), c);
    CheckOfTable(sh, t, h, size, c, sizes);
    SoundOfTable(sh, t, h, size, c, sizes);
    hide Check, Sound, Part, SizeOf, Last, Pow2;
  }

  lemma CheckedOpened<T>(sh: Shape, t: Node<T>, h: nat, size: nat, c: nat)
    requires h > 0 && t.Inner? && size > 0 && c == sh.Cap(h - 1)
    requires t.relaxed == None || t.relaxed == Some(Layout(size, c))
    ensures Checked(sh, t, h, size) <==> size <= sh.Cap(h) && PartsChecked(sh, t.children, h - 1, size, c)
  {
    hide Checked, PartsChecked;
    if t.relaxed == None {
      PlainOpened(sh, t, h, size, c);
    } else {
      var sizes := Layout(size, c);
      forall i | 0 <= i < |sizes| ensures SizeOf(sizes, i) == Part(size, c, i) && Before(sizes, i) < sizes[i] {
        LayoutParts(size, c, i);
      }
      TableOpened(sh, t, h, size, c, sizes);
    }
  }

  lemma {:induction false} EvenIffChecked<T>(sh: Shape, t: Node<T>, h: nat, size: nat)
    requires Even(sh, t, h, size)
    ensures IsRegular(sh, t, h, size) <==> Checked(sh, t, h, size)
    decreases h
  {
    if h > 0 && t.Inner? && size > 0 {
      var c := sh.Cap(h - 1);
      RegularOpened(sh, t, h, size, c);
      CheckedOpened(sh, t, h, size, c);
      forall i | 0 <= i <= Last(size, c) && i < |t.children|
        ensures IsRegular(sh, t.children[i], h - 1, Part(size, c, i))
           <==> Checked(sh, t.children[i], h - 1, Part(size, c, i))
      {
        EvenIffChecked(sh, t.children[i], h - 1, Part(size, c, i));
      }
    }
  }

  lemma EvenOpened<T>(sh: Shape, t: Node<T>, h: nat, size: nat, c: nat)
    requires h > 0 && t.Inner? && size > 0 && c == sh.Cap(h - 1) && |t.children| == Last(size, c) + 1
    ensures Even(sh, t, h, size) <==>
              && (t.relaxed.Some? ==> t.relaxed.value == Layout(size, c))
              && (forall i :: 0 <= i < |t.children| ==> Even(sh, t.children[i], h - 1, Part(size, c, i)))
  {
    hide Part, Layout;
  }

  lemma RegularInside<T>(sh: Shape, t: Node<T>, h: nat, size: nat, c: nat)
    requires h > 0 && c == sh.Cap(h - 1) && Checked(sh, t, h, size) && IsRegular(sh, t, h, size)
    ensures t.Inner? && size > 0 && |t.children| == Last(size, c) + 1
    ensures t.relaxed.Some? ==> t.relaxed.value == Layout(size, c)
    ensures forall i :: 0 <= i < |t.children| ==>
              && IsRegular(sh, t.children[i], h - 1, Part(size, c, i))
              && Checked(sh, t.children[i], h - 1, Part(size, c, i))
  {
    RegularOpened(sh, t, h, size, c);
    hide Checked, IsRegular, Part, Layout;
    if t.relaxed.Some? {
      TableIsLayout(sh, t, h, size, c, t.relaxed.value);
    }
    CheckedOpened(sh, t, h, size, c);
  }

  /** A regular tree that is accepted has the layout in all its tables. */
  lemma {:induction false} RegularIsEven<T>(sh: Shape, t: Node<T>, h: nat, size: nat)
    requires Checked(sh, t, h, size) && IsRegular(sh, t, h, size)
    ensures Even(sh, t, h, size)
    decreases h
  {
    if h > 0 {
      var c := sh.Cap(h - 1);
      hide Checked, IsRegular, Even, Last, Part, Layout;
      RegularInside(sh, t, h, size, c);
      forall i | 0 <= i < |t.children| ensures Even(sh, t.children[i], h - 1, Part(size, c, i)) {
        RegularIsEven(sh, t.children[i], h - 1, Part(size, c, i));
      }
      EvenOpened(sh, t, h, size, c);
    }
  }

  lemma TableIsLayout<T>(sh: Shape, t: Node<T>, h: nat, size: nat, c: nat, sizes: seq<nat>)
    requires h > 0 && Checked(sh, t, h, size) && t.Inner? && t.relaxed == Some(sizes) && c == sh.Cap(h - 1)
    requires |t.children| == Last(size, c) + 1
    requires forall i :: 0 <= i < |t.children| ==> IsRegular(sh, t.children[i], h - 1, Part(size, c, i))
    ensures sizes == Layout(size, c)
  {
    forall i | 0 <= i < |sizes| ensures 0 < SizeOf(sizes, i) == Part(size, c, i) {
      CheckedLength(sh, t.children[i], h - 1, SizeOf(sizes, i));
      RegularLength(sh, t.children[i], h - 1, Part(size, c, i));
    }
    OnlyLayout(sizes, size, c, |sizes|);
    assert sizes[..|sizes|] == sizes && Layout(size, c)[..|sizes|] == Layout(size, c);
  }

  // ----- lengths of accepted trees

  /** All children are accepted for their sizes. */
  ghost predicate ChildrenChecked<T>(sh: Shape, ts: seq<Node<T>>, h: nat, sizes: seq<nat>) {
    |ts| == |sizes| &&
    forall i :: 0 <= i < |ts| ==> Before(sizes, i) <= sizes[i] && Checked(sh, ts[i], h, SizeOf(sizes, i))
  }

  lemma TableChildren<T>(sh: Shape, t: Node<T>, h: nat, size: nat, sizes: seq<nat>)
    requires h > 0 && Checked(sh, t, h, size) && t.relaxed == Some(sizes)
    ensures t.Inner? && |sizes| > 0 && sizes[|sizes| - 1] == size > 0 && ChildrenChecked(sh, t.children, h - 1, sizes)
  {
    hide SizeOf, Pow2;
  }

  lemma PlainChildren<T>(sh: Shape, t: Node<T>, h: nat, size: nat, c: nat)
    requires h > 0 && Checked(sh, t, h, size) && t.Inner? && t.relaxed.None? && c == sh.Cap(h - 1)
    ensures size > 0 && Layout(size, c)[Last(size, c)] == size
    ensures ChildrenChecked(sh, t.children, h - 1, Layout(size, c))
  {
    assert size > 0;
    CheckedOpened(sh, t, h, size, c);
    hide Checked;
    var sizes := Layout(size, c);
    forall i | 0 <= i < |sizes| ensures Before(sizes, i) <= sizes[i] && SizeOf(sizes, i) == Part(size, c, i) {
      LayoutParts(size, c, i);
    }
  }

  lemma CheckedInside<T>(sh: Shape, t: Node<T>, h: nat, size: nat) returns (sizes: seq<nat>)
    requires h > 0 && Checked(sh, t, h, size)
    ensures t.Inner? && |sizes| > 0 && Before(sizes, |sizes|) == size > 0
    ensures ChildrenChecked(sh, t.children, h - 1, sizes)
  {
    if t.relaxed.Some? {
      sizes := t.relaxed.value;
      TableChildren(sh, t, h, size, sizes);
    } else {
      sizes := Layout(size, sh.Cap(h - 1));
      PlainChildren(sh, t, h, size, sh.Cap(h - 1));
    }
  }

  lemma CheckedLeaf<T>(sh: Shape, t: Node<T>, size: nat)
    requires Checked(sh, t, 0, size)
    ensures |Flatten(t)| == size > 0
  {
  }

  /** What is accepted, its arrays being right, holds as many elements as it was checked for. */
  lemma {:induction false} CheckedLength<T>(sh: Shape, t: Node<T>, h: nat, size: nat)
    requires Checked(sh, t, h, size)
    ensures |Flatten(t)| == size > 0
    decreases h, 1
  {
    hide Checked, ChildrenChecked;
    if h == 0 {
      CheckedLeaf(sh, t, size);
    } else {
      var sizes := CheckedInside(sh, t, h, size);
      CheckedPrefixLength(sh, t.children, h - 1, sizes, |sizes|);
    }
  }

  lemma {:induction false} CheckedPrefixLength<T>(sh: Shape, ts: seq<Node<T>>, h: nat, sizes: seq<nat>, n: nat)
    requires ChildrenChecked(sh, ts, h, sizes) && n <= |sizes|
    ensures |ts| == |sizes| && |FlattenAll(ts[..n])| == Before(sizes, n)
    ensures n == |ts| ==> ts[..n] == ts
    decreases h, 2, n
  {
    hide Flatten, Checked;
    if n > 0 {
      CheckedPrefixLength(sh, ts, h, sizes, n - 1);
      CheckedLength(sh, ts[n - 1], h, SizeOf(sizes, n - 1));
      FlattenAllSnoc(ts, n - 1);
    }
  }

  // ----- trees with size tables on top

  /** What is accepted fits below its node. */
  lemma {:induction false} CheckBound<T>(sh: Shape, t: Node<T>, h: nat, size: nat)
    requires Check(sh, t, h, size)
    ensures size <= sh.Cap(h)
    decreases h
  {
    if h > 0 {
      ShiftIsCap(sh, h);
      match t.relaxed
      case None =>
      case Some(sizes) =>
        forall i | 0 <= i < |sizes| ensures 0 < SizeOf(sizes, i) <= sh.Cap(h - 1) {
          CheckBound(sh, t.children[i], h - 1, SizeOf(sizes, i));
        }
        SizesBound(sizes, sh.Cap(h - 1), |sizes| - 1);
        MulMonotone(|sizes|, Pow2(sh.bits), sh.Cap(h - 1));
    }
  }

  lemma {:induction false} WellFormedBound<T>(sh: Shape, t: Node<T>, h: nat, size: nat)
    requires WellFormed(sh, t, h, size)
    ensures 0 < size <= sh.Cap(h)
  {
    if h > 0 && t.Inner? && t.relaxed.Some? {
      var sizes := t.relaxed.value;
      assert 0 < SizeOf(sizes, |sizes| - 1);
      SizesBound(sizes, sh.Cap(h - 1), |sizes| - 1);
      MulMonotone(|sizes|, Pow2(sh.bits), sh.Cap(h - 1));
    }
  }

  /** A tree that the check accepts, its omissions made up for, is well formed exactly when all size tables below
      nodes without one say what the bits of a position say; and such a tree is accepted if it is well formed. */
  lemma {:induction false} WellFormedIffChecked<T>(sh: Shape, t: Node<T>, h: nat, size: nat)
    ensures Check(sh, t, h, size) && Sound(sh, t, h, size) ==>
              (WellFormed(sh, t, h, size) <==> EvenBelow(sh, t, h, size))
    ensures EvenBelow(sh, t, h, size) ==>
              (WellFormed(sh, t, h, size) <==> Check(sh, t, h, size) && Sound(sh, t, h, size))
    decreases h
  {
    if h > 0 && t.Inner? && t.relaxed.Some? {
      var sizes := t.relaxed.value;
      forall i | 0 <= i < |sizes| && i < |t.children| ensures Agree(sh, t.children[i], h - 1, SizeOf(sizes, i)) {
        WellFormedIffChecked(sh, t.children[i], h - 1, SizeOf(sizes, i));
      }
      RelaxedIffChecked(sh, t, h, size, sizes);
    } else {
      if Even(sh, t, h, size) {
        EvenIffChecked(sh, t, h, size);
      }
      if Checked(sh, t, h, size) && IsRegular(sh, t, h, size) {
        RegularIsEven(sh, t, h, size);
      }
    }
  }

  ghost predicate Agree<T>(sh: Shape, t: Node<T>, h: nat, size: nat) {
    && (Checked(sh, t, h, size) ==> (WellFormed(sh, t, h, size) <==> EvenBelow(sh, t, h, size)))
    && (EvenBelow(sh, t, h, size) ==> (WellFormed(sh, t, h, size) <==> Checked(sh, t, h, size)))
  }

  lemma RelaxedIffChecked<T>(sh: Shape, t: Node<T>, h: nat, size: nat, sizes: seq<nat>)
    requires h > 0 && t.Inner? && t.relaxed == Some(sizes)
    requires forall i :: 0 <= i < |sizes| && i < |t.children| ==> Agree(sh, t.children[i], h - 1, SizeOf(sizes, i))
    ensures Agree(sh, t, h, size)
  {
    if WellFormed(sh, t, h, size) {
      WellFormedBound(sh, t, h, size);
      forall i | 1 <= i < |sizes| ensures Before(sizes, i) < sizes[i] {
        assert 0 < SizeOf(sizes, i);
      }
    }
    if Checked(sh, t, h, size) {
      forall i | 0 <= i < |sizes| ensures 0 < SizeOf(sizes, i) <= sh.Cap(h - 1) {
        CheckBound(sh, t.children[i], h - 1, SizeOf(sizes, i));
      }
    }
  }

  // ----- what the check looks at

  /** In a node without a size table and with several children, every child but the first is checked for its share
      of the size. */
  lemma OthersAreChecked<T>(sh: Shape, t: Node<T>, h: nat, size: nat, c: nat, i: nat)
    requires h > 0 && c == sh.Cap(h - 1) && Check(sh, t, h, size) && t.relaxed.None?
    requires 1 <= i <= (size - 1) / c
    ensures i < |t.children| && Check(sh, t.children[i], h - 1, if i < (size - 1) / c then c else (size - 1) % c + 1)
  {
    ShiftIsCap(sh, h);
    CountIs(size, c);
  }

  /** And the first is not looked at. */
  lemma FirstIsIgnored<T>(sh: Shape, t: Node<T>, t': Node<T>, h: nat, size: nat)
    requires h > 0 && t.Inner? && t'.Inner? && t.relaxed.None? && t'.relaxed.None? && size > sh.Cap(h - 1)
    requires |t'.children| == |t.children| && forall i :: 1 <= i < |t.children| ==> t'.children[i] == t.children[i]
    ensures Check(sh, t, h, size) <==> Check(sh, t', h, size)
  {
    ShiftIsCap(sh, h);
    CountIs(size, sh.Cap(h - 1));
    LastBound(size, 1, sh.Cap(h - 1));
  }

  /** In a node with a size table every child is checked, for the difference of the accumulated sizes. */
  lemma AllAreChecked<T>(sh: Shape, t: Node<T>, h: nat, size: nat, sizes: seq<nat>, i: nat)
    requires h > 0 && Check(sh, t, h, size) && t.relaxed == Some(sizes) && i < |sizes|
    ensures sizes[|sizes| - 1] == size && |sizes| <= |t.children|
    ensures Check(sh, t.children[i], h - 1, if i == 0 then sizes[0] else sizes[i] - sizes[i - 1])
    ensures i > 0 ==> sizes[i - 1] < sizes[i]
  {
    if i > 0 {
      assert Before(sizes, i) < sizes[i];
    }
  }

  // ----- two trees that the check accepts

  /** Binary nodes over leaves of one element; the first of two subtrees lacks an element. */
  function ShortFirstChild(): Node<int> {
    Inner([Inner([Leaf([7])], None), Inner([Leaf([8])], None)], None)
  }

  lemma LeafAccepted<T>(sh: Shape, elems: seq<T>)
    requires 0 < |elems| <= Pow2(sh.leafBits)
    ensures Checked(sh, Leaf(elems), 0, |elems|)
  {
  }

  lemma SecondChildAccepted(b: Node<int>)
    requires b == ShortFirstChild().children[1]
    ensures Check(Shape(1, 0), b, 1, 1)
  {
    var sh := Shape(1, 0);
    assert Pow2(0) == 1 && Pow2(1) == 2 && sh.Shift(1) == 0;
    assert Count(1, 1) == 1;
    LeafAccepted(sh, [8]);
  }

  lemma WithoutTables(t: Node<int>)
    requires t == ShortFirstChild()
    ensures Even(Shape(1, 0), t, 2, 3)
  {
  }

  /** The check takes it for a tree of three elements. */
  lemma ShortFirstChildAccepted()
    ensures Check(Shape(1, 0), ShortFirstChild(), 2, 3) && EvenBelow(Shape(1, 0), ShortFirstChild(), 2, 3)
  {
    var sh, t := Shape(1, 0), ShortFirstChild();
    WithoutTables(t);
    SecondChildAccepted(t.children[1]);
    hide Even;
    assert Pow2(0) == 1 && Pow2(1) == 2 && sh.Shift(1) == 0 && sh.Shift(2) == 1;
    assert Count(3, 2) == 2;
  }

  /** But it has two. */
  lemma ShortFirstChildIsShort()
    ensures |Flatten(ShortFirstChild())| == 2
  {
    var t := ShortFirstChild();
    FlattenOne(t.children[0]);
    FlattenOne(t.children[1]);
    FlattenPair(t);
  }

  lemma FlattenPair(t: Node<int>)
    requires t.Inner? && |t.children| == 2
    ensures Flatten(t) == Flatten(t.children[0]) + Flatten(t.children[1])
  {
    FlattenAllSplit(t.children, 1);
    FlattenAllSplit(t.children[..1], 0);
    assert t.children[..1][..0] == [] && t.children[..1][1..] == [] && t.children[2..] == [];
  }

  lemma FlattenOne(t: Node<int>)
    requires t.Inner? && |t.children| == 1
    ensures Flatten(t) == Flatten(t.children[0])
  {
    assert FlattenAll(t.children) == Flatten(t.children[0]) + FlattenAll(t.children[1..]);
    assert t.children[1..] == [] && Flatten(t.children[0]) + [] == Flatten(t.children[0]);
  }

  /** Leaves of up to two elements below a size table, below a node without one. */
  function TableBelow(): Node<int> {
    Inner([Inner([Leaf([7]), Leaf([8, 9])], Some([1, 3]))], None)
  }

  lemma TableAccepted(t: Node<int>)
    requires t == TableBelow().children[0]
    ensures Checked(Shape(1, 1), t, 1, 3)
  {
    var sh := Shape(1, 1);
    assert Pow2(0) == 1 && Pow2(1) == 2;
    LeafAccepted(sh, [7]);
    LeafAccepted(sh, [8, 9]);
    assert SizeOf([1, 3], 0) == 1 && SizeOf([1, 3], 1) == 2;
  }

  lemma RootAccepted(t: Node<int>, a: Node<int>)
    requires t == Inner([a], None) && Checked(Shape(1, 1), a, 1, 3)
    ensures Checked(Shape(1, 1), t, 2, 3)
  {
    var sh := Shape(1, 1);
    assert Pow2(0) == 1 && Pow2(1) == 2 && Pow2(2) == 4 && sh.Shift(1) == 1 && sh.Shift(2) == 2;
    assert Count(3, 4) == 1;
  }

  /** The check accepts it, all its arrays have the right lengths, and it has its three elements. */
  lemma TableBelowAccepted()
    ensures var sh, t := Shape(1, 1), TableBelow();
            Check(sh, t, 2, 3) && Sound(sh, t, 2, 3) && Flatten(t) == [7, 8, 9]
  {
    var t := TableBelow();
    var a := t.children[0];
    TableAccepted(a);
    RootAccepted(t, a);
    FlattenPair(a);
    assert Flatten(a) == [7] + [8, 9];
    FlattenOne(t);
  }

  /** But below a node without a size table the slot of position 1 is read off its bits, which select the first
      leaf, and the second element of it. */
  lemma TableBelowMisread()
    ensures var sh, t := Shape(1, 1), TableBelow();
            && !WellFormed(sh, t, 2, 3)
            && var slot := LowBits(ShiftRight(1, sh.Shift(1)), sh.bits);
            slot == 0 && LowBits(1, sh.leafBits) == 1 >= |t.children[0].children[slot].elems|
  {
    var sh := Shape(1, 1);
    assert Pow2(0) == 1 && Pow2(1) == 2 && Pow2(2) == 4 && sh.Shift(1) == 1 && sh.Shift(2) == 2;
    assert !IsRegular(sh, TableBelow().children[0], 1, 3);
  }
}
