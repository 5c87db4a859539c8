/** Positional lookup by radix and size tables, and the iterator that caches a leaf. */
module RrbLookup {
  import opened Wrappers
  import opened Arithmetic
  import opened Bits
  import opened RrbTree

  /** A leaf, the position in it, and how many of its elements are in use. */
  datatype Region<T> = Region(leaf: seq<T>, index: nat, count: nat)

  // ----- the visitors

  lemma ShiftAtBottom(sh: Shape, h: nat)
    requires sh.Valid() && h > 0
    ensures sh.Shift(h) == sh.leafBits <==> h == 1
    ensures h > 1 ==> sh.Shift(h - 1) == sh.Shift(h) - sh.bits
  {
  }

  /** Below a full node the bits of the whole index select the slots. */
  function FullTowards<T>(sh: Shape, node: Node<T>, shift: nat, idx: nat, ghost h: nat): Region<T>
    requires sh.Valid() && h > 0 && shift == sh.Shift(h) && Full(sh, node, h)
    decreases h
  {
    ShiftAtBottom(sh, h);
    var child := node.children[LowBits(ShiftRight(idx, shift), sh.bits)];
    if shift == sh.leafBits then Region(child.elems, LowBits(idx, sh.leafBits), Pow2(sh.leafBits))
    else FullTowards(sh, child, shift - sh.bits, idx, h - 1)
  }

  /** The size of a regular node, by the low bits of a size that may count its left neighbours too. */
  ghost function LocalSize(sh: Shape, h: nat, size: nat): nat
    requires size > 0
  {
    (size - 1) % sh.Cap(h) + 1
  }

  /** The node holds position `idx` of a range of `size` elements that ends with it. */
  ghost predicate Reaches<T>(sh: Shape, node: Node<T>, h: nat, size: nat, idx: nat) {
    size > 0 && IsRegular(sh, node, h, LocalSize(sh, h, size)) && idx % sh.Cap(h) < LocalSize(sh, h, size)
  }

  lemma RegularSlots<T>(sh: Shape, node: Node<T>, h: nat, size: nat, idx: nat)
    requires sh.Valid() && h > 0 && Reaches(sh, node, h, size, idx)
    ensures node.Inner? && |node.children| > 0
    ensures var last, slot := |node.children| - 1, LowBits(ShiftRight(idx, sh.Shift(h)), sh.bits);
            LowBits(ShiftRight(size - 1, sh.Shift(h)), sh.bits) == last && slot <= last &&
            (slot == last ==> Reaches(sh, node.children[last], h - 1, size, idx))
  {
    var c, cap := sh.Cap(h - 1), sh.Cap(h);
    ShiftIsCap(sh, h);
    SlotAndRest(size - 1, Pow2(sh.bits), c, cap);
    SlotAndRest(idx, Pow2(sh.bits), c, cap);
    Monotone(idx % cap, (size - 1) % cap, c);
  }

  lemma Monotone(a: nat, b: nat, c: nat)
    requires c > 0 && a <= b
    ensures a / c <= b / c && (a / c == b / c ==> a % c <= b % c)
  {
    var q, r := Decompose(a, c);
    var q', r' := Decompose(b, c);
    DivModUnique(a, c, q, r);
    DivModUnique(b, c, q', r');
    if q > q' {
      assert (q - q') * c == q * c - q' * c;
      MulBound(q - q', c);
    }
  }

  /** `towards_regular`: every slot but the last is full. */
  function TowardsRegular<T>(
    sh: Shape, node: Node<T>, shift: nat, size: nat, idx: nat, offset: nat, count: nat, ghost h: nat): Region<T>
    requires sh.Valid() && h > 0 && shift == sh.Shift(h) && Reaches(sh, node, h, size, idx)
    requires offset == LowBits(ShiftRight(idx, shift), sh.bits) && node.Inner? && count == |node.children|
    decreases h, 0
  {
    ShiftAtBottom(sh, h);
    RegularSlots(sh, node, h, size, idx);
    var child := node.children[offset];
    if offset + 1 != count then
      if shift == sh.leafBits then Region(child.elems, LowBits(idx, sh.leafBits), Pow2(sh.leafBits))
      else FullTowards(sh, child, shift - sh.bits, idx, h - 1)
    else if shift == sh.leafBits then Region(child.elems, LowBits(idx, sh.leafBits), LowBits(size - 1, sh.leafBits) + 1)
    else RegularTowards(sh, child, shift - sh.bits, size, idx, h - 1)
  }

  /** A regular node reached through regular ones: index and size both still count from the
      left edge of an ancestor, so both are masked. */
  function RegularTowards<T>(sh: Shape, node: Node<T>, shift: nat, size: nat, idx: nat, ghost h: nat): Region<T>
    requires sh.Valid() && h > 0 && shift == sh.Shift(h) && Reaches(sh, node, h, size, idx)
    decreases h, 1
  {
    RegularSlots(sh, node, h, size, idx);
    TowardsRegular(sh, node, shift, size, idx, LowBits(ShiftRight(idx, shift), sh.bits),
        LowBits(ShiftRight(size - 1, shift), sh.bits) + 1, h)
  }

  lemma SubReaches<T>(sh: Shape, node: Node<T>, h: nat, size: nat, idx: nat)
    requires sh.Valid() && h > 0 && IsRegular(sh, node, h, size) && idx < size
    ensures Reaches(sh, node, h, size, idx) && LocalSize(sh, h, size) == size && idx % sh.Cap(h) == idx
    ensures |node.children| == ShiftRight(size - 1, sh.Shift(h)) + 1
  {
    ShiftIsCap(sh, h);
    DivModUnique(size - 1, sh.Cap(h), 0, size - 1);
    DivModUnique(idx, sh.Cap(h), 0, idx);
  }

  /** A regular subtree with its own size: the count needs no mask. */
  function RegularSubTowards<T>(sh: Shape, node: Node<T>, shift: nat, size: nat, idx: nat, ghost h: nat): Region<T>
    requires sh.Valid() && h > 0 && shift == sh.Shift(h) && IsRegular(sh, node, h, size) && idx < size
  {
    SubReaches(sh, node, h, size, idx);
    TowardsRegular(sh, node, shift, size, idx, LowBits(ShiftRight(idx, shift), sh.bits),
        ShiftRight(size - 1, shift) + 1, h)
  }

  /** The scan of a size table from a given slot. */
  function Scan(sizes: seq<nat>, offset: nat, idx: nat): nat
    decreases |sizes| - offset
  {
    if offset < |sizes| && sizes[offset] <= idx then Scan(sizes, offset + 1, idx) else offset
  }

  /** The printer's loop has no bound of its own: it ends because the index is below the last size. */
  method ScanSizes(sizes: seq<nat>, shift: nat, idx: nat) returns (offset: nat)
    requires 0 < |sizes| && idx < sizes[|sizes| - 1] && ShiftRight(idx, shift) < |sizes|
    ensures offset < |sizes| && offset == Scan(sizes, ShiftRight(idx, shift), idx)
  {
    offset := ShiftRight(idx, shift);
    while sizes[offset] <= idx
      invariant offset < |sizes| && Scan(sizes, offset, idx) == Scan(sizes, ShiftRight(idx, shift), idx)
      decreases |sizes| - offset
    {
      offset := offset + 1;
    }
  }

  /** Accumulated sizes increase, by at most the capacity of a child. */
  ghost predicate SizeTable(sizes: seq<nat>, cap: nat) {
    |sizes| > 0 && forall i :: 0 <= i < |sizes| ==> 0 < SizeOf(sizes, i) <= cap
  }

  lemma {:induction false} SizesGrow(sizes: seq<nat>, cap: nat, i: nat, j: nat)
    requires SizeTable(sizes, cap) && i <= j < |sizes|
    ensures sizes[i] <= sizes[j]
    decreases j
  {
    if i < j {
      SizesGrow(sizes, cap, i, j - 1);
      assert 0 < SizeOf(sizes, j);
    }
  }

  lemma {:induction false} SizesBound(sizes: seq<nat>, cap: nat, j: nat)
    requires SizeTable(sizes, cap) && j < |sizes|
    ensures sizes[j] <= (j + 1) * cap
    decreases j
  {
    assert SizeOf(sizes, j) <= cap;
    if j > 0 {
      SizesBound(sizes, cap, j - 1);
      assert (j + 1) * cap == j * cap + cap;
    }
  }

  lemma {:induction false} ScanStops(sizes: seq<nat>, cap: nat, offset: nat, idx: nat, right: nat)
    requires SizeTable(sizes, cap) && offset <= right < |sizes|
    requires Before(sizes, right) <= idx < sizes[right]
    ensures Scan(sizes, offset, idx) == right
    decreases right - offset
  {
    if offset < right {
      SizesGrow(sizes, cap, offset, right - 1);
      ScanStops(sizes, cap, offset + 1, idx, right);
    }
  }

  lemma {:induction false} RightChildExists(sizes: seq<nat>, cap: nat, idx: nat, n: nat) returns (right: nat)
    requires SizeTable(sizes, cap) && n < |sizes| && idx < sizes[n]
    ensures right <= n && Before(sizes, right) <= idx < sizes[right]
    decreases n
  {
    if n == 0 || sizes[n - 1] <= idx {
      right := n;
    } else {
      right := RightChildExists(sizes, cap, idx, n - 1);
    }
  }

  /** The radix guess never passes the child that holds the index, so the scan finds it. */
  lemma GuessIsLow(sizes: seq<nat>, cap: nat, idx: nat) returns (right: nat)
    requires cap > 0 && SizeTable(sizes, cap) && idx < sizes[|sizes| - 1]
    ensures right < |sizes| && Before(sizes, right) <= idx < sizes[right]
    ensures idx / cap <= right && Scan(sizes, idx / cap, idx) == right
  {
    right := RightChildExists(sizes, cap, idx, |sizes| - 1);
    SizesBound(sizes, cap, right);
    var q, r := Decompose(idx, cap);
    DivModUnique(idx, cap, q, r);
    if q > right {
      MulMonotone(right + 1, q, cap);
    }
    ScanStops(sizes, cap, idx / cap, idx, right);
  }

  lemma RelaxedSlot<T>(sh: Shape, node: Node<T>, h: nat, size: nat, idx: nat)
    requires sh.Valid() && h > 0 && WellFormed(sh, node, h, size) && node.Inner? && node.relaxed.Some? && idx < size
    ensures var sizes := node.relaxed.value;
            var offset := Scan(sizes, ShiftRight(idx, sh.Shift(h)), idx);
            offset < |sizes| == |node.children| && Before(sizes, offset) <= idx < sizes[offset] &&
            WellFormed(sh, node.children[offset], h - 1, sizes[offset] - Before(sizes, offset))
  {
    ShiftIsCap(sh, h);
    var right := GuessIsLow(node.relaxed.value, sh.Cap(h - 1), idx);
  }

  /** `visit_maybe_relaxed_sub`. */
  function Visit<T>(sh: Shape, node: Node<T>, shift: nat, size: nat, idx: nat, ghost h: nat): Region<T>
    requires sh.Valid() && h > 0 && shift == sh.Shift(h) && WellFormed(sh, node, h, size) && idx < size
    decreases h
  {
    ShiftAtBottom(sh, h);
    if node.relaxed.Some? then
      var sizes := node.relaxed.value;
      RelaxedSlot(sh, node, h, size, idx);
      var offset := Scan(sizes, ShiftRight(idx, shift), idx);
      var left := if offset > 0 then sizes[offset - 1] else 0;
      var child := node.children[offset];
      if shift == sh.leafBits then Region(child.elems, LowBits(idx - left, sh.leafBits), sizes[offset] - left)
      else Visit(sh, child, shift - sh.bits, sizes[offset] - left, idx - left, h - 1)
    else RegularSubTowards(sh, node, shift, size, idx, h)
  }

  // ----- lookup finds the element

  /** The region is a whole leaf, and the leaf is the stretch of `s` around position `j`. */
  ghost predicate Covers<T>(s: seq<T>, j: nat, g: Region<T>) {
    && g.index < g.count == |g.leaf|
    && g.index <= j && j - g.index + g.count <= |s|
    && forall k :: 0 <= k < g.count ==> s[j - g.index + k] == g.leaf[k]
  }

  lemma ChildCovers<T>(node: Node<T>, o: nat, j: nat, start: nat, g: Region<T>)
    requires node.Inner? && o < |node.children| && start == |FlattenAll(node.children[..o])| <= j
    requires Covers(Flatten(node.children[o]), j - start, g)
    ensures Covers(Flatten(node), j, g)
  {
    var ts := node.children;
    FlattenAllSplit(ts, o);
    var a, b, c := FlattenAll(ts[..o]), Flatten(ts[o]), FlattenAll(ts[o + 1..]);
    forall k | 0 <= k < g.count ensures FlattenAll(ts)[j - g.index + k] == g.leaf[k] {
      assert b[j - start - g.index + k] == g.leaf[k];
    }
  }

  lemma LeafCovers<T>(elems: seq<T>, j: nat, g: Region<T>)
    requires j < |elems| && g == Region(elems, j, |elems|)
    ensures Covers(elems, j, g)
  {
  }

  /** Slot and rest of a position, for a child that starts at a multiple of the child capacity. */
  lemma SlotStart(sh: Shape, h: nat, idx: nat)
    requires sh.Valid() && h > 0
    ensures var slot := LowBits(ShiftRight(idx, sh.Shift(h)), sh.bits);
            idx % sh.Cap(h) == slot * sh.Cap(h - 1) + idx % sh.Cap(h - 1)
  {
    ShiftIsCap(sh, h);
    SlotAndRest(idx, Pow2(sh.bits), sh.Cap(h - 1), sh.Cap(h));
    var q, r := Decompose(idx % sh.Cap(h), sh.Cap(h - 1));
    DivModUnique(idx % sh.Cap(h), sh.Cap(h - 1), q, r);
  }

  /** The position within the child that the index bits select. */
  lemma ChildStart<T>(sh: Shape, ts: seq<Node<T>>, h: nat, idx: nat, slot: nat) returns (start: nat)
    requires sh.Valid() && h > 0 && slot == LowBits(ShiftRight(idx, sh.Shift(h)), sh.bits) < |ts|
    requires forall i :: 0 <= i < slot ==> Full(sh, ts[i], h - 1)
    ensures start == |FlattenAll(ts[..slot])| && idx % sh.Cap(h) == start + idx % sh.Cap(h - 1)
  {
    SlotStart(sh, h, idx);
    FullPrefixLength(sh, ts, h - 1, slot);
    start := |FlattenAll(ts[..slot])|;
  }

  /** The child of a full node that the bits of the index select; the leaf is reached at the bottom. */
  lemma FullChild<T>(sh: Shape, node: Node<T>, idx: nat, h: nat, g: Region<T>, pos: nat)
    returns (slot: nat, start: nat, rest: nat)
    requires sh.Valid() && h > 0 && Full(sh, node, h) && g == FullTowards(sh, node, sh.Shift(h), idx, h)
    requires pos == idx % sh.Cap(h)
    ensures slot < |node.children| && start == |FlattenAll(node.children[..slot])|
    ensures rest == idx % sh.Cap(h - 1) && pos == start + rest
    ensures Full(sh, node.children[slot], h - 1)
    ensures h == 1 ==> Covers(Flatten(node.children[slot]), rest, g)
    ensures h > 1 ==> g == FullTowards(sh, node.children[slot], sh.Shift(h - 1), idx, h - 1)
  {
    slot := LowBits(ShiftRight(idx, sh.Shift(h)), sh.bits);
    start := ChildStart(sh, node.children, h, idx, slot);
    rest := idx % sh.Cap(h - 1);
    ShiftAtBottom(sh, h);
    if h == 1 {
      LeafCovers(node.children[slot].elems, rest, g);
    }
  }

  lemma {:induction false} FullFinds<T>(sh: Shape, node: Node<T>, idx: nat, h: nat, g: Region<T>, pos: nat)
    requires sh.Valid() && h > 0 && Full(sh, node, h) && g == FullTowards(sh, node, sh.Shift(h), idx, h)
    requires pos == idx % sh.Cap(h)
    ensures Covers(Flatten(node), pos, g)
    decreases h
  {
    var slot, start, rest := FullChild(sh, node, idx, h, g, pos);
    assert node.Inner?;
    hide Covers, FullTowards, Full, Flatten, FlattenAll;
    if h > 1 {
      FullFinds(sh, node.children[slot], idx, h - 1, g, rest);
    }
    ChildCovers(node, slot, pos, start, g);
  }

  /** The same in a regular node: the child is full, or the last one. */
  lemma RegularChild<T>(sh: Shape, node: Node<T>, size: nat, idx: nat, h: nat, g: Region<T>, pos: nat)
    returns (slot: nat, start: nat, rest: nat)
    requires sh.Valid() && h > 0 && Reaches(sh, node, h, size, idx) && pos == idx % sh.Cap(h)
    requires g == RegularTowards(sh, node, sh.Shift(h), size, idx, h)
    ensures node.Inner? && slot < |node.children| && start == |FlattenAll(node.children[..slot])|
    ensures rest == idx % sh.Cap(h - 1) && pos == start + rest
    ensures h == 1 ==> Covers(Flatten(node.children[slot]), rest, g)
    ensures h > 1 && slot + 1 < |node.children| ==>
              Full(sh, node.children[slot], h - 1) &&
                g == FullTowards(sh, node.children[slot], sh.Shift(h - 1), idx, h - 1)
    ensures h > 1 && slot + 1 == |node.children| ==>
              Reaches(sh, node.children[slot], h - 1, size, idx) &&
              g == RegularTowards(sh, node.children[slot], sh.Shift(h - 1), size, idx, h - 1)
  {
    slot := LowBits(ShiftRight(idx, sh.Shift(h)), sh.bits);
    RegularSlots(sh, node, h, size, idx);
    start := ChildStart(sh, node.children, h, idx, slot);
    rest := idx % sh.Cap(h - 1);
    ShiftAtBottom(sh, h);
    if h == 1 {
      LeafCovers(node.children[slot].elems, rest, g);
    }
  }

  lemma {:induction false} RegularFinds<T>(
    sh: Shape, node: Node<T>, size: nat, idx: nat, h: nat, g: Region<T>, pos: nat)
    requires sh.Valid() && h > 0 && Reaches(sh, node, h, size, idx) && pos == idx % sh.Cap(h)
    requires g == RegularTowards(sh, node, sh.Shift(h), size, idx, h)
    ensures Covers(Flatten(node), pos, g)
    decreases h
  {
    hide Covers, RegularTowards, FullTowards, Full, Reaches, Flatten, FlattenAll;
    var slot, start, rest := RegularChild(sh, node, size, idx, h, g, pos);
    if h > 1 && slot + 1 != |node.children| {
      FullFinds(sh, node.children[slot], idx, h - 1, g, rest);
    } else if h > 1 {
      RegularFinds(sh, node.children[slot], size, idx, h - 1, g, rest);
    }
    ChildCovers(node, slot, pos, start, g);
  }

  /** The child that the size-table scan selects, and what is left to find in it. */
  lemma RelaxedChild<T>(sh: Shape, node: Node<T>, size: nat, idx: nat, h: nat, g: Region<T>)
    returns (o: nat, start: nat, end: nat)
    requires sh.Valid() && h > 0 && WellFormed(sh, node, h, size) && node.Inner? && node.relaxed.Some? && idx < size
    requires g == Visit(sh, node, sh.Shift(h), size, idx, h)
    ensures o < |node.children| && start == |FlattenAll(node.children[..o])| && start <= idx < end
    ensures WellFormed(sh, node.children[o], h - 1, end - start)
    ensures h == 1 ==> g == Region(node.children[o].elems, LowBits(idx - start, sh.leafBits), end - start)
    ensures h > 1 ==> g == Visit(sh, node.children[o], sh.Shift(h - 1), end - start, idx - start, h - 1)
  {
    var sizes := node.relaxed.value;
    RelaxedSlot(sh, node, h, size, idx);
    o := Scan(sizes, ShiftRight(idx, sh.Shift(h)), idx);
    start, end := Before(sizes, o), sizes[o];
    RelaxedPrefixLength(sh, node, h, o);
    ShiftAtBottom(sh, h);
  }

  /** A leaf holds what the masked position asks for. */
  lemma LeafFound<T>(sh: Shape, leaf: Node<T>, idx: nat, size: nat, g: Region<T>)
    requires WellFormed(sh, leaf, 0, size) && idx < size && g == Region(leaf.elems, LowBits(idx, sh.leafBits), size)
    ensures Covers(Flatten(leaf), idx, g)
  {
    DivModUnique(idx, Pow2(sh.leafBits), 0, idx);
  }

  /** Radix guess, size tables and masks together find the leaf that holds position `idx`. */
  lemma {:induction false} VisitFinds<T>(sh: Shape, node: Node<T>, size: nat, idx: nat, h: nat, g: Region<T>)
    requires sh.Valid() && h > 0 && WellFormed(sh, node, h, size) && idx < size
    requires g == Visit(sh, node, sh.Shift(h), size, idx, h)
    ensures Covers(Flatten(node), idx, g)
    decreases h
  {
    if node.Inner? && node.relaxed.Some? {
      hide Covers, WellFormed, Visit, Flatten, FlattenAll;
      var o, start, end := RelaxedChild(sh, node, size, idx, h, g);
      if h == 1 {
        LeafFound(sh, node.children[o], idx - start, end - start, g);
      } else {
        VisitFinds(sh, node.children[o], end - start, idx - start, h - 1, g);
      }
      ChildCovers(node, o, idx, start, g);
    } else {
      RegularVisit(sh, node, size, idx, h, g);
      RegularVisitFinds(sh, node, size, idx, h, g);
    }
  }

  lemma RegularVisit<T>(sh: Shape, node: Node<T>, size: nat, idx: nat, h: nat, g: Region<T>)
    requires sh.Valid() && h > 0 && WellFormed(sh, node, h, size) && idx < size && !(node.Inner? && node.relaxed.Some?)
    requires g == Visit(sh, node, sh.Shift(h), size, idx, h)
    ensures IsRegular(sh, node, h, size) && node.Inner? && node.relaxed.None?
    ensures g == RegularSubTowards(sh, node, sh.Shift(h), size, idx, h)
  {
  }

  lemma RegularVisitFinds<T>(sh: Shape, node: Node<T>, size: nat, idx: nat, h: nat, g: Region<T>)
    requires sh.Valid() && h > 0 && IsRegular(sh, node, h, size) && idx < size && node.Inner? && node.relaxed.None?
    requires g == RegularSubTowards(sh, node, sh.Shift(h), size, idx, h)
    ensures Covers(Flatten(node), idx, g)
  {
    hide Covers, IsRegular;
    SubReaches(sh, node, h, size, idx);
    RegularSlots(sh, node, h, size, idx);
    RegularFinds(sh, node, size, idx, h, g, idx);
  }

  // ----- the whole list

  /** Root and tail; `levels` is the number of inner levels, so the root's shift is sh.Shift(levels). */
  datatype Rrb<T> = Rrb(size: nat, levels: nat, root: Node<T>, tail: seq<T>) {
    function TailOffset(sh: Shape): nat
      requires root.Inner? && (root.relaxed.Some? ==> |root.relaxed.value| > 0)
    {
      if root.relaxed.Some? then root.relaxed.value[|root.relaxed.value| - 1]
      else if size > 0 then size - 1 - LowBits(size - 1, sh.leafBits)
      else 0
    }

    /** Tree and tail make up the list. A tree without a size table is filled from the left, whole leaves only,
        and the tail is then neither empty nor larger than a leaf. */
    ghost predicate Valid(sh: Shape) {
      var n := |Flatten(root)|;
      && sh.Valid() && levels > 0 && root.Inner? && size == n + |tail|
      && (if n > 0 then WellFormed(sh, root, levels, n)
          else root.relaxed.Some? ==>
            |root.relaxed.value| > 0 && root.relaxed.value[|root.relaxed.value| - 1] == 0)
      && (root.relaxed.None? && size > 0 ==> n % Pow2(sh.leafBits) == 0 && 0 < |tail| <= Pow2(sh.leafBits))
    }

    ghost function Elements(sh: Shape): (s: seq<T>)
      requires Valid(sh)
      ensures |s| == size
    {
      Flatten(root) + tail
    }
  }

  /** The last whole leaf before position `size` ends where the tree ends. */
  lemma WholeLeaves(n: nat, k: nat, c: nat)
    requires c > 0 && n % c == 0 && 0 < k <= c
    ensures (n + k - 1) % c == k - 1
  {
    var q, r := Decompose(n, c);
    DivModUnique(n, c, q, r);
    DivModUnique(n + k - 1, c, q, k - 1);
  }

  /** The offset of the tail is the number of elements in the tree. */
  lemma TailOffsetIs<T>(sh: Shape, list: Rrb<T>)
    requires list.Valid(sh)
    ensures list.root.relaxed.Some? ==> |list.root.relaxed.value| > 0
    ensures list.TailOffset(sh) == |Flatten(list.root)| == list.size - |list.tail|
  {
    var n := |Flatten(list.root)|;
    if list.root.relaxed.None? && list.size > 0 {
      WholeLeaves(n, |list.tail|, Pow2(sh.leafBits));
    }
  }

  /** For a tree without a size table that is so exactly if it has whole leaves only, and the tail is neither empty
      nor larger than a leaf. */
  lemma TailOffsetRightIff<T>(sh: Shape, list: Rrb<T>)
    requires list.root.Inner? && list.root.relaxed.None? && list.size == |Flatten(list.root)| + |list.tail| > 0
    ensures list.TailOffset(sh) == |Flatten(list.root)| <==>
            |Flatten(list.root)| % Pow2(sh.leafBits) == 0 && 0 < |list.tail| <= Pow2(sh.leafBits)
  {
    var n, k, c := |Flatten(list.root)|, |list.tail|, Pow2(sh.leafBits);
    var q, r := Decompose(list.size - 1, c);
    DivModUnique(list.size - 1, c, q, r);
    DivModUnique(q * c, c, q, 0);
    if n % c == 0 && 0 < k <= c {
      WholeLeaves(n, k, c);
    }
  }

  /** The leaf around position `i`, and the positions it spans. */
  function RegionOf<T>(sh: Shape, list: Rrb<T>, i: nat): (r: (seq<T>, int, int))
    requires list.Valid(sh) && i < list.size
  {
    TailOffsetIs(sh, list);
    var tailOff := list.TailOffset(sh);
    if i >= tailOff then (list.tail, tailOff, list.size)
    else
      var sub := Visit(sh, list.root, sh.Shift(list.levels), tailOff, i, list.levels);
      (sub.leaf, i - sub.index, i - sub.index + sub.count)
  }

  /** Every position in the span reads from the leaf what the sequence holds there. */
  lemma RegionIsRight<T>(sh: Shape, list: Rrb<T>, i: nat, r: (seq<T>, int, int))
    requires list.Valid(sh) && i < list.size && r == RegionOf(sh, list, i)
    ensures 0 <= r.1 <= i < r.2 <= list.size && |r.0| == r.2 - r.1
    ensures r.0 == list.Elements(sh)[r.1..r.2]
  {
    TailOffsetIs(sh, list);
    var tailOff := list.TailOffset(sh);
    if i < tailOff {
      var g := Visit(sh, list.root, sh.Shift(list.levels), tailOff, i, list.levels);
      VisitFinds(sh, list.root, tailOff, i, list.levels, g);
      WellFormedLength(sh, list.root, list.levels, tailOff);
    }
  }

  /** 1 << 64 - 1, which by precedence is 2^63. */
  const MAX: nat := 0x8000_0000_0000_0000

  class ListIter<T> {
    const sh: Shape
    const list: Rrb<T>
    var i: nat
    var curr: (seq<T>, int, int)

    ghost predicate Valid()
      reads this
    {
      && list.Valid(sh) && i <= list.size
      && (curr.1 < curr.2 ==>
            0 <= curr.1 && curr.2 <= list.size && |curr.0| == curr.2 - curr.1 &&
              curr.0 == list.Elements(sh)[curr.1..curr.2])
    }

    constructor (sh: Shape, list: Rrb<T>)
      requires list.Valid(sh)
      ensures Valid() && this.sh == sh && this.list == list && i == 0
    {
      this.sh, this.list := sh, list;
      i, curr := 0, ([], MAX, MAX);
    }

    /** None is the end of the iteration. */
    method Next() returns (r: Option<T>)
      requires Valid()
      modifies this
      ensures Valid()
      ensures old(i) == list.size ==> r == None && i == old(i)
      ensures old(i) < list.size ==> r == Some(list.Elements(sh)[old(i)]) && i == old(i) + 1
    {
      if i == list.size {
        return None;
      }
      if i < curr.1 || i >= curr.2 {
        var region := RegionOf(sh, list, i);
        RegionIsRight(sh, list, i, region);
        curr := region;
      }
      r := Some(curr.0[i - curr.1]);
      i := i + 1;
    }
  }

  /** A full run of the iterator yields exactly the sequence. */
  method ToSequence<T>(sh: Shape, list: Rrb<T>) returns (s: seq<T>)
    requires list.Valid(sh)
    ensures s == list.Elements(sh)
  {
    var iter := new ListIter(sh, list);
    s := [];
    var r := iter.Next();
    while r.Some?
      invariant iter.Valid() && iter.sh == sh && iter.list == list
      invariant |s| <= list.size && s == list.Elements(sh)[..|s|]
      invariant if r.Some? then iter.i == |s| + 1 && |s| < list.size && r.value == list.Elements(sh)[|s|]
                else |s| == list.size
      decreases list.size - |s|
    {
      s := s + [r.value];
      r := iter.Next();
    }
  }
}
