/** Reference-counted cells and the boxes that point at them.
    Every box object in the program is named: the one inside the atom, and the locals and
    user boxes of each thread. A box with a null pointer has no entry in `box`. */
module BoxHeap {
  type Addr = nat

  datatype BoxId = Slot
                 | Old(owner: nat) | New(owner: nat) | Arg(owner: nat) | Aux(owner: nat) | Ret(owner: nat)
                 | User(owner: nat, index: nat)

  datatype Cell<V> = Cell(count: int, value: V)

  datatype Memory<V> = Memory(heap: map<Addr, Cell<V>>, box: map<BoxId, Addr>)

  /** Touching a null pointer or a freed cell is a fault, not a value. */
  datatype Outcome<T> = Ok(value: T) | Fault

  // ----- what the box operations do

  /** `detail::make<heap, holder>(v)` at an address the allocator picks. */
  ghost function Make<V>(m: Memory<V>, k: BoxId, a: Addr, v: V): Memory<V> {
    Memory(m.heap[a := Cell(1, v)], m.box[k := a])
  }

  ghost predicate Live<V>(m: Memory<V>, k: BoxId) {
    k in m.box && m.box[k] in m.heap
  }

  /** Copy construction: share the pointer, then `inc`. */
  ghost function CopyTo<V>(m: Memory<V>, dst: BoxId, src: BoxId): Outcome<Memory<V>> {
    if !Live(m, src) then Fault else
      var a := m.box[src];
      Ok(Memory(m.heap[a := m.heap[a].(count := m.heap[a].count + 1)], m.box[dst := a]))
  }

  ghost function Place(box: map<BoxId, Addr>, k: BoxId, from: map<BoxId, Addr>, j: BoxId): map<BoxId, Addr> {
    if j in from then box[k := from[j]] else box - {k}
  }

  /** `swap`, also the whole of move construction and move assignment. */
  ghost function Swap<V>(m: Memory<V>, i: BoxId, j: BoxId): Memory<V> {
    m.(box := Place(Place(m.box, i, m.box, j), j, m.box, i))
  }

  /** The destructor's `dec`; releasing the cell of a zero count is a separate step. */
  ghost function Drop<V>(m: Memory<V>, k: BoxId): Outcome<Memory<V>> {
    if k !in m.box then Ok(m)
    else if !Live(m, k) then Fault
    else
      var a := m.box[k];
      Ok(Memory(m.heap[a := m.heap[a].(count := m.heap[a].count - 1)], m.box - {k}))
  }

  ghost function Release<V>(m: Memory<V>, a: Addr): Memory<V> {
    m.(heap := m.heap - {a})
  }

  ghost function Get<V>(m: Memory<V>, k: BoxId): Outcome<V> {
    if Live(m, k) then Ok(m.heap[m.box[k]].value) else Fault
  }

  /** The in-place branch of the rvalue `update`. */
  ghost function Mutate<V>(m: Memory<V>, k: BoxId, v: V): Outcome<Memory<V>> {
    if !Live(m, k) then Fault else
      var a := m.box[k];
      Ok(m.(heap := m.heap[a := m.heap[a].(value := v)]))
  }

  // ----- counts and handles

  ghost function Owners(box: map<BoxId, Addr>, a: Addr): set<BoxId> {
    set k | k in box && box[k] == a
  }

  /** No dangling handle, and each count is the number of handles. */
  ghost predicate RefCounted<V>(m: Memory<V>) {
    && (forall k :: k in m.box ==> m.box[k] in m.heap)
    && (forall a :: a in m.heap ==> m.heap[a].count == |Owners(m.box, a)|)
  }

  /** No other box shares the cell of `k`. */
  ghost predicate Unshared(box: map<BoxId, Addr>, k: BoxId) {
    k in box && forall j :: j in box && box[j] == box[k] ==> j == k
  }

  /** What a program that only sees values can see: the value behind each box. */
  ghost function View<V>(m: Memory<V>): map<BoxId, V> {
    map k | k in m.box && m.box[k] in m.heap :: m.heap[m.box[k]].value
  }

  /** Boxes outside `ks` keep their cells and stay unshared. */
  ghost predicate OthersKept(b: map<BoxId, Addr>, b': map<BoxId, Addr>, ks: set<BoxId>) {
    && (forall k :: k !in ks ==> (k in b <==> k in b') && (k in b ==> b'[k] == b[k]))
    && (forall k :: k !in ks && Unshared(b, k) ==> Unshared(b', k))
  }

  lemma OwnersPut(box: map<BoxId, Addr>, k: BoxId, a: Addr, x: Addr)
    requires k !in box
    ensures |Owners(box[k := a], x)| == |Owners(box, x)| + (if x == a then 1 else 0)
  {
    if x == a {
      assert Owners(box[k := a], x) == Owners(box, x) + {k};
    } else {
      assert Owners(box[k := a], x) == Owners(box, x);
    }
  }

  lemma OwnersRemove(box: map<BoxId, Addr>, k: BoxId, x: Addr)
    requires k in box
    ensures |Owners(box - {k}, x)| == |Owners(box, x)| - (if x == box[k] then 1 else 0)
  {
    if x == box[k] {
      assert Owners(box, x) == Owners(box - {k}, x) + {k};
    } else {
      assert Owners(box - {k}, x) == Owners(box, x);
    }
  }

  lemma KeptByPut(b: map<BoxId, Addr>, k: BoxId, a: Addr, ks: set<BoxId>)
    requires k !in b && k in ks
    requires (forall j :: j in b ==> b[j] != a) || (exists j :: j in ks && j in b && b[j] == a)
    ensures OthersKept(b, b[k := a], ks)
  {
  }

  lemma KeptByRemove(b: map<BoxId, Addr>, k: BoxId)
    ensures OthersKept(b, b - {k}, {k})
  {
  }

  lemma KeptBySwap(b: map<BoxId, Addr>, i: BoxId, j: BoxId)
    requires i != j
    ensures OthersKept(b, Place(Place(b, i, b, j), j, b, i), {i, j})
  {
  }

  lemma MakeKeepsCounts<V>(m: Memory<V>, k: BoxId, a: Addr, v: V, m': Memory<V>)
    requires RefCounted(m) && k !in m.box && a !in m.heap
    requires m' == Make(m, k, a, v)
    ensures RefCounted(m')
  {
    assert Owners(m.box, a) == {};
    forall x | x in m'.heap ensures m'.heap[x].count == |Owners(m'.box, x)| {
      OwnersPut(m.box, k, a, x);
    }
  }

  lemma MakeIsAssignment<V>(m: Memory<V>, k: BoxId, a: Addr, v: V, m': Memory<V>)
    requires RefCounted(m) && k !in m.box && a !in m.heap
    requires m' == Make(m, k, a, v)
    ensures RefCounted(m')
    ensures View(m') == View(m)[k := v]
    ensures OthersKept(m.box, m'.box, {k})
  {
    MakeKeepsCounts(m, k, a, v, m');
    KeptByPut(m.box, k, a, {k});
  }

  lemma CopyKeepsCounts<V>(m: Memory<V>, dst: BoxId, src: BoxId, r: Outcome<Memory<V>>)
    requires RefCounted(m) && dst !in m.box && src in m.box
    requires r == CopyTo(m, dst, src)
    ensures r.Ok? && RefCounted(r.value) && r.value.box == m.box[dst := m.box[src]]
  {
    var m' := r.value;
    forall x | x in m'.heap ensures m'.heap[x].count == |Owners(m'.box, x)| {
      OwnersPut(m.box, dst, m.box[src], x);
    }
  }

  lemma CopyIsAssignment<V>(m: Memory<V>, dst: BoxId, src: BoxId, r: Outcome<Memory<V>>)
    requires RefCounted(m) && dst !in m.box && src in m.box
    requires r == CopyTo(m, dst, src)
    ensures r.Ok? && RefCounted(r.value) && r.value.box == m.box[dst := m.box[src]]
    ensures src in View(m) && View(r.value) == View(m)[dst := View(m)[src]]
    ensures OthersKept(m.box, r.value.box, {dst, src})
  {
    CopyKeepsCounts(m, dst, src, r);
    KeptByPut(m.box, dst, m.box[src], {dst, src});
  }

  lemma OwnersSwapped(b: map<BoxId, Addr>, i: BoxId, j: BoxId, b': map<BoxId, Addr>, x: Addr)
    requires i != j && b' == Place(Place(b, i, b, j), j, b, i)
    ensures |Owners(b', x)| == |Owners(b, x)|
  {
    var b0 := b - {i, j};
    var b1, b2 := b - {i}, if j in b then b0[i := b[j]] else b0;
    assert b0 == b1 - {j};
    if i in b {
      OwnersRemove(b, i, x);
      OwnersPut(b2, j, b[i], x);
      assert b' == b2[j := b[i]];
    } else {
      assert b1 == b && b' == b2;
    }
    if j in b {
      OwnersRemove(b1, j, x);
      OwnersPut(b0, i, b[j], x);
    } else {
      assert b0 == b1;
    }
  }

  lemma SwapKeepsCounts<V>(m: Memory<V>, i: BoxId, j: BoxId, m': Memory<V>)
    requires RefCounted(m) && i != j && m' == Swap(m, i, j)
    ensures RefCounted(m')
  {
    forall x | x in m'.heap ensures m'.heap[x].count == |Owners(m'.box, x)| {
      OwnersSwapped(m.box, i, j, m'.box, x);
    }
  }

  /** The two boxes have traded places, null pointers included; nothing else has changed. */
  ghost predicate Traded<V>(m: Memory<V>, i: BoxId, j: BoxId, m': Memory<V>)
    requires RefCounted(m)
  {
    && RefCounted(m') && OthersKept(m.box, m'.box, {i, j})
    && (i in m'.box <==> j in m.box) && (j in m.box ==> m'.box[i] == m.box[j] && View(m')[i] == View(m)[j])
    && (j in m'.box <==> i in m.box) && (i in m.box ==> m'.box[j] == m.box[i] && View(m')[j] == View(m)[i])
    && (forall k :: k != i && k != j && k in m.box ==> k in m'.box && View(m')[k] == View(m)[k])
  }

  lemma SwapIsSwap<V>(m: Memory<V>, i: BoxId, j: BoxId, m': Memory<V>)
    requires RefCounted(m) && i != j && m' == Swap(m, i, j)
    ensures Traded(m, i, j, m')
  {
    SwapKeepsCounts(m, i, j, m');
    KeptBySwap(m.box, i, j);
  }

  /** The same on what a program can see. */
  lemma SwapInView<V>(m: Memory<V>, i: BoxId, j: BoxId, m': Memory<V>)
    requires RefCounted(m) && i != j && m' == Swap(m, i, j)
    ensures var v := View(m);
            View(m') ==
            if i in v && j in v then v[i := v[j]][j := v[i]]
            else if j in v then (v - {j})[i := v[j]]
            else if i in v then (v - {i})[j := v[i]]
            else v
  {
  }

  lemma DropKeepsCounts<V>(m: Memory<V>, k: BoxId, r: Outcome<Memory<V>>)
    requires RefCounted(m) && r == Drop(m, k)
    ensures r.Ok? && RefCounted(r.value) && r.value.box == m.box - {k}
  {
    if k in m.box {
      forall x | x in r.value.heap ensures r.value.heap[x].count == |Owners(r.value.box, x)| {
        OwnersRemove(m.box, k, x);
      }
    } else {
      assert m.box - {k} == m.box;
    }
  }

  lemma DropIsRemoval<V>(m: Memory<V>, k: BoxId, r: Outcome<Memory<V>>)
    requires RefCounted(m) && r == Drop(m, k)
    ensures r.Ok? && RefCounted(r.value) && r.value.box == m.box - {k}
    ensures View(r.value) == View(m) - {k}
    ensures OthersKept(m.box, r.value.box, {k})
  {
    DropKeepsCounts(m, k, r);
    KeptByRemove(m.box, k);
  }

  /** A cell without count has no handle left, so releasing it changes no value. */
  lemma ReleaseIsInvisible<V>(m: Memory<V>, a: Addr)
    requires RefCounted(m) && a in m.heap && m.heap[a].count == 0
    ensures RefCounted(Release(m, a)) && View(Release(m, a)) == View(m)
  {
    assert Owners(m.box, a) == {};
    forall k | k in m.box ensures m.box[k] != a {
      assert m.box[k] == a ==> k in Owners(m.box, a);
    }
  }

  /** The cell is gone afterwards, and every other one is as it was. */
  lemma ReleaseFrees<V>(m: Memory<V>, a: Addr)
    ensures a !in Release(m, a).heap && Release(m, a).box == m.box
    ensures forall x :: x in m.heap && x != a ==> x in Release(m, a).heap && Release(m, a).heap[x] == m.heap[x]
    ensures forall x :: x in Release(m, a).heap ==> x in m.heap
  {
  }

  lemma Singleton<T>(s: set<T>, x: T)
    requires x in s
    ensures |s| == 1 <==> s == {x}
  {
    assert s == {x} + (s - {x});
  }

  lemma UniqueMeansUnshared<V>(m: Memory<V>, k: BoxId)
    requires RefCounted(m) && k in m.box
    ensures m.heap[m.box[k]].count == 1 <==> Unshared(m.box, k)
  {
    var o := Owners(m.box, m.box[k]);
    Singleton(o, k);
    if o == {k} {
      forall j | j in m.box && m.box[j] == m.box[k] ensures j == k {
        assert j in o;
      }
    }
    if Unshared(m.box, k) {
      assert o == {k};
    }
  }

  /** Writing through an unshared box is assignment to that box alone. */
  lemma MutateUnsharedIsAssignment<V>(m: Memory<V>, k: BoxId, v: V, r: Outcome<Memory<V>>)
    requires RefCounted(m) && Unshared(m.box, k) && r == Mutate(m, k, v)
    ensures r.Ok? && RefCounted(r.value) && r.value.box == m.box
    ensures View(r.value) == View(m)[k := v]
  {
  }

  /** Conversely, through a shared box a changed value would show in another box: the
      `unique` test is exactly what makes the in-place branch safe. */
  lemma MutateIsAssignmentOnlyIfUnique<V>(m: Memory<V>, k: BoxId, v: V)
    requires RefCounted(m) && k in m.box && v != View(m)[k]
    ensures Mutate(m, k, v).Ok?
    ensures View(Mutate(m, k, v).value) == View(m)[k := v] <==> m.heap[m.box[k]].count == 1
  {
    UniqueMeansUnshared(m, k);
    var m' := Mutate(m, k, v).value;
    if !Unshared(m.box, k) {
      var j :| j in m.box && m.box[j] == m.box[k] && j != k;
      assert View(m')[j] == v && View(m)[k := v][j] == View(m)[k];
    }
  }

  /** Exactly the cells without handles await release: none is freed early, none is lost. */
  lemma NothingLeaks<V>(m: Memory<V>, a: Addr)
    requires RefCounted(m) && a in m.heap
    ensures m.heap[a].count == 0 <==> forall k :: k in m.box ==> m.box[k] != a
  {
    var o := Owners(m.box, a);
    assert |o| == 0 <==> o == {};
    assert forall k :: k in o <==> k in m.box && m.box[k] == a;
  }
}
