/** What a program's operations on its own boxes do to all the boxes it sees, and what a call returns in every run. */
module AtomBoxCalls {
  import opened BoxHeap
  import opened Atom
  import opened AtomProof
  import opened AtomCalls

  // ----- boxes of a thread

  /** What a box holds. */
  lemma Seen<V>(s: State<V>, k: BoxId)
    requires Inv(s)
    ensures RefCounted(s.m) && (k in s.m.box <==> k in View(s.m))
    ensures k in s.m.box ==> Live(s.m, k) && s.m.heap[s.m.box[k]].value == View(s.m)[k]
  {
  }

  lemma NoTemporary<V>(s: State<V>, t: nat)
    requires Inv(s) && t < |s.threads| && s.threads[t].pc.Idle?
    ensures Aux(t) !in s.m.box
  {
    Facts(s, t);
  }

  /** The step changes the values behind the boxes to these, and nothing in the threads. */
  ghost predicate Shows<V>(s: State<V>, t: nat, act: Action<V>, view: map<BoxId, V>) {
    var r := Step(s, t, act);
    r.Ok? && View(r.value.m) == view && r.value.threads == s.threads && r.value.lock == s.lock && r.value.log == s.log
  }

  /** Construction from a value. */
  lemma Created<V>(s: State<V>, t: nat, i: nat, x: V, a: Addr)
    requires Inv(s) && t < |s.threads| && s.threads[t].pc.Idle? && User(t, i) !in View(s.m) && a !in s.m.heap
    ensures Shows(s, t, Create(i, x, a), View(s.m)[User(t, i) := x])
  {
    hide Inv, RefCounted, View, Live;
    Seen(s, User(t, i));
    MakeIsAssignment(s.m, User(t, i), a, x, Make(s.m, User(t, i), a, x));
    hide Make;
  }

  /** Copy construction. */
  lemma CopyConstructed<V>(s: State<V>, t: nat, i: nat, j: nat)
    requires Inv(s) && t < |s.threads| && s.threads[t].pc.Idle?
    requires User(t, i) !in View(s.m) && User(t, j) in View(s.m)
    ensures Shows(s, t, CopyBox(i, j), View(s.m)[User(t, i) := View(s.m)[User(t, j)]])
  {
    hide Inv, RefCounted, View, Live, CopyTo;
    Seen(s, User(t, i));
    Seen(s, User(t, j));
    CopyIsAssignment(s.m, User(t, i), User(t, j), CopyTo(s.m, User(t, i), User(t, j)));
    ThreadsSame(s, t);
  }

  lemma ThreadsSame<V>(s: State<V>, t: nat)
    requires t < |s.threads| && s.threads[t].pc.Idle?
    ensures s.threads[t := s.threads[t].(pc := Idle)] == s.threads
  {
  }

  /** Move construction and assignment: the boxes trade places, whether or not they hold anything. */
  lemma Moved<V>(s: State<V>, t: nat, i: nat, j: nat)
    requires Inv(s) && t < |s.threads| && s.threads[t].pc.Idle? && i != j
    ensures var v, x, y := View(s.m), User(t, i), User(t, j);
            Shows(s, t, MoveBox(i, j),
                  if x in v && y in v then v[x := v[y]][y := v[x]]
                  else if y in v then (v - {y})[x := v[y]]
                  else if x in v then (v - {x})[y := v[x]]
                  else v)
  {
    hide Inv, RefCounted, View, Live, Swap;
    Seen(s, User(t, i));
    SwapInView(s.m, User(t, i), User(t, j), Swap(s.m, User(t, i), User(t, j)));
  }

  /** Destruction. */
  lemma Destroyed<V>(s: State<V>, t: nat, i: nat)
    requires Inv(s) && t < |s.threads| && s.threads[t].pc.Idle?
    ensures Shows(s, t, Destroy(i), View(s.m) - {User(t, i)})
  {
    hide Inv, RefCounted, View, Live, Drop;
    Seen(s, User(t, i));
    DropIsRemoval(s.m, User(t, i), Drop(s.m, User(t, i)));
    ThreadsSame(s, t);
  }

  /** `update` of a constant box. */
  lemma ConstUpdated<V>(s: State<V>, t: nat, i: nat, j: nat, fn: V -> V, a: Addr)
    requires Inv(s) && t < |s.threads| && s.threads[t].pc.Idle? && a !in s.m.heap
    requires User(t, i) !in View(s.m) && User(t, j) in View(s.m)
    ensures Shows(s, t, UpdateConst(i, j, fn, a), View(s.m)[User(t, i) := fn(View(s.m)[User(t, j)])])
  {
    hide Inv, RefCounted, View, Live;
    Seen(s, User(t, i));
    Seen(s, User(t, j));
    var x := fn(View(s.m)[User(t, j)]);
    MakeIsAssignment(s.m, User(t, i), a, x, Make(s.m, User(t, i), a, x));
    hide Make;
  }

  /** A cell without count is freed; nobody sees it. */
  lemma CellReleased<V>(s: State<V>, t: nat, a: Addr)
    requires Inv(s) && a in s.m.heap && (forall k :: k in s.m.box ==> s.m.box[k] != a)
    ensures Shows(s, t, ReleaseCell(a), View(s.m)) && a !in Step(s, t, ReleaseCell(a)).value.m.heap
  {
    NothingLeaks(s.m, a);
    ReleaseIsInvisible(s.m, a);
    ReleaseFrees(s.m, a);
  }

  // ----- those of several steps

  lemma PutAndRemoved<V>(v: map<BoxId, V>, k: BoxId, x: V)
    requires k !in v
    ensures v[k := x] - {k} == v
  {
  }

  lemma TwoAdvances<V>(t: nat, act: Action<V>, a: Addr)
    ensures [] + [(t, act)] + [(t, Advance(a))] + [(t, Advance(a))] == [(t, act)] + Advances(t, a, 2)
  {
  }

  lemma ThreeAdvances<V>(t: nat, act: Action<V>, a: Addr)
    ensures [] + [(t, act)] + [(t, Advance(a))] + [(t, Advance(a))] + [(t, Advance(a))] ==
            [(t, act)] + Advances(t, a, 3)
  {
  }

  lemma Assigned<V>(s: State<V>, t: nat, i: nat)
    requires Inv(s) && t < |s.threads| && s.threads[t].pc.AssignSwap? && s.threads[t].pc.i == i
    ensures var v := View(s.m);
            && Aux(t) in v
            && View(Swap(s.m, User(t, i), Aux(t))) ==
               if User(t, i) in v then v[User(t, i) := v[Aux(t)]][Aux(t) := v[User(t, i)]]
               else (v - {Aux(t)})[User(t, i) := v[Aux(t)]]
  {
    Facts(s, t);
    hide Inv;
    SwapInView(s.m, User(t, i), Aux(t), Swap(s.m, User(t, i), Aux(t)));
  }

  /** The temporary is swapped in, and the old value dropped. */
  lemma Assigns<V>(s0: State<V>, t: nat, before: seq<(nat, Action<V>)>, s: State<V>, p: Point<V>, i: nat, a: Addr)
    returns (s': State<V>)
    requires On(s0, t, before, s, p) && p.pc.AssignSwap? && p.pc.i == i
    ensures Aux(t) in p.view
    ensures On(s0, t, before + [(t, Advance(a))] + [(t, Advance(a))], s',
               p.(pc := Idle, view := (p.view - {Aux(t)})[User(t, i) := p.view[Aux(t)]]))
  {
    hide Inv, View, Swap, Drop, Run, Live;
    Assigned(s, t, i);
    var v, k := p.view, User(t, i);
    var v1 := if k in v then v[k := v[Aux(t)]][Aux(t) := v[k]] else (v - {Aux(t)})[k := v[Aux(t)]];
    var s1 := Step(s, t, Advance(a)).value;
    Goes(s0, t, before, s, p, Advance(a), s1, p.(pc := AssignDrop, view := v1));
    LocalDropped(s1, Aux(t));
    s' := Step(s1, t, Advance(a)).value;
    assert v1 - {Aux(t)} == (v - {Aux(t)})[k := v[Aux(t)]];
    Goes(s0, t, before + [(t, Advance(a))], s1, p.(pc := AssignDrop, view := v1), Advance(a), s',
         p.(pc := Idle, view := (v - {Aux(t)})[k := v[Aux(t)]]));
  }

  lemma CopyAssignStarts<V>(s: State<V>, t: nat, i: nat, j: nat, p: Point<V>) returns (s': State<V>)
    requires On(s, t, [], s, p) && p.pc.Idle? && User(t, j) in p.view
    ensures On(s, t, [] + [(t, CopyAssign(i, j))], s',
               p.(pc := AssignSwap(i, p.view[User(t, j)]), view := p.view[Aux(t) := p.view[User(t, j)]]))
  {
    hide Inv, RefCounted, View, Live, CopyTo, Run;
    Seen(s, User(t, j));
    NoTemporary(s, t);
    CopyIsAssignment(s.m, Aux(t), User(t, j), CopyTo(s.m, Aux(t), User(t, j)));
    s' := Step(s, t, CopyAssign(i, j)).value;
    Goes(s, t, [], s, p, CopyAssign(i, j), s',
         p.(pc := AssignSwap(i, p.view[User(t, j)]), view := p.view[Aux(t) := p.view[User(t, j)]]));
  }

  /** Copy assignment. */
  lemma CopyAssigned<V>(s: State<V>, t: nat, i: nat, j: nat, a: Addr, v: map<BoxId, V>) returns (s': State<V>)
    requires Inv(s) && t < |s.threads| && s.threads[t].pc.Idle? && v == View(s.m) && User(t, j) in v
    ensures Run(s, [(t, CopyAssign(i, j))] + Advances(t, a, 2)) == Ok(s') && Inv(s') && Beside(s, t, s')
    ensures s'.threads[t].pc == Idle && View(s'.m) == v[User(t, i) := v[User(t, j)]]
  {
    Starts(s, t);
    hide Inv, View, Run, Step, Live, Beside;
    NoTemporary(s, t);
    Seen(s, Aux(t));
    var p := Point(s.threads[t].pc, s.threads[t].op, s.lock, v);
    var x, act := v[User(t, j)], CopyAssign(i, j);
    var s1 := CopyAssignStarts(s, t, i, j, p);
    s' := Assigns(s, t, [] + [(t, act)], s1, p.(pc := AssignSwap(i, x), view := v[Aux(t) := x]), i, a);
    PutAndRemoved(v, Aux(t), x);
    TwoAdvances(t, act, a);
  }

  lemma InPlace<V>(s: State<V>, t: nat, i: nat, fn: V -> V)
    requires Inv(s) && t < |s.threads| && s.threads[t].pc == MutateInPlace(i, fn)
    ensures var v, k := View(s.m), User(t, i);
            && k in v && Live(s.m, k) && s.m.heap[s.m.box[k]].value == v[k]
            && Mutate(s.m, k, fn(v[k])).Ok? && View(Mutate(s.m, k, fn(v[k])).value) == v[k := fn(v[k])]
  {
    Facts(s, t);
    assert ThreadInv(s, t);
    hide Inv;
    MutateUnsharedIsAssignment(s.m, User(t, i), fn(View(s.m)[User(t, i)]),
                               Mutate(s.m, User(t, i), fn(View(s.m)[User(t, i)])));
  }

  lemma Mutates<V>(s0: State<V>, t: nat, before: seq<(nat, Action<V>)>, s: State<V>, p: Point<V>, i: nat, fn: V -> V,
                   a: Addr) returns (s': State<V>)
    requires On(s0, t, before, s, p) && p.pc == MutateInPlace(i, fn)
    ensures User(t, i) in p.view
    ensures On(s0, t, before + [(t, Advance(a))], s',
               p.(pc := Idle, view := p.view[User(t, i) := fn(p.view[User(t, i)])]))
  {
    hide Inv, View, Mutate, Run, Live;
    InPlace(s, t, i, fn);
    s' := Step(s, t, Advance(a)).value;
    Goes(s0, t, before, s, p, Advance(a), s',
         p.(pc := Idle, view := p.view[User(t, i) := fn(p.view[User(t, i)])]));
  }

  lemma RvalueStarts<V>(s: State<V>, t: nat, i: nat, fn: V -> V, p: Point<V>) returns (s': State<V>)
    requires On(s, t, [], s, p) && p.pc.Idle? && User(t, i) in p.view
    ensures On(s, t, [] + [(t, UpdateRvalue(i, fn))], s',
               p.(pc := if Unshared(s.m.box, User(t, i)) then MutateInPlace(i, fn) else Replace(i, fn)))
  {
    hide Inv, RefCounted, View, Live, Unshared, Run;
    Seen(s, User(t, i));
    LiveBox(s.m, User(t, i));
    UniqueMeansUnshared(s.m, User(t, i));
    s' := Step(s, t, UpdateRvalue(i, fn)).value;
    Goes(s, t, [], s, p, UpdateRvalue(i, fn), s',
         p.(pc := if Unshared(s.m.box, User(t, i)) then MutateInPlace(i, fn) else Replace(i, fn)));
  }

  lemma LiveBox<V>(m: Memory<V>, k: BoxId)
    requires Live(m, k)
    ensures k in m.box && m.box[k] in m.heap
  {
  }

  /** `update` of an rvalue whose cell nobody shares: one step. */
  lemma RvalueUpdatedInPlace<V>(s: State<V>, t: nat, i: nat, fn: V -> V, a: Addr, v: map<BoxId, V>)
    returns (s': State<V>)
    requires Inv(s) && t < |s.threads| && s.threads[t].pc.Idle? && v == View(s.m) && User(t, i) in v
    requires User(t, i) in s.m.box && Unshared(s.m.box, User(t, i))
    ensures Run(s, [(t, UpdateRvalue(i, fn))] + Advances(t, a, 1)) == Ok(s') && Inv(s') && Beside(s, t, s')
    ensures s'.threads[t].pc == Idle && View(s'.m) == v[User(t, i) := fn(v[User(t, i)])]
  {
    Starts(s, t);
    hide Inv, View, Run, Step, Live, Beside, Unshared;
    var p, act := Point(s.threads[t].pc, s.threads[t].op, s.lock, v), UpdateRvalue(i, fn);
    var s1 := RvalueStarts(s, t, i, fn, p);
    s' := Mutates(s, t, [] + [(t, act)], s1, p.(pc := MutateInPlace(i, fn)), i, fn, a);
    assert [] + [(t, act)] + [(t, Advance(a))] == [(t, act)] + Advances(t, a, 1);
  }

  lemma Replaced<V>(s: State<V>, t: nat, i: nat, fn: V -> V, a: Addr)
    requires Inv(s) && t < |s.threads| && s.threads[t].pc == Replace(i, fn) && a !in s.m.heap
    ensures var v, k := View(s.m), User(t, i);
            && k in v && Live(s.m, k) && s.m.heap[s.m.box[k]].value == v[k]
            && View(Make(s.m, Aux(t), a, fn(v[k]))) == v[Aux(t) := fn(v[k])]
  {
    Facts(s, t);
    assert ThreadInv(s, t);
    hide Inv;
    var x := fn(View(s.m)[User(t, i)]);
    MakeIsAssignment(s.m, Aux(t), a, x, Make(s.m, Aux(t), a, x));
  }

  lemma RvalueHeap<V>(s: State<V>, t: nat, i: nat, fn: V -> V, s1: State<V>)
    requires t < |s.threads| && s.threads[t].pc.Idle? && Run(s, [] + [(t, UpdateRvalue(i, fn))]) == Ok(s1)
    ensures s1.m == s.m
  {
    assert ([] + [(t, UpdateRvalue(i, fn))])[1..] == [];
  }

  lemma Allocates<V>(s0: State<V>, t: nat, before: seq<(nat, Action<V>)>, s: State<V>, p: Point<V>, i: nat, fn: V -> V,
                     a: Addr) returns (s': State<V>)
    requires On(s0, t, before, s, p) && p.pc == Replace(i, fn) && a !in s.m.heap
    ensures User(t, i) in p.view
    ensures var x := fn(p.view[User(t, i)]);
            On(s0, t, before + [(t, Advance(a))], s', p.(pc := AssignSwap(i, x), view := p.view[Aux(t) := x]))
  {
    hide Inv, View, Make, Run, Live;
    Replaced(s, t, i, fn, a);
    var x := fn(p.view[User(t, i)]);
    s' := Step(s, t, Advance(a)).value;
    Goes(s0, t, before, s, p, Advance(a), s', p.(pc := AssignSwap(i, x), view := p.view[Aux(t) := x]));
  }

  /** And of one whose cell is shared: a new cell, which the box then gets. */
  lemma SharedRvalueUpdated<V>(s: State<V>, t: nat, i: nat, fn: V -> V, a: Addr, v: map<BoxId, V>)
    returns (s': State<V>)
    requires Inv(s) && t < |s.threads| && s.threads[t].pc.Idle? && v == View(s.m) && User(t, i) in v
    requires User(t, i) in s.m.box && !Unshared(s.m.box, User(t, i)) && a !in s.m.heap
    ensures Run(s, [(t, UpdateRvalue(i, fn))] + Advances(t, a, 3)) == Ok(s') && Inv(s') && Beside(s, t, s')
    ensures s'.threads[t].pc == Idle && View(s'.m) == v[User(t, i) := fn(v[User(t, i)])]
  {
    Starts(s, t);
    hide Inv, View, Run, Step, Live, Beside, Unshared;
    NoTemporary(s, t);
    Seen(s, Aux(t));
    var p, act := Point(s.threads[t].pc, s.threads[t].op, s.lock, v), UpdateRvalue(i, fn);
    var s1 := RvalueStarts(s, t, i, fn, p);
    RvalueHeap(s, t, i, fn, s1);
    var x := fn(v[User(t, i)]);
    var s2 := Allocates(s, t, [] + [(t, act)], s1, p.(pc := Replace(i, fn)), i, fn, a);
    var p2 := p.(pc := AssignSwap(i, x), view := v[Aux(t) := x]);
    s' := Assigns(s, t, [] + [(t, act)] + [(t, Advance(a))], s2, p2, i, a);
    PutAndRemoved(v, Aux(t), x);
    ThreeAdvances(t, act, a);
  }
}
