/** What the calls of a program do to the boxes it sees: each operation from its invocation to its end. */
module AtomCalls {
  import opened BoxHeap
  import opened Atom
  import opened AtomProof

  // ----- a run in which one thread moves

  /** Where the moving thread is, with the lock and the values behind all boxes. */
  datatype Point<!V> = Point(pc: Pc<V>, op: AbsOp<V>, lock: Lock, view: map<BoxId, V>)

  /** The schedule, in which thread `t` alone moves, leads from `s0` to `s`. */
  ghost predicate On<V>(s0: State<V>, t: nat, schedule: seq<(nat, Action<V>)>, s: State<V>, p: Point<V>) {
    && Run(s0, schedule) == Ok(s) && Inv(s) && Beside(s0, t, s) && s.threads[t].pc == p.pc
    && s.threads[t].op == p.op && s.lock == p.lock && View(s.m) == p.view
  }

  /** Only thread `t` has moved. */
  ghost predicate Beside<V>(s0: State<V>, t: nat, s: State<V>) {
    t < |s0.threads| == |s.threads| &&
    forall u :: 0 <= u < |s0.threads| && u != t ==> s.threads[u] == s0.threads[u]
  }

  lemma Snoc<V>(s0: State<V>, before: seq<(nat, Action<V>)>, s: State<V>, t: nat, act: Action<V>)
    requires Run(s0, before) == Ok(s)
    ensures Run(s0, before + [(t, act)]) == Step(s, t, act)
    decreases |before|
  {
    hide Step;
    if before == [] {
      assert before + [(t, act)] == [(t, act)];
      assert [(t, act)][1..] == [];
    } else {
      assert (before + [(t, act)])[1..] == before[1..] + [(t, act)];
      Snoc(Step(s0, before[0].0, before[0].1).value, before[1..], s, t, act);
    }
  }

  lemma Starts<V>(s: State<V>, t: nat)
    requires Inv(s) && t < |s.threads|
    ensures On(s, t, [], s, Point(s.threads[t].pc, s.threads[t].op, s.lock, View(s.m)))
  {
  }

  /** What the invariant says about the boxes of a thread. */
  lemma Facts<V>(s: State<V>, t: nat)
    requires Inv(s) && t < |s.threads|
    ensures RefCounted(s.m) && Slot in s.m.box && Locals(s.m.box, t, s.threads[t]) && Phase(s.log, t, s.threads[t])
    ensures forall k :: k in s.m.box <==> k in View(s.m)
  {
    assert ThreadInv(s, t);
  }

  /** One step more. */
  lemma Goes<V>(s0: State<V>, t: nat, before: seq<(nat, Action<V>)>, s: State<V>, p: Point<V>, act: Action<V>,
                s': State<V>, p': Point<V>)
    requires On(s0, t, before, s, p) && Step(s, t, act) == Ok(s') && Beside(s, t, s')
    requires s'.threads[t].pc == p'.pc && s'.threads[t].op == p'.op && s'.lock == p'.lock && View(s'.m) == p'.view
    ensures On(s0, t, before + [(t, act)], s', p')
  {
    hide Inv, Step, Run, View;
    Snoc(s0, before, s, t, act);
    StepKeepsInv(s, t, act);
  }

  lemma OneMoved<V>(s: State<V>, t: nat, s': State<V>)
    requires t < |s.threads| == |s'.threads| && s'.threads == s.threads[t := s'.threads[t]]
    ensures Beside(s, t, s')
  {
  }

  // ----- store and exchange

  lemma Passed<V>(s: State<V>, t: nat, i: nat)
    requires Inv(s) && t < |s.threads| && s.threads[t].pc.Idle? && User(t, i) in s.m.box
    ensures var v := View(s.m);
            && User(t, i) in v && s.m.box[User(t, i)] in s.m.heap && Arg(t) !in v
            && s.m.heap[s.m.box[User(t, i)]].value == v[User(t, i)]
            && View(Swap(s.m, Arg(t), User(t, i))) == (v - {User(t, i)})[Arg(t) := v[User(t, i)]]
  {
    Facts(s, t);
    hide Inv, Phase;
    SwapInView(s.m, Arg(t), User(t, i), Swap(s.m, Arg(t), User(t, i)));
  }

  lemma ExchangeInvoked<V>(s: State<V>, t: nat, i: nat, p: Point<V>) returns (s': State<V>)
    requires On(s, t, [], s, p) && p.pc.Idle? && User(t, i) in p.view
    ensures On(s, t, [] + [(t, InvokeExchange(i))], s',
               Point(SwapLock, ExchangeOp(p.view[User(t, i)]), p.lock,
                     (p.view - {User(t, i)})[Arg(t) := p.view[User(t, i)]]))
  {
    Facts(s, t);
    Passed(s, t, i);
    hide Inv, View, Swap, RefCounted, Locals, Phase, Run;
    s' := Step(s, t, InvokeExchange(i)).value;
    Goes(s, t, [], s, p, InvokeExchange(i), s',
         Point(SwapLock, ExchangeOp(p.view[User(t, i)]), p.lock,
               (p.view - {User(t, i)})[Arg(t) := p.view[User(t, i)]]));
  }

  lemma StoreInvoked<V>(s: State<V>, t: nat, i: nat, p: Point<V>) returns (s': State<V>)
    requires On(s, t, [], s, p) && p.pc.Idle? && User(t, i) in p.view
    ensures On(s, t, [] + [(t, InvokeStore(i))], s',
               Point(SwapLock, StoreOp(p.view[User(t, i)]), p.lock,
                     (p.view - {User(t, i)})[Arg(t) := p.view[User(t, i)]]))
  {
    Facts(s, t);
    Passed(s, t, i);
    hide Inv, View, Swap, RefCounted, Locals, Phase, Run;
    s' := Step(s, t, InvokeStore(i)).value;
    Goes(s, t, [], s, p, InvokeStore(i), s',
         Point(SwapLock, StoreOp(p.view[User(t, i)]), p.lock,
               (p.view - {User(t, i)})[Arg(t) := p.view[User(t, i)]]));
  }

  lemma SlotSwap<V>(s: State<V>, t: nat)
    requires Inv(s) && t < |s.threads| && s.threads[t].pc.SwapSlot?
    ensures var v := View(s.m);
            && Live(s.m, Slot) && Slot in v && Arg(t) in v
            && View(Swap(s.m, Slot, Arg(t))) == v[Slot := v[Arg(t)]][Arg(t) := v[Slot]]
  {
    Facts(s, t);
    hide Inv, Phase;
    SwapInView(s.m, Slot, Arg(t), Swap(s.m, Slot, Arg(t)));
  }

  /** Lock, swap, unlock. */
  lemma SwapsInside<V>(s0: State<V>, t: nat, before: seq<(nat, Action<V>)>, s: State<V>, p: Point<V>, a: Addr)
    returns (schedule: seq<(nat, Action<V>)>, s': State<V>)
    requires On(s0, t, before, s, p) && p.pc.SwapLock? && p.lock == Unlocked
    ensures schedule == before + [(t, Advance(a))] + [(t, Advance(a))] + [(t, Advance(a))]
    ensures Slot in p.view && Arg(t) in p.view
    ensures On(s0, t, schedule, s', p.(pc := SwapEnd, view := p.view[Slot := p.view[Arg(t)]][Arg(t) := p.view[Slot]]))
  {
    hide Inv, View, Swap, RefCounted, Locals, Phase, Run;
    var s1 := Step(s, t, Advance(a)).value;
    Goes(s0, t, before, s, p, Advance(a), s1, p.(pc := SwapSlot, lock := HeldBy(t)));
    SlotSwap(s1, t);
    var v := p.view[Slot := p.view[Arg(t)]][Arg(t) := p.view[Slot]];
    var s2 := Step(s1, t, Advance(a)).value;
    Goes(s0, t, before + [(t, Advance(a))], s1, p.(pc := SwapSlot, lock := HeldBy(t)), Advance(a), s2,
         p.(pc := SwapUnlock, lock := HeldBy(t), view := v));
    s' := Step(s2, t, Advance(a)).value;
    schedule := before + [(t, Advance(a))] + [(t, Advance(a))];
    Goes(s0, t, schedule, s2, p.(pc := SwapUnlock, lock := HeldBy(t), view := v), Advance(a), s',
         p.(pc := SwapEnd, view := v));
    schedule := schedule + [(t, Advance(a))];
  }

  lemma ArgumentReturned<V>(s: State<V>, t: nat, m': Memory<V>)
    requires Inv(s) && t < |s.threads| && s.threads[t].pc.SwapEnd? && s.threads[t].op.ExchangeOp?
    requires m' == Swap(s.m, Arg(t), Ret(t))
    ensures var v := View(s.m); Arg(t) in v && Live(m', Ret(t)) && View(m') == (v - {Arg(t)})[Ret(t) := v[Arg(t)]]
  {
    Facts(s, t);
    hide Inv;
    SwapInView(s.m, Arg(t), Ret(t), m');
  }

  lemma ArgumentDropped<V>(s: State<V>, t: nat)
    requires Inv(s) && t < |s.threads| && s.threads[t].pc.SwapEnd?
    ensures var v := View(s.m);
            Arg(t) in v && Drop(s.m, Arg(t)).Ok? && View(Drop(s.m, Arg(t)).value) == v - {Arg(t)}
  {
    Facts(s, t);
    hide Inv;
    DropIsRemoval(s.m, Arg(t), Drop(s.m, Arg(t)));
  }

  lemma Finished<V>(s: State<V>, t: nat)
    requires t < |s.threads| && (s.threads[t].op.StoreOp? || Live(s.m, Ret(t)))
    ensures var s' := Finish(s, t);
            s'.m == s.m && s'.lock == s.lock && s'.threads == s.threads[t := s.threads[t].(pc := Done)]
  {
  }

  lemma ExchangeReturns<V>(s: State<V>, t: nat, a: Addr, m': Memory<V>) returns (s': State<V>)
    requires t < |s.threads| && s.threads[t].pc.SwapEnd? && s.threads[t].op.ExchangeOp?
    requires m' == Swap(s.m, Arg(t), Ret(t)) && Live(m', Ret(t))
    ensures Step(s, t, Advance(a)) == Ok(s') && Beside(s, t, s')
    ensures s'.m == m' && s'.lock == s.lock && s'.threads[t] == s.threads[t].(pc := Done)
  {
    hide Swap, Finish, Live;
    Finished(s.(m := m'), t);
    s' := Finish(s.(m := m'), t);
  }

  lemma ExchangeEnds<V>(s0: State<V>, t: nat, before: seq<(nat, Action<V>)>, s: State<V>, p: Point<V>, a: Addr)
    returns (s': State<V>)
    requires On(s0, t, before, s, p) && p.pc.SwapEnd? && p.op.ExchangeOp?
    ensures Arg(t) in p.view
    ensures On(s0, t, before + [(t, Advance(a))], s',
               p.(pc := Done, view := (p.view - {Arg(t)})[Ret(t) := p.view[Arg(t)]]))
  {
    hide Inv, View, Swap, Run, Step, Live;
    var m' := Swap(s.m, Arg(t), Ret(t));
    ArgumentReturned(s, t, m');
    s' := ExchangeReturns(s, t, a, m');
    Goes(s0, t, before, s, p, Advance(a), s',
         p.(pc := Done, view := (p.view - {Arg(t)})[Ret(t) := p.view[Arg(t)]]));
  }

  lemma StoreReturns<V>(s: State<V>, t: nat, a: Addr, m': Memory<V>) returns (s': State<V>)
    requires t < |s.threads| && s.threads[t].pc.SwapEnd? && s.threads[t].op.StoreOp?
    requires Drop(s.m, Arg(t)) == Ok(m')
    ensures Step(s, t, Advance(a)) == Ok(s') && Beside(s, t, s')
    ensures s'.m == m' && s'.lock == s.lock && s'.threads[t] == s.threads[t].(pc := Done)
  {
    hide Drop, Finish, Live;
    Finished(Goto(s.(m := m'), t, Done), t);
    s' := Finish(Goto(s.(m := m'), t, Done), t);
  }

  lemma StoreEnds<V>(s0: State<V>, t: nat, before: seq<(nat, Action<V>)>, s: State<V>, p: Point<V>, a: Addr)
    returns (s': State<V>)
    requires On(s0, t, before, s, p) && p.pc.SwapEnd? && p.op.StoreOp?
    ensures Arg(t) in p.view
    ensures On(s0, t, before + [(t, Advance(a))], s', p.(pc := Done, view := p.view - {Arg(t)}))
  {
    hide Inv, View, Drop, Run, Step;
    ArgumentDropped(s, t);
    s' := StoreReturns(s, t, a, Drop(s.m, Arg(t)).value);
    Goes(s0, t, before, s, p, Advance(a), s', p.(pc := Done, view := p.view - {Arg(t)}));
  }

  lemma Result<V>(s: State<V>, t: nat, i: nat)
    requires Inv(s) && t < |s.threads| && s.threads[t].pc.Done? && User(t, i) !in View(s.m)
    ensures var v := View(s.m);
            && User(t, i) !in s.m.box && (Ret(t) in v <==> !s.threads[t].op.StoreOp?)
            && View(Swap(s.m, Ret(t), User(t, i))) ==
               if s.threads[t].op.StoreOp? then v else (v - {Ret(t)})[User(t, i) := v[Ret(t)]]
  {
    Facts(s, t);
    hide Inv;
    SwapInView(s.m, Ret(t), User(t, i), Swap(s.m, Ret(t), User(t, i)));
  }

  /** The caller takes the result, if there is one. */
  lemma Taken<V>(s0: State<V>, t: nat, before: seq<(nat, Action<V>)>, s: State<V>, p: Point<V>, i: nat)
    returns (s': State<V>)
    requires On(s0, t, before, s, p) && p.pc.Done? && User(t, i) !in p.view
    ensures Ret(t) in p.view <==> !p.op.StoreOp?
    ensures On(s0, t, before + [(t, Take(i))], s',
               p.(pc := Idle, view := if p.op.StoreOp? then p.view
                                      else (p.view - {Ret(t)})[User(t, i) := p.view[Ret(t)]]))
  {
    Result(s, t, i);
    hide Inv, View, Swap, Run;
    s' := Step(s, t, Take(i)).value;
    Goes(s0, t, before, s, p, Take(i), s',
         p.(pc := Idle, view := if p.op.StoreOp? then p.view
                                else (p.view - {Ret(t)})[User(t, i) := p.view[Ret(t)]]));
  }

  /** An idle thread has no locals. */
  lemma NoLocals<V>(s: State<V>, t: nat)
    requires Inv(s) && t < |s.threads| && s.threads[t].pc.Idle?
    ensures Old(t) !in View(s.m) && New(t) !in View(s.m) && Arg(t) !in View(s.m) && Aux(t) !in View(s.m) &&
            Ret(t) !in View(s.m) && Slot in View(s.m)
  {
    Facts(s, t);
  }

  function Advances<V>(t: nat, a: Addr, n: nat): seq<(nat, Action<V>)> {
    seq(n, _ => (t, Advance(a)))
  }

  lemma ExchangeViews<V>(v: map<BoxId, V>, t: nat, i: nat, v1: map<BoxId, V>, v2: map<BoxId, V>, v3: map<BoxId, V>)
    requires Slot in v && User(t, i) in v && Arg(t) !in v && Ret(t) !in v
    requires v1 == (v - {User(t, i)})[Arg(t) := v[User(t, i)]]
    requires v2 == v1[Slot := v1[Arg(t)]][Arg(t) := v1[Slot]] && v3 == (v2 - {Arg(t)})[Ret(t) := v2[Arg(t)]]
    ensures User(t, i) !in v3
    ensures (v3 - {Ret(t)})[User(t, i) := v3[Ret(t)]] == v[Slot := v[User(t, i)]][User(t, i) := v[Slot]]
  {
  }

  /** `exchange`, alone: the box that was passed and the atom have traded values. */
  lemma ExchangeAlone<V>(s: State<V>, t: nat, i: nat, a: Addr, v: map<BoxId, V>) returns (s': State<V>)
    requires Inv(s) && s.lock == Unlocked && t < |s.threads| && s.threads[t].pc.Idle? && v == View(s.m)
    requires User(t, i) in v
    ensures Run(s, [(t, InvokeExchange(i))] + Advances(t, a, 4) + [(t, Take(i))]) == Ok(s')
    ensures Inv(s') && Beside(s, t, s') && s'.threads[t].pc == Idle && s'.lock == Unlocked
    ensures Slot in v && View(s'.m) == v[Slot := v[User(t, i)]][User(t, i) := v[Slot]]
  {
    hide Inv, View, Beside, Run, Step;
    NoLocals(s, t);
    Starts(s, t);
    var p := Point(s.threads[t].pc, s.threads[t].op, s.lock, v);
    var s1 := ExchangeInvoked(s, t, i, p);
    var p1 := Point(SwapLock, ExchangeOp(v[User(t, i)]), Unlocked, (v - {User(t, i)})[Arg(t) := v[User(t, i)]]);
    var schedule, s2 := SwapsInside(s, t, [] + [(t, InvokeExchange(i))], s1, p1, a);
    var p2 := p1.(pc := SwapEnd, view := p1.view[Slot := p1.view[Arg(t)]][Arg(t) := p1.view[Slot]]);
    var s3 := ExchangeEnds(s, t, schedule, s2, p2, a);
    var p3 := p2.(pc := Done, view := (p2.view - {Arg(t)})[Ret(t) := p2.view[Arg(t)]]);
    ExchangeViews(v, t, i, p1.view, p2.view, p3.view);
    s' := Taken(s, t, schedule + [(t, Advance(a))], s3, p3, i);
    assert schedule + [(t, Advance(a))] + [(t, Take(i))] ==
           [(t, InvokeExchange(i))] + Advances(t, a, 4) + [(t, Take(i))];
  }

  lemma StoreViews<V>(v: map<BoxId, V>, t: nat, i: nat, v1: map<BoxId, V>, v2: map<BoxId, V>)
    requires Slot in v && User(t, i) in v && Arg(t) !in v
    requires v1 == (v - {User(t, i)})[Arg(t) := v[User(t, i)]]
    requires v2 == v1[Slot := v1[Arg(t)]][Arg(t) := v1[Slot]]
    ensures v2 - {Arg(t)} == (v - {User(t, i)})[Slot := v[User(t, i)]]
  {
  }

  /** `store`, alone: the atom has the value of the box that was passed, which is moved from. */
  lemma StoreAlone<V>(s: State<V>, t: nat, i: nat, a: Addr, v: map<BoxId, V>) returns (s': State<V>)
    requires Inv(s) && s.lock == Unlocked && t < |s.threads| && s.threads[t].pc.Idle? && v == View(s.m)
    requires User(t, i) in v
    ensures Run(s, [(t, InvokeStore(i))] + Advances(t, a, 4) + [(t, Take(i))]) == Ok(s')
    ensures Inv(s') && Beside(s, t, s') && s'.threads[t].pc == Idle && s'.lock == Unlocked
    ensures View(s'.m) == (v - {User(t, i)})[Slot := v[User(t, i)]]
  {
    hide Inv, View, Beside, Run, Step;
    NoLocals(s, t);
    Starts(s, t);
    var p := Point(s.threads[t].pc, s.threads[t].op, s.lock, v);
    var s1 := StoreInvoked(s, t, i, p);
    var p1 := Point(SwapLock, StoreOp(v[User(t, i)]), Unlocked, (v - {User(t, i)})[Arg(t) := v[User(t, i)]]);
    var schedule, s2 := SwapsInside(s, t, [] + [(t, InvokeStore(i))], s1, p1, a);
    var p2 := p1.(pc := SwapEnd, view := p1.view[Slot := p1.view[Arg(t)]][Arg(t) := p1.view[Slot]]);
    var s3 := StoreEnds(s, t, schedule, s2, p2, a);
    StoreViews(v, t, i, p1.view, p2.view);
    s' := Taken(s, t, schedule + [(t, Advance(a))], s3, p2.(pc := Done, view := p2.view - {Arg(t)}), i);
    assert schedule + [(t, Advance(a))] + [(t, Take(i))] ==
           [(t, InvokeStore(i))] + Advances(t, a, 4) + [(t, Take(i))];
  }

  // ----- load

  lemma LoadInvoked<V>(s: State<V>, t: nat, act: Action<V>, op: AbsOp<V>, p: Point<V>) returns (s': State<V>)
    requires On(s, t, [], s, p) && p.pc.Idle?
    requires (act == InvokeLoad && op == LoadOp) || (act.InvokeUpdate? && op == UpdateOp(act.fn))
    ensures On(s, t, [] + [(t, act)], s', p.(pc := Lock1, op := op))
  {
    hide Inv, View, Swap, RefCounted, Run;
    s' := Step(s, t, act).value;
    Goes(s, t, [], s, p, act, s', p.(pc := Lock1, op := op));
  }

  lemma SlotCopy<V>(s: State<V>, t: nat)
    requires Inv(s) && t < |s.threads| && s.threads[t].pc.CopySlot?
    ensures Live(s.m, Slot) && Slot in s.m.box && Slot in View(s.m) && CopyTo(s.m, Old(t), Slot).Ok?
    ensures var m' := CopyTo(s.m, Old(t), Slot).value;
            View(m') == View(s.m)[Old(t) := View(s.m)[Slot]] && m'.box == s.m.box[Old(t) := s.m.box[Slot]]
    ensures CopyTo(s.m, Old(t), Slot).value.heap.Keys == s.m.heap.Keys
  {
    Facts(s, t);
    hide Inv;
    CopyIsAssignment(s.m, Old(t), Slot, CopyTo(s.m, Old(t), Slot));
  }

  /** Lock and copy. */
  lemma LoadsInside<V>(s0: State<V>, t: nat, before: seq<(nat, Action<V>)>, s: State<V>, p: Point<V>, a: Addr)
    returns (s': State<V>)
    requires On(s0, t, before, s, p) && p.pc.Lock1? && p.lock == Unlocked
    ensures Slot in p.view
    ensures On(s0, t, before + [(t, Advance(a))] + [(t, Advance(a))], s',
               p.(pc := Unlock1, lock := HeldBy(t), view := p.view[Old(t) := p.view[Slot]]))
    ensures Old(t) in s'.m.box && Slot in s'.m.box && s'.m.box[Old(t)] == s'.m.box[Slot]
    ensures s'.m.heap.Keys == s.m.heap.Keys
  {
    hide Inv, View, CopyTo, Run, Live, Installs;
    var s1 := Step(s, t, Advance(a)).value;
    OneMoved(s, t, s1);
    Goes(s0, t, before, s, p, Advance(a), s1, p.(pc := CopySlot, lock := HeldBy(t)));
    SlotCopy(s1, t);
    s' := Step(s1, t, Advance(a)).value;
    OneMoved(s1, t, s');
    Goes(s0, t, before + [(t, Advance(a))], s1, p.(pc := CopySlot, lock := HeldBy(t)), Advance(a), s',
         p.(pc := Unlock1, lock := HeldBy(t), view := p.view[Old(t) := p.view[Slot]]));
  }

  lemma OldMoved<V>(s: State<V>, t: nat)
    requires Inv(s) && t < |s.threads| && s.threads[t].pc.Unlock1? && s.threads[t].op.LoadOp?
    ensures var v, m' := View(s.m), Swap(s.m, Old(t), Ret(t));
            Old(t) in v && Live(m', Ret(t)) && View(m') == (v - {Old(t)})[Ret(t) := v[Old(t)]]
  {
    Facts(s, t);
    hide Inv;
    SwapInView(s.m, Old(t), Ret(t), Swap(s.m, Old(t), Ret(t)));
  }

  lemma LoadEnds<V>(s0: State<V>, t: nat, before: seq<(nat, Action<V>)>, s: State<V>, p: Point<V>, a: Addr)
    returns (s': State<V>)
    requires On(s0, t, before, s, p) && p.pc.Unlock1? && p.op.LoadOp?
    ensures Old(t) in p.view
    ensures On(s0, t, before + [(t, Advance(a))], s',
               p.(pc := Done, lock := Unlocked, view := (p.view - {Old(t)})[Ret(t) := p.view[Old(t)]]))
  {
    OldMoved(s, t);
    hide Inv, View, Swap, Run, Finish, Live, Beside;
    var s1 := Unlock(s.(m := Swap(s.m, Old(t), Ret(t))), t, Done);
    Finished(s1, t);
    s' := Finish(s1, t);
    OneMoved(s, t, s');
    Goes(s0, t, before, s, p, Advance(a), s',
         p.(pc := Done, lock := Unlocked, view := (p.view - {Old(t)})[Ret(t) := p.view[Old(t)]]));
  }

  lemma LoadViews<V>(v: map<BoxId, V>, t: nat, i: nat, v1: map<BoxId, V>, v2: map<BoxId, V>)
    requires Slot in v && User(t, i) !in v && Old(t) !in v && Ret(t) !in v
    requires v1 == v[Old(t) := v[Slot]] && v2 == (v1 - {Old(t)})[Ret(t) := v1[Old(t)]]
    ensures User(t, i) !in v2 && (v2 - {Ret(t)})[User(t, i) := v2[Ret(t)]] == v[User(t, i) := v[Slot]]
  {
  }

  /** `load`, alone: the caller gets a box with the atom's value. */
  lemma LoadAlone<V>(s: State<V>, t: nat, i: nat, a: Addr, v: map<BoxId, V>) returns (s': State<V>)
    requires Inv(s) && s.lock == Unlocked && t < |s.threads| && s.threads[t].pc.Idle? && v == View(s.m)
    requires User(t, i) !in v
    ensures Run(s, [(t, InvokeLoad)] + Advances(t, a, 3) + [(t, Take(i))]) == Ok(s')
    ensures Inv(s') && Beside(s, t, s') && s'.threads[t].pc == Idle && s'.lock == Unlocked
    ensures Slot in v && View(s'.m) == v[User(t, i) := v[Slot]]
  {
    hide Inv, View, Beside, Run, Step;
    NoLocals(s, t);
    Starts(s, t);
    var p := Point(s.threads[t].pc, s.threads[t].op, s.lock, v);
    var s1 := LoadInvoked(s, t, InvokeLoad, LoadOp, p);
    var p1 := p.(pc := Lock1, op := LoadOp);
    var schedule := [] + [(t, InvokeLoad)];
    var s2 := LoadsInside(s, t, schedule, s1, p1, a);
    var p2 := p1.(pc := Unlock1, lock := HeldBy(t), view := v[Old(t) := v[Slot]]);
    schedule := schedule + [(t, Advance(a))] + [(t, Advance(a))];
    var s3 := LoadEnds(s, t, schedule, s2, p2, a);
    var p3 := p2.(pc := Done, lock := Unlocked, view := (p2.view - {Old(t)})[Ret(t) := p2.view[Old(t)]]);
    LoadViews(v, t, i, p2.view, p3.view);
    s' := Taken(s, t, schedule + [(t, Advance(a))], s3, p3, i);
    assert schedule + [(t, Advance(a))] + [(t, Take(i))] ==
           [(t, InvokeLoad)] + Advances(t, a, 3) + [(t, Take(i))];
  }

  // ----- update

  /** The cell of the snapshot is the atom's. */
  ghost predicate SameCell<V>(s: State<V>, t: nat) {
    Old(t) in s.m.box && Slot in s.m.box && s.m.box[Old(t)] == s.m.box[Slot]
  }

  lemma Made<V>(s: State<V>, t: nat, a: Addr, fn: V -> V)
    requires Inv(s) && t < |s.threads| && s.threads[t].pc.Compute? && s.threads[t].op == UpdateOp(fn) && a !in s.m.heap
    ensures Live(s.m, Old(t)) && Old(t) in View(s.m) && s.m.heap[s.m.box[Old(t)]].value == View(s.m)[Old(t)]
    ensures var m' := Make(s.m, New(t), a, fn(View(s.m)[Old(t)]));
            View(m') == View(s.m)[New(t) := fn(View(s.m)[Old(t)])] && m'.box == s.m.box[New(t) := a]
  {
    Facts(s, t);
    hide Inv;
    var x := fn(View(s.m)[Old(t)]);
    MakeIsAssignment(s.m, New(t), a, x, Make(s.m, New(t), a, x));
  }

  /** Unlock and apply the function. */
  lemma Computes<V>(s0: State<V>, t: nat, before: seq<(nat, Action<V>)>, s: State<V>, p: Point<V>, a: Addr,
                    fn: V -> V) returns (s': State<V>)
    requires On(s0, t, before, s, p) && p.pc.Unlock1? && p.op == UpdateOp(fn) && a !in s.m.heap && SameCell(s, t)
    ensures Old(t) in p.view && SameCell(s', t)
    ensures On(s0, t, before + [(t, Advance(a))] + [(t, Advance(a))], s',
               p.(pc := Lock2, lock := Unlocked, view := p.view[New(t) := fn(p.view[Old(t)])]))
  {
    hide Inv, View, Make, Run, Live;
    var s1 := Step(s, t, Advance(a)).value;
    Goes(s0, t, before, s, p, Advance(a), s1, p.(pc := Compute, lock := Unlocked));
    Made(s1, t, a, fn);
    s' := Step(s1, t, Advance(a)).value;
    Goes(s0, t, before + [(t, Advance(a))], s1, p.(pc := Compute, lock := Unlocked), Advance(a), s',
         p.(pc := Lock2, lock := Unlocked, view := p.view[New(t) := fn(p.view[Old(t)])]));
  }

  /** Lock again and compare. */
  lemma Compares<V>(s0: State<V>, t: nat, before: seq<(nat, Action<V>)>, s: State<V>, p: Point<V>, a: Addr)
    returns (s': State<V>)
    requires On(s0, t, before, s, p) && p.pc.Lock2? && p.lock == Unlocked && SameCell(s, t)
    ensures On(s0, t, before + [(t, Advance(a))] + [(t, Advance(a))], s', p.(pc := InstallCopy, lock := HeldBy(t)))
  {
    hide Inv, View, Run, Live;
    var s1 := Step(s, t, Advance(a)).value;
    Goes(s0, t, before, s, p, Advance(a), s1, p.(pc := Compare, lock := HeldBy(t)));
    s' := Step(s1, t, Advance(a)).value;
    Goes(s0, t, before + [(t, Advance(a))], s1, p.(pc := Compare, lock := HeldBy(t)), Advance(a), s',
         p.(pc := InstallCopy, lock := HeldBy(t)));
  }

  lemma NewCopied<V>(s: State<V>, t: nat)
    requires Inv(s) && t < |s.threads| && s.threads[t].pc.InstallCopy?
    ensures var v, r := View(s.m), CopyTo(s.m, Aux(t), New(t));
            New(t) in v && r.Ok? && View(r.value) == v[Aux(t) := v[New(t)]]
  {
    Facts(s, t);
    hide Inv;
    CopyIsAssignment(s.m, Aux(t), New(t), CopyTo(s.m, Aux(t), New(t)));
  }

  lemma Installed<V>(s: State<V>, t: nat)
    requires Inv(s) && t < |s.threads| && s.threads[t].pc.InstallSwap?
    ensures var v := View(s.m);
            && Live(s.m, Slot) && Slot in v && Aux(t) in v
            && View(Swap(s.m, Slot, Aux(t))) == v[Slot := v[Aux(t)]][Aux(t) := v[Slot]]
  {
    Facts(s, t);
    hide Inv;
    SwapInView(s.m, Slot, Aux(t), Swap(s.m, Slot, Aux(t)));
  }

  lemma LocalDropped<V>(s: State<V>, k: BoxId)
    requires Inv(s)
    ensures Drop(s.m, k).Ok? && View(Drop(s.m, k).value) == View(s.m) - {k}
  {
    DropIsRemoval(s.m, k, Drop(s.m, k));
  }

  /** Copy, swap with the atom, drop the old value. */
  lemma InstallsInside<V>(s0: State<V>, t: nat, before: seq<(nat, Action<V>)>, s: State<V>, p: Point<V>, a: Addr)
    returns (schedule: seq<(nat, Action<V>)>, s': State<V>)
    requires On(s0, t, before, s, p) && p.pc.InstallCopy?
    ensures schedule == before + [(t, Advance(a))] + [(t, Advance(a))] + [(t, Advance(a))]
    ensures Slot in p.view && New(t) in p.view
    ensures On(s0, t, schedule, s', p.(pc := ReturnCopy, view := (p.view - {Aux(t)})[Slot := p.view[New(t)]]))
    ensures s'.threads[t].committed
  {
    hide Inv, View, CopyTo, Swap, Drop, Run, Live;
    var act := Advance(a);
    NewCopied(s, t);
    var v1 := p.view[Aux(t) := p.view[New(t)]];
    var s1 := Step(s, t, act).value;
    Goes(s0, t, before, s, p, act, s1, p.(pc := InstallSwap, view := v1));
    Installed(s1, t);
    var v2 := v1[Slot := v1[Aux(t)]][Aux(t) := v1[Slot]];
    var s2 := Step(s1, t, act).value;
    Goes(s0, t, before + [(t, act)], s1, p.(pc := InstallSwap, view := v1), act, s2, p.(pc := InstallDrop, view := v2));
    LocalDropped(s2, Aux(t));
    s' := Step(s2, t, act).value;
    schedule := before + [(t, act)] + [(t, act)];
    assert v2 - {Aux(t)} == (p.view - {Aux(t)})[Slot := p.view[New(t)]];
    Goes(s0, t, schedule, s2, p.(pc := InstallDrop, view := v2), act, s',
         p.(pc := ReturnCopy, view := (p.view - {Aux(t)})[Slot := p.view[New(t)]]));
    schedule := schedule + [(t, act)];
  }

  lemma ResultCopied<V>(s: State<V>, t: nat)
    requires Inv(s) && t < |s.threads| && s.threads[t].pc.ReturnCopy?
    ensures var v, r := View(s.m), CopyTo(s.m, Ret(t), New(t));
            New(t) in v && r.Ok? && View(r.value) == v[Ret(t) := v[New(t)]]
  {
    Facts(s, t);
    hide Inv;
    CopyIsAssignment(s.m, Ret(t), New(t), CopyTo(s.m, Ret(t), New(t)));
  }

  /** Copy the result, unlock, drop the new value's local. */
  lemma CleansUp<V>(s0: State<V>, t: nat, before: seq<(nat, Action<V>)>, s: State<V>, p: Point<V>, a: Addr)
    returns (schedule: seq<(nat, Action<V>)>, s': State<V>)
    requires On(s0, t, before, s, p) && p.pc.ReturnCopy? && s.threads[t].committed
    ensures schedule == before + [(t, Advance(a))] + [(t, Advance(a))] + [(t, Advance(a))]
    ensures New(t) in p.view
    ensures On(s0, t, schedule, s',
               p.(pc := DropOld, lock := Unlocked, view := p.view[Ret(t) := p.view[New(t)]] - {New(t)}))
    ensures s'.threads[t].committed
  {
    hide Inv, View, CopyTo, Drop, Run, Live;
    var act := Advance(a);
    ResultCopied(s, t);
    var v := p.view[Ret(t) := p.view[New(t)]];
    var s1 := Step(s, t, act).value;
    Goes(s0, t, before, s, p, act, s1, p.(pc := Unlock2, view := v));
    var s2 := Step(s1, t, act).value;
    Goes(s0, t, before + [(t, act)], s1, p.(pc := Unlock2, view := v), act, s2,
         p.(pc := DropNew, lock := Unlocked, view := v));
    LocalDropped(s2, New(t));
    s' := Step(s2, t, act).value;
    schedule := before + [(t, act)] + [(t, act)];
    Goes(s0, t, schedule, s2, p.(pc := DropNew, lock := Unlocked, view := v), act, s',
         p.(pc := DropOld, lock := Unlocked, view := v - {New(t)}));
    schedule := schedule + [(t, act)];
  }

  lemma OldDropped<V>(s: State<V>, t: nat)
    requires Inv(s) && t < |s.threads| && s.threads[t].pc.DropOld? && s.threads[t].committed
    ensures Drop(s.m, Old(t)).Ok? && View(Drop(s.m, Old(t)).value) == View(s.m) - {Old(t)}
    ensures Live(Drop(s.m, Old(t)).value, Ret(t))
  {
    Facts(s, t);
    hide Inv;
    DropIsRemoval(s.m, Old(t), Drop(s.m, Old(t)));
  }

  lemma UpdateReturns<V>(s: State<V>, t: nat, a: Addr, m': Memory<V>) returns (s': State<V>)
    requires t < |s.threads| && s.threads[t].pc.DropOld? && s.threads[t].committed
    requires Drop(s.m, Old(t)) == Ok(m') && Live(m', Ret(t))
    ensures Step(s, t, Advance(a)) == Ok(s') && Beside(s, t, s')
    ensures s'.m == m' && s'.lock == s.lock && s'.threads[t] == s.threads[t].(pc := Done)
  {
    hide Drop, Finish, Live;
    Finished(Goto(s.(m := m'), t, Done), t);
    s' := Finish(Goto(s.(m := m'), t, Done), t);
  }

  lemma UpdateEnds<V>(s0: State<V>, t: nat, before: seq<(nat, Action<V>)>, s: State<V>, p: Point<V>, a: Addr)
    returns (s': State<V>)
    requires On(s0, t, before, s, p) && p.pc.DropOld? && s.threads[t].committed
    ensures On(s0, t, before + [(t, Advance(a))], s', p.(pc := Done, view := p.view - {Old(t)}))
  {
    hide Inv, View, Drop, Run, Step, Live;
    OldDropped(s, t);
    s' := UpdateReturns(s, t, a, Drop(s.m, Old(t)).value);
    Goes(s0, t, before, s, p, Advance(a), s', p.(pc := Done, view := p.view - {Old(t)}));
  }

  lemma UpdateViews<V>(v: map<BoxId, V>, t: nat, i: nat, x: V, v1: map<BoxId, V>, v2: map<BoxId, V>, v3: map<BoxId, V>)
    requires Slot in v && User(t, i) !in v && Old(t) !in v && New(t) !in v && Aux(t) !in v && Ret(t) !in v
    requires v1 == v[Old(t) := v[Slot]][New(t) := x] && v2 == (v1 - {Aux(t)})[Slot := x]
    requires v3 == v2[Ret(t) := x] - {New(t)} - {Old(t)}
    ensures User(t, i) !in v3 && (v3 - {Ret(t)})[User(t, i) := v3[Ret(t)]] == v[Slot := x][User(t, i) := x]
  {
  }

  /** `update`, alone: the atom has `fn` of its value, and the caller gets a box with that too. */
  lemma UpdateAlone<V>(s: State<V>, t: nat, i: nat, fn: V -> V, a: Addr, v: map<BoxId, V>) returns (s': State<V>)
    requires Inv(s) && s.lock == Unlocked && t < |s.threads| && s.threads[t].pc.Idle? && v == View(s.m)
    requires User(t, i) !in v && a !in s.m.heap
    ensures Run(s, [(t, InvokeUpdate(fn))] + Advances(t, a, 13) + [(t, Take(i))]) == Ok(s')
    ensures Inv(s') && Beside(s, t, s') && s'.threads[t].pc == Idle && s'.lock == Unlocked
    ensures Slot in v && View(s'.m) == v[Slot := fn(v[Slot])][User(t, i) := fn(v[Slot])]
  {
    hide Inv, View, Beside, Run, Step;
    NoLocals(s, t);
    Starts(s, t);
    var p := Point(s.threads[t].pc, s.threads[t].op, s.lock, v);
    var schedule := [] + [(t, InvokeUpdate(fn))];
    var s1 := LoadInvoked(s, t, InvokeUpdate(fn), UpdateOp(fn), p);
    var p1 := p.(pc := Lock1, op := UpdateOp(fn));
    SameHeap(s, t, fn, s1);
    var s2 := LoadsInside(s, t, schedule, s1, p1, a);
    schedule := schedule + [(t, Advance(a))] + [(t, Advance(a))];
    var p2 := p1.(pc := Unlock1, lock := HeldBy(t), view := v[Old(t) := v[Slot]]);
    s' := UpdateRest(s, t, schedule, s2, p2, i, fn, a, v);
    assert schedule + Advances(t, a, 11) + [(t, Take(i))] ==
           [(t, InvokeUpdate(fn))] + Advances(t, a, 13) + [(t, Take(i))];
  }

  lemma SameHeap<V>(s: State<V>, t: nat, fn: V -> V, s1: State<V>)
    requires t < |s.threads| && s.threads[t].pc.Idle? && Run(s, [] + [(t, InvokeUpdate(fn))]) == Ok(s1)
    ensures s1.m == s.m
  {
    assert ([] + [(t, InvokeUpdate(fn))])[1..] == [];
  }

  /** From the snapshot on. */
  lemma UpdateRest<V>(s0: State<V>, t: nat, before: seq<(nat, Action<V>)>, s: State<V>, p: Point<V>, i: nat,
                      fn: V -> V, a: Addr, v: map<BoxId, V>) returns (s': State<V>)
    requires Slot in v && User(t, i) !in v && Old(t) !in v && New(t) !in v && Aux(t) !in v && Ret(t) !in v
    requires On(s0, t, before, s, p) && p.pc.Unlock1? && p.op == UpdateOp(fn) && p.view == v[Old(t) := v[Slot]]
    requires a !in s.m.heap && SameCell(s, t)
    ensures On(s0, t, before + Advances(t, a, 11) + [(t, Take(i))], s',
               Point(Idle, p.op, Unlocked, v[Slot := fn(v[Slot])][User(t, i) := fn(v[Slot])]))
  {
    hide On;
    var x := fn(v[Slot]);
    var sc := Computes(s0, t, before, s, p, a, fn);
    var schedule := before + [(t, Advance(a))] + [(t, Advance(a))];
    var p0 := p.(pc := Lock2, lock := Unlocked, view := p.view[New(t) := x]);
    var s1 := Compares(s0, t, schedule, sc, p0, a);
    schedule := schedule + [(t, Advance(a))] + [(t, Advance(a))];
    var p1 := p.(pc := InstallCopy, lock := HeldBy(t), view := p.view[New(t) := x]);
    var s2;
    schedule, s2 := InstallsInside(s0, t, schedule, s1, p1, a);
    var p2 := p1.(pc := ReturnCopy, view := (p1.view - {Aux(t)})[Slot := x]);
    var s3;
    schedule, s3 := CleansUp(s0, t, schedule, s2, p2, a);
    var p3 := p2.(pc := DropOld, lock := Unlocked, view := p2.view[Ret(t) := x] - {New(t)});
    var s4 := UpdateEnds(s0, t, schedule, s3, p3, a);
    var p4 := p3.(pc := Done, view := p3.view - {Old(t)});
    UpdateViews(v, t, i, x, p1.view, p2.view, p4.view);
    s' := Taken(s0, t, schedule + [(t, Advance(a))], s4, p4, i);
    assert schedule + [(t, Advance(a))] == before + Advances(t, a, 11);
  }
}
