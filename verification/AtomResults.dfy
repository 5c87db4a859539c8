/** The main results on the atom and the boxes, for every number of threads and every schedule. */
module AtomResults {
  import opened BoxHeap
  import opened Atom
  import opened AtomProof
  import opened AtomBooks

  /** Linearizability: the commits form a legal history of the sequential object whose last value is the
      atom's; every finished operation has a commit of its own, made between its invocation and its return,
      and returned what that commit says; and every commit is that of a finished or a running operation. */
  lemma Linearizable<V>(a: Addr, v: V, threads: nat, schedule: seq<(nat, Action<V>)>) returns (s: State<V>)
    ensures Run(Initial(a, v, threads), schedule) == Ok(s)
    ensures Legal(v, s.log) && Get(s.m, Slot) == Outcome<V>.Ok(ValueAfter(v, s.log))
    ensures Slot in View(s.m) && View(s.m)[Slot] == ValueAfter(v, s.log)
    ensures forall i, j :: 0 <= i < j < |s.log| ==> s.log[i].id != s.log[j].id
    ensures forall r :: r in s.done ==>
              r.start <= r.index < r.end <= |s.log| && s.log[r.index] == Entry(r.thread, r.id, r.op, r.result)
    ensures forall i, j :: 0 <= i < j < |s.done| ==> s.done[i].id != s.done[j].id && s.done[i].index != s.done[j].index
    ensures forall i :: 0 <= i < |s.log| ==> Claimed(s, i)
  {
    InitialInv(a, v, threads);
    RunKeepsInv(Initial(a, v, threads), schedule);
    RunKeepsBooks(Initial(a, v, threads), schedule);
    s := Run(Initial(a, v, threads), schedule).value;
    forall i, j | 0 <= i < j < |s.done|
      ensures s.done[i].id != s.done[j].id && s.done[i].index != s.done[j].index
    {
      assert Recorded(s.log, s.done[i]) && Recorded(s.log, s.done[j]);
    }
    RunKeepsInit(Initial(a, v, threads), schedule);
  }

  lemma {:induction false} RunKeepsInit<V>(s: State<V>, schedule: seq<(nat, Action<V>)>)
    requires Run(s, schedule).Ok?
    ensures Run(s, schedule).value.init == s.init
    decreases |schedule|
  {
    if schedule != [] {
      StepKeepsInit(s, schedule[0].0, schedule[0].1);
      RunKeepsInit(Step(s, schedule[0].0, schedule[0].1).value, schedule[1..]);
    }
  }

  lemma StepKeepsInit<V>(s: State<V>, t: nat, act: Action<V>)
    requires Step(s, t, act).Ok?
    ensures Step(s, t, act).value.init == s.init
  {
  }

  /** What some run of some number of threads comes to. */
  ghost predicate Reachable<V(!new)>(s: State<V>) {
    exists a: Addr, v: V, threads: nat,
        schedule: seq<(nat, Action<V>)> :: Run(Initial(a, v, threads), schedule) == Ok(s)
  }

  lemma ReachableInv<V(!new)>(s: State<V>)
    requires Reachable(s)
    ensures Inv(s)
  {
    var a: Addr, v: V, threads: nat, schedule: seq<(nat, Action<V>)> :| Run(Initial(a, v, threads), schedule) == Ok(s);
    InitialInv(a, v, threads);
    RunKeepsInv(Initial(a, v, threads), schedule);
  }

  /** Two threads never hold the lock at once. */
  lemma MutualExclusion<V(!new)>(s: State<V>, t: nat, u: nat)
    requires Reachable(s) && t < |s.threads| && u < |s.threads|
    requires Holding(s.threads[t].pc) && Holding(s.threads[u].pc)
    ensures t == u && s.lock == HeldBy(t)
  {
    ReachableInv(s);
    assert ThreadInv(s, t) && ThreadInv(s, u);
  }

  /** An operation that returned before another was invoked also commits before it. */
  lemma RealTimeOrder<V(!new)>(s: State<V>, r1: Record<V>, r2: Record<V>)
    requires Reachable(s) && r1 in s.done && r2 in s.done && r1.end <= r2.start
    ensures r1.index < r2.index < |s.log| && Returned(r1.op, ValueAfter(s.init, s.log[..r1.index])) == r1.result
  {
    ReachableInv(s);
    var i :| 0 <= i < |s.done| && s.done[i] == r1;
    var j :| 0 <= j < |s.done| && s.done[j] == r2;
    assert Recorded(s.log, s.done[i]) && Recorded(s.log, s.done[j]);
  }

  /** Equal pointers at the comparison mean an equal value: the local `oldv` keeps its cell
      alive, so the address cannot have been handed out again, and the value about to be
      installed is `fn` of the value the atom holds now. */
  lemma PointerComparisonIsSound<V(!new)>(s: State<V>, t: nat)
    requires Reachable(s) && t < |s.threads| && s.threads[t].pc.Compare?
    requires Old(t) in s.m.box && Slot in s.m.box && s.m.box[Old(t)] == s.m.box[Slot]
    ensures Live(s.m, Slot) && s.m.heap[s.m.box[Slot]].count >= 2
    ensures s.threads[t].op.UpdateOp?
    ensures Get(s.m, New(t)) == Outcome<V>.Ok(s.threads[t].op.fn(ValueAfter(s.init, s.log)))
  {
    ReachableInv(s);
    assert ThreadInv(s, t);
    var o := Owners(s.m.box, s.m.box[Slot]);
    assert {Slot, Old(t)} <= o;
    assert o == {Slot, Old(t)} + (o - {Slot, Old(t)});
  }

  /** A finished update failed at most as many comparisons as other threads installed values
      between its first load and its own commit. */
  lemma FailuresArePaidFor<V(!new)>(s: State<V>, r: Record<V>)
    requires Reachable(s) && r in s.done && r.op.UpdateOp?
    ensures r.index < |s.log| && r.fails <= Installs(s.log[..r.index], r.thread) - r.first
  {
    ReachableInv(s);
    var i :| 0 <= i < |s.done| && s.done[i] == r;
    assert Recorded(s.log, s.done[i]);
  }

  /** An update that has not committed yet has failed no more comparisons than others have installed values
      since its first load. */
  lemma RetriesArePaidFor<V(!new)>(s: State<V>, t: nat)
    requires Reachable(s) && t < |s.threads| && InUpdate(s.threads[t].pc) && !s.threads[t].committed
    ensures s.threads[t].op.UpdateOp? && s.threads[t].fails <= Installs(s.log, t) - s.threads[t].first
  {
    ReachableInv(s);
    assert ThreadInv(s, t);
  }

  /** Updating an rvalue box in place is, for every box in the program, an assignment to
      that box alone. */
  lemma RvalueUpdateIsAssignment<V(!new)>(s: State<V>, t: nat, a: Addr, r: Outcome<State<V>>)
    requires Reachable(s) && t < |s.threads| && s.threads[t].pc.MutateInPlace? && r == Next(s, t, a)
    ensures var k := User(t, s.threads[t].pc.i);
            r.Ok? && k in View(s.m) && View(r.value.m) == View(s.m)[k := s.threads[t].pc.fn(View(s.m)[k])]
  {
    ReachableInv(s);
    assert ThreadInv(s, t);
    var k, fn := User(t, s.threads[t].pc.i), s.threads[t].pc.fn;
    MutateUnsharedIsAssignment(s.m, k, fn(View(s.m)[k]), Mutate(s.m, k, fn(View(s.m)[k])));
  }

  /** The other branch first makes a cell for `fn` of the box's value. */
  lemma RvalueReplaceAllocates<V(!new)>(s: State<V>, t: nat, a: Addr, r: Outcome<State<V>>)
    requires Reachable(s) && t < |s.threads| && s.threads[t].pc.Replace? && a !in s.m.heap && r == Next(s, t, a)
    ensures r.Ok? && |r.value.threads| == |s.threads|
    ensures var k := User(t, s.threads[t].pc.i);
            k in View(s.m) && View(r.value.m) == View(s.m)[Aux(t) := s.threads[t].pc.fn(View(s.m)[k])] &&
            r.value.threads[t].pc == AssignSwap(s.threads[t].pc.i, s.threads[t].pc.fn(View(s.m)[k]))
  {
    ReachableInv(s);
    assert ThreadInv(s, t);
    hide Locals, Phase, Progress;
    var k := User(t, s.threads[t].pc.i);
    Seen(s.m, k);
    PrivateMake(s.m, Aux(t), a, s.threads[t].pc.fn(View(s.m)[k]), t, r.value.m);
  }

  /** And then gives it to the box, whose old cell goes to the temporary. */
  lemma RvalueReplaceIsAssignment<V>(s: State<V>, t: nat, a: Addr, r: Outcome<State<V>>)
    requires Inv(s) && t < |s.threads| && s.threads[t].pc.AssignSwap? && r == Next(s, t, a)
    ensures r.Ok? && RefCounted(r.value.m)
    ensures var k := User(t, s.threads[t].pc.i); k in r.value.m.box && View(r.value.m)[k] == s.threads[t].pc.v
    ensures forall j :: j != User(t, s.threads[t].pc.i) && j != Aux(t) && j in s.m.box ==>
              j in r.value.m.box && View(r.value.m)[j] == View(s.m)[j]
  {
    hide Locals, Phase, Progress, View, RefCounted;
    assert ThreadInv(s, t);
    AssignSwapHasAux(s.m.box, t, s.threads[t]);
    SwapIsSwap(s.m, User(t, s.threads[t].pc.i), Aux(t), Swap(s.m, User(t, s.threads[t].pc.i), Aux(t)));
  }

  lemma AssignSwapHasAux<V>(box: map<BoxId, Addr>, t: nat, thr: Thread<V>)
    requires Locals(box, t, thr) && thr.pc.AssignSwap?
    ensures Aux(t) in box
  {
  }

  /** Whatever one thread does, the values in the boxes of the others stay. */
  lemma OtherBoxesKeepTheirValues<V>(s: State<V>, t: nat, act: Action<V>, k: BoxId)
    requires Inv(s) && k in s.m.box && k != Slot && k.owner != t
    ensures Step(s, t, act).Ok? && k in View(Step(s, t, act).value.m)
    ensures View(Step(s, t, act).value.m)[k] == View(s.m)[k]
  {
    hide Next, Start;
    var r := Step(s, t, act);
    if act.ReleaseCell? {
      if act.a in s.m.heap && s.m.heap[act.a].count == 0 {
        ReleaseIsInvisible(s.m, act.a);
      }
    } else if t < |s.threads| {
      assert ThreadInv(s, t);
      assert Base(s, t);
      if act.Advance? {
        NextKeeps(s, t, act.a, r);
      } else if act.Take? {
        if s.threads[t].pc.Done? && User(t, act.i) !in s.m.box {
          TakeKeeps(s, t, act.i, r.value);
        }
      } else if s.threads[t].pc.Idle? {
        StartKeeps(s, t, act, r);
      }
    }
  }
}
