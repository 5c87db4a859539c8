/** In every run: which operation a call is, and what its caller gets. */
module AtomReturns {
  import opened BoxHeap
  import opened Atom
  import opened AtomProof
  import opened AtomResults
  import opened AtomCalls

  /** The record of a finished operation, and its result in the thread's hands. */
  ghost predicate HasResult<V>(s: State<V>, t: nat, op: AbsOp<V>, id: nat, j: nat) {
    && j < |s.done| && s.done[j].thread == t && s.done[j].id == id && s.done[j].op == op
    && (op.StoreOp? || (Ret(t) in View(s.m) && View(s.m)[Ret(t)] == s.done[j].result))
  }

  /** The thread is in this operation, or has come back from it and not given the result away. */
  ghost predicate Calling<V>(s: State<V>, t: nat, op: AbsOp<V>, id: nat) {
    && t < |s.threads| && s.threads[t].op == op && s.threads[t].id == id
    && (Active(s.threads[t].pc) || (s.threads[t].pc.Done? && exists j: nat :: HasResult(s, t, op, id, j)))
  }

  /** What a call is, by the value of the box that is passed. */
  ghost predicate Means<V>(s: State<V>, t: nat, act: Action<V>, op: AbsOp<V>) {
    match act
    case InvokeLoad => op == LoadOp
    case InvokeUpdate(fn) => op == UpdateOp(fn)
    case InvokeStore(i) => User(t, i) in View(s.m) && op == StoreOp(View(s.m)[User(t, i)])
    case InvokeExchange(i) => User(t, i) in View(s.m) && op == ExchangeOp(View(s.m)[User(t, i)])
    case _ => false
  }

  lemma Invoked<V>(s: State<V>, t: nat, act: Action<V>, op: AbsOp<V>)
    requires Inv(s) && t < |s.threads| && s.threads[t].pc.Idle? && Means(s, t, act, op)
    ensures Step(s, t, act).Ok? && Calling(Step(s, t, act).value, t, op, s.nextId)
  {
    StepKeepsInv(s, t, act);
    hide Inv, Swap, HasResult;
  }

  // ----- the steps of the thread itself

  ghost predicate GoesOn<V>(s: State<V>, t: nat, s': State<V>) {
    && t < |s.threads| == |s'.threads|
    && s'.threads[t].op == s.threads[t].op && s'.threads[t].id == s.threads[t].id
    && (Active(s'.threads[t].pc) || (s'.threads[t].pc.Done? && GetsRecord(s, t, s')))
  }

  ghost predicate GetsRecord<V>(s: State<V>, t: nat, s': State<V>)
    requires t < |s.threads|
  {
    && |s'.done| == |s.done| + 1
    && var r, thr := s'.done[|s.done|], s.threads[t];
    && r.thread == t && r.id == thr.id && r.op == thr.op
    && (thr.op.StoreOp? || (Live(s'.m, Ret(t)) && r.result == s'.m.heap[s'.m.box[Ret(t)]].value))
  }

  lemma LoadGoesOn<V>(s: State<V>, t: nat)
    requires t < |s.threads| && InLoad(s.threads[t].pc) && NextLoad(s, t).Ok?
    ensures GoesOn(s, t, NextLoad(s, t).value)
  {
    hide Swap, CopyTo, Installs;
  }

  lemma AttemptGoesOn<V>(s: State<V>, t: nat, a: Addr)
    requires t < |s.threads| && InUpdate(s.threads[t].pc) && NextAttempt(s, t, a).Ok?
    ensures GoesOn(s, t, NextAttempt(s, t, a).value)
  {
    hide Swap, CopyTo, Make;
  }

  lemma CleanupGoesOn<V>(s: State<V>, t: nat)
    requires t < |s.threads| && InUpdate(s.threads[t].pc) && NextCleanup(s, t).Ok?
    ensures GoesOn(s, t, NextCleanup(s, t).value)
  {
    hide CopyTo, Drop;
  }

  lemma SwapGoesOn<V>(s: State<V>, t: nat)
    requires t < |s.threads| && InSwap(s.threads[t].pc) && NextSwap(s, t).Ok?
    ensures GoesOn(s, t, NextSwap(s, t).value)
  {
    hide Swap, Drop;
  }

  lemma NextGoesOn<V>(s: State<V>, t: nat, a: Addr)
    requires t < |s.threads| && Active(s.threads[t].pc) && Next(s, t, a).Ok?
    ensures GoesOn(s, t, Next(s, t, a).value)
  {
    hide GoesOn, NextLoad, NextAttempt, NextCleanup, NextSwap, NextBox;
    match s.threads[t].pc
    case Lock1 | CopySlot | Unlock1 => LoadGoesOn(s, t);
    case Compute | Lock2 | Compare | InstallCopy | InstallSwap => AttemptGoesOn(s, t, a);
    case InstallDrop | ReturnCopy | Unlock2 | DropNew | DropOld => CleanupGoesOn(s, t);
    case SwapLock | SwapSlot | SwapUnlock | SwapEnd => SwapGoesOn(s, t);
  }

  // ----- the steps of the others

  ghost predicate LeavesAlone<V>(s: State<V>, t: nat, s': State<V>) {
    t < |s.threads| == |s'.threads| && s'.threads[t] == s.threads[t] && |s.done| <= |s'.done| &&
    s'.done[..|s.done|] == s.done
  }

  lemma NextOfOther<V>(s: State<V>, u: nat, a: Addr, t: nat)
    requires u < |s.threads| && t < |s.threads| && t != u && Next(s, u, a).Ok?
    ensures LeavesAlone(s, t, Next(s, u, a).value)
  {
    hide NextLoad, NextAttempt, NextCleanup, NextSwap, NextBox, LeavesAlone;
    match s.threads[u].pc
    case Lock1 | CopySlot | Unlock1 => LoadOfOther(s, u, t);
    case Compute | Lock2 | Compare | InstallCopy | InstallSwap => AttemptOfOther(s, u, a, t);
    case InstallDrop | ReturnCopy | Unlock2 | DropNew | DropOld => CleanupOfOther(s, u, t);
    case SwapLock | SwapSlot | SwapUnlock | SwapEnd => SwapOfOther(s, u, t);
    case _ => BoxOfOther(s, u, a, t);
  }

  lemma LoadOfOther<V>(s: State<V>, u: nat, t: nat)
    requires u < |s.threads| && t < |s.threads| && t != u && NextLoad(s, u).Ok?
    ensures LeavesAlone(s, t, NextLoad(s, u).value)
  {
    hide Swap, CopyTo, Installs;
  }

  lemma AttemptOfOther<V>(s: State<V>, u: nat, a: Addr, t: nat)
    requires u < |s.threads| && t < |s.threads| && t != u && NextAttempt(s, u, a).Ok?
    ensures LeavesAlone(s, t, NextAttempt(s, u, a).value)
  {
    hide Swap, CopyTo, Make;
  }

  lemma CleanupOfOther<V>(s: State<V>, u: nat, t: nat)
    requires u < |s.threads| && t < |s.threads| && t != u && NextCleanup(s, u).Ok?
    ensures LeavesAlone(s, t, NextCleanup(s, u).value)
  {
    hide CopyTo, Drop;
  }

  lemma SwapOfOther<V>(s: State<V>, u: nat, t: nat)
    requires u < |s.threads| && t < |s.threads| && t != u && NextSwap(s, u).Ok?
    ensures LeavesAlone(s, t, NextSwap(s, u).value)
  {
    hide Swap, Drop;
  }

  lemma BoxOfOther<V>(s: State<V>, u: nat, a: Addr, t: nat)
    requires u < |s.threads| && t < |s.threads| && t != u && NextBox(s, u, a).Ok?
    ensures LeavesAlone(s, t, NextBox(s, u, a).value)
  {
    hide Swap, Drop, Make, Mutate;
  }

  lemma StartOfOther<V>(s: State<V>, u: nat, act: Action<V>, t: nat)
    requires u < |s.threads| && t < |s.threads| && t != u && Start(s, u, act).Ok?
    ensures LeavesAlone(s, t, Start(s, u, act).value)
  {
    hide Swap, Drop, Make, CopyTo;
  }

  lemma StepOfOther<V>(s: State<V>, u: nat, act: Action<V>, t: nat)
    requires t < |s.threads| && (t != u || act.ReleaseCell?) && Step(s, u, act).Ok?
    ensures LeavesAlone(s, t, Step(s, u, act).value)
  {
    hide Next, Start, Swap, Release;
    if !act.ReleaseCell? && u < |s.threads| {
      if act.Advance? {
        NextOfOther(s, u, act.a, t);
      } else if !act.Take? && s.threads[u].pc.Idle? {
        StartOfOther(s, u, act, t);
      }
    }
  }

  // ----- over runs

  lemma StaysWithResult<V>(s: State<V>, s': State<V>, t: nat, op: AbsOp<V>, id: nat)
    requires Calling(s, t, op, id) && LeavesAlone(s, t, s')
    requires s.threads[t].pc.Done? && !op.StoreOp? ==>
               Ret(t) in View(s.m) && Ret(t) in View(s'.m) && View(s'.m)[Ret(t)] == View(s.m)[Ret(t)]
    ensures Calling(s', t, op, id)
  {
    hide View;
    if s.threads[t].pc.Done? {
      var j: nat :| HasResult(s, t, op, id, j);
      assert s'.done[j] == s'.done[..|s.done|][j];
      assert HasResult(s', t, op, id, j);
    }
  }

  lemma GotResult<V>(s: State<V>, s': State<V>, t: nat, op: AbsOp<V>, id: nat)
    requires Calling(s, t, op, id) && Active(s.threads[t].pc) && GoesOn(s, t, s')
    ensures Calling(s', t, op, id)
  {
    if s'.threads[t].pc.Done? {
      assert HasResult(s', t, op, id, |s.done|);
    }
  }

  lemma ReleaseShowsNothing<V>(s: State<V>, u: nat, act: Action<V>)
    requires Inv(s) && act.ReleaseCell?
    ensures Step(s, u, act).Ok? && View(Step(s, u, act).value.m) == View(s.m)
  {
    if act.a in s.m.heap && s.m.heap[act.a].count == 0 {
      ReleaseIsInvisible(s.m, act.a);
    }
  }

  lemma ResultHeld<V>(s: State<V>, t: nat, op: AbsOp<V>, id: nat)
    requires Inv(s) && Calling(s, t, op, id) && s.threads[t].pc.Done? && !op.StoreOp?
    ensures Ret(t) in View(s.m) && Ret(t) in s.m.box
  {
  }

  /** A step of any thread leaves the call what it is, unless its result is taken. */
  lemma StepKeepsCalling<V>(s: State<V>, u: nat, act: Action<V>, t: nat, op: AbsOp<V>, id: nat)
    requires Inv(s) && Calling(s, t, op, id) && (u == t ==> !act.Take?)
    ensures Step(s, u, act).Ok? && Calling(Step(s, u, act).value, t, op, id)
  {
    StepKeepsInv(s, u, act);
    var s' := Step(s, u, act).value;
    if u != t || act.ReleaseCell? {
      StepOfOther(s, u, act, t);
      if s.threads[t].pc.Done? && !op.StoreOp? {
        ResultHeld(s, t, op, id);
        if act.ReleaseCell? {
          ReleaseShowsNothing(s, u, act);
        } else {
          OtherBoxesKeepTheirValues(s, u, act, Ret(t));
        }
      }
      hide Step, Inv, View, Calling;
      StaysWithResult(s, s', t, op, id);
    } else if Active(s.threads[t].pc) {
      if act.Advance? {
        NextGoesOn(s, t, act.a);
        hide Inv, Next, Calling, GoesOn;
        GotResult(s, s', t, op, id);
      }
    } else {
      assert s' == s;
    }
  }

  ghost predicate NoTake<V>(schedule: seq<(nat, Action<V>)>, t: nat) {
    forall k :: 0 <= k < |schedule| && schedule[k].0 == t ==> !schedule[k].1.Take?
  }

  lemma {:induction false} RunKeepsCalling<V>(
    s: State<V>, schedule: seq<(nat, Action<V>)>, t: nat, op: AbsOp<V>, id: nat)
    requires Inv(s) && Calling(s, t, op, id) && NoTake(schedule, t)
    ensures Run(s, schedule).Ok? && Inv(Run(s, schedule).value) && Calling(Run(s, schedule).value, t, op, id)
    decreases |schedule|
  {
    hide Inv, Step, Calling;
    if schedule != [] {
      StepKeepsCalling(s, schedule[0].0, schedule[0].1, t, op, id);
      StepKeepsInv(s, schedule[0].0, schedule[0].1);
      RunKeepsCalling(Step(s, schedule[0].0, schedule[0].1).value, schedule[1..], t, op, id);
    }
  }

  /** In every run: once a call has come back, a finished operation is recorded for it that is the one it asked for,
      with the value of the box it passed; and the box that takes the result holds the recorded result. With the
      atom's linearizability that says what callers get. */
  lemma CallReturns<V>(s: State<V>, t: nat, act: Action<V>, op: AbsOp<V>, more: seq<(nat, Action<V>)>, i: nat)
    returns (s': State<V>, j: nat)
    requires Inv(s) && t < |s.threads| && s.threads[t].pc.Idle? && Means(s, t, act, op) && NoTake(more, t)
    ensures Run(s, [(t, act)] + more) == Ok(s') && t < |s'.threads|
    ensures s'.threads[t].pc.Done? ==>
              j < |s'.done| && s'.done[j].thread == t && s'.done[j].id == s.nextId && s'.done[j].op == op
    ensures s'.threads[t].pc.Done? && !op.StoreOp? && User(t, i) !in View(s'.m) ==>
              var r := Step(s', t, Take(i));
              r.Ok? && User(t, i) in View(r.value.m) && View(r.value.m)[User(t, i)] == s'.done[j].result
  {
    hide Inv, Step, View, Calling, Means, Run, HasResult;
    Invoked(s, t, act, op);
    StepKeepsInv(s, t, act);
    var s1 := Step(s, t, act).value;
    RunKeepsCalling(s1, more, t, op, s.nextId);
    s' := Run(s1, more).value;
    RunStarts(s, t, act, s1, more);
    j := Ended(s', t, op, s.nextId, i);
  }

  lemma RunStarts<V>(s: State<V>, t: nat, act: Action<V>, s1: State<V>, more: seq<(nat, Action<V>)>)
    requires Step(s, t, act) == Ok(s1)
    ensures Run(s, [(t, act)] + more) == Run(s1, more)
  {
    hide Step;
    assert ([(t, act)] + more)[1..] == more;
  }

  lemma Ended<V>(s: State<V>, t: nat, op: AbsOp<V>, id: nat, i: nat) returns (j: nat)
    requires Inv(s) && Calling(s, t, op, id)
    ensures t < |s.threads|
    ensures s.threads[t].pc.Done? ==>
              j < |s.done| && s.done[j].thread == t && s.done[j].id == id && s.done[j].op == op
    ensures s.threads[t].pc.Done? && !op.StoreOp? && User(t, i) !in View(s.m) ==>
              var r := Step(s, t, Take(i));
              r.Ok? && User(t, i) in View(r.value.m) && View(r.value.m)[User(t, i)] == s.done[j].result
  {
    hide Inv, Step, View;
    j := 0;
    if s.threads[t].pc.Done? {
      j :| HasResult(s, t, op, id, j);
      if !op.StoreOp? && User(t, i) !in View(s.m) {
        TakeGives(s, t, i);
      }
    }
  }

  lemma TakeGives<V>(s: State<V>, t: nat, i: nat)
    requires Inv(s) && t < |s.threads| && s.threads[t].pc.Done? && User(t, i) !in View(s.m)
    requires !s.threads[t].op.StoreOp?
    ensures var r := Step(s, t, Take(i));
            r.Ok? && Ret(t) in View(s.m) && User(t, i) in View(r.value.m) &&
            View(r.value.m)[User(t, i)] == View(s.m)[Ret(t)]
  {
    Result(s, t, i);
    hide Inv, View, Swap;
  }
}
