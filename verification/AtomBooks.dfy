/** Which operation each commit belongs to. */
module AtomBooks {
  import opened BoxHeap
  import opened Atom
  import opened AtomProof

  /** Commit `i` is that of a finished operation or of one that a thread is in. */
  ghost predicate Claimed<V>(s: State<V>, i: nat) {
    || (exists j :: 0 <= j < |s.done| && s.done[j].index == i)
    || (exists t ::
          0 <= t < |s.threads| && Active(s.threads[t].pc) && s.threads[t].committed && s.threads[t].index == i)
  }

  /** Finished and running operations all have identifiers of their own, and every commit has an operation. */
  ghost predicate Books<V>(s: State<V>) {
    && (forall i, j :: 0 <= i < j < |s.done| ==> s.done[i].id != s.done[j].id)
    && (forall i :: 0 <= i < |s.done| ==> s.done[i].id < s.nextId)
    && (forall i, t :: 0 <= i < |s.done| && 0 <= t < |s.threads| && Active(s.threads[t].pc) ==>
          s.done[i].id != s.threads[t].id)
    && (forall i :: 0 <= i < |s.log| ==> Claimed(s, i))
  }

  // ----- the four kinds of step

  ghost predicate Quiet<V>(s: State<V>, s': State<V>, thr: Thread<V>, thr': Thread<V>) {
    && s'.log == s.log && s'.done == s.done && s'.nextId == s.nextId
    && (Active(thr'.pc) ==> Active(thr.pc) && thr'.id == thr.id)
    && (Active(thr.pc) && thr.committed ==> Active(thr'.pc) && thr'.committed && thr'.index == thr.index)
  }

  ghost predicate Begins<V>(s: State<V>, s': State<V>, thr: Thread<V>, thr': Thread<V>) {
    s'.log == s.log && s'.done == s.done && s'.nextId == s.nextId + 1 && !Active(thr.pc) && thr'.id == s.nextId
  }

  ghost predicate Commits<V>(s: State<V>, s': State<V>, thr: Thread<V>, thr': Thread<V>) {
    && |s'.log| == |s.log| + 1 && s'.done == s.done && s'.nextId == s.nextId
    && Active(thr.pc) && !thr.committed
    && Active(thr'.pc) && thr'.id == thr.id && thr'.committed && thr'.index == |s.log|
  }

  ghost predicate Returns<V>(s: State<V>, s': State<V>, thr: Thread<V>, thr': Thread<V>) {
    && s'.log == s.log && s'.nextId == s.nextId && |s'.done| == |s.done| + 1 && s'.done[..|s.done|] == s.done
    && s'.done[|s.done|].id == thr.id && s'.done[|s.done|].index == thr.index
    && Active(thr.pc) && thr.committed && !Active(thr'.pc)
  }

  ghost predicate BookStep<V>(s: State<V>, s': State<V>, t: nat) {
    && t < |s.threads| == |s'.threads|
    && (forall u :: 0 <= u < |s.threads| && u != t ==> s'.threads[u] == s.threads[u])
    && var thr, thr' := s.threads[t], s'.threads[t];
    (Quiet(s, s', thr, thr') || Begins(s, s', thr, thr') || Commits(s, s', thr, thr') || Returns(s, s', thr, thr'))
  }

  lemma ClaimKept<V>(s: State<V>, s': State<V>, t: nat, i: nat)
    requires BookStep(s, s', t) && i < |s.log| && Claimed(s, i)
    ensures Claimed(s', i)
  {
    if j :| 0 <= j < |s.done| && s.done[j].index == i {
      assert s'.done[j].index == i;
    } else {
      var u :| 0 <= u < |s.threads| && Active(s.threads[u].pc) && s.threads[u].committed && s.threads[u].index == i;
      if u == t && Returns(s, s', s.threads[t], s'.threads[t]) {
        assert s'.done[|s.done|].index == i;
      } else {
        assert Active(s'.threads[u].pc) && s'.threads[u].committed && s'.threads[u].index == i;
      }
    }
  }

  lemma BookStepKeeps<V>(s: State<V>, s': State<V>, t: nat)
    requires Books(s) && BookStep(s, s', t)
    requires forall u :: 0 <= u < |s.threads| && Active(s.threads[u].pc) ==> s.threads[u].id < s.nextId
    requires DistinctIds(s)
    ensures Books(s')
  {
    hide Claimed;
    forall i | 0 <= i < |s'.log| ensures Claimed(s', i) {
      if i < |s.log| {
        ClaimKept(s, s', t, i);
      } else {
        OwnClaim(s', t, i);
      }
    }
  }

  lemma OwnClaim<V>(s: State<V>, t: nat, i: nat)
    requires t < |s.threads| && Active(s.threads[t].pc) && s.threads[t].committed && s.threads[t].index == i
    ensures Claimed(s, i)
  {
  }

  // ----- every step is of one of the kinds

  lemma LoadBooks<V>(s: State<V>, t: nat, r: Outcome<State<V>>)
    requires t < |s.threads| && InLoad(s.threads[t].pc) && r == NextLoad(s, t) && r.Ok?
    requires if s.threads[t].pc.Unlock1? && s.threads[t].op.LoadOp? then s.threads[t].committed
             else !s.threads[t].committed
    ensures BookStep(s, r.value, t)
  {
    hide Swap, CopyTo;
  }

  lemma AttemptBooks<V>(s: State<V>, t: nat, a: Addr, r: Outcome<State<V>>)
    requires t < |s.threads| && InUpdate(s.threads[t].pc) && r == NextAttempt(s, t, a) && r.Ok?
    requires s.threads[t].pc.InstallSwap? ==> !s.threads[t].committed
    ensures BookStep(s, r.value, t)
  {
    hide Swap, CopyTo, Make;
  }

  lemma CleanupBooks<V>(s: State<V>, t: nat, r: Outcome<State<V>>)
    requires t < |s.threads| && InUpdate(s.threads[t].pc) && r == NextCleanup(s, t) && r.Ok?
    ensures BookStep(s, r.value, t)
  {
    hide Drop, CopyTo;
  }

  lemma SwapBooks<V>(s: State<V>, t: nat, r: Outcome<State<V>>)
    requires t < |s.threads| && InSwap(s.threads[t].pc) && r == NextSwap(s, t) && r.Ok?
    requires if s.threads[t].pc.SwapLock? || s.threads[t].pc.SwapSlot? then !s.threads[t].committed
             else s.threads[t].committed
    ensures BookStep(s, r.value, t)
  {
    hide Drop, Swap;
  }

  lemma BoxBooks<V>(s: State<V>, t: nat, a: Addr, r: Outcome<State<V>>)
    requires t < |s.threads| && !Active(s.threads[t].pc) && r == NextBox(s, t, a) && r.Ok?
    ensures BookStep(s, r.value, t)
  {
    hide Drop, Swap, Mutate, Make;
  }

  lemma StartBooks<V>(s: State<V>, t: nat, act: Action<V>, r: Outcome<State<V>>)
    requires t < |s.threads| && s.threads[t].pc.Idle? && r == Start(s, t, act) && r.Ok?
    ensures BookStep(s, r.value, t)
  {
    hide Drop, Swap, CopyTo, Make;
  }

  lemma NextBooks<V>(s: State<V>, t: nat, a: Addr, r: Outcome<State<V>>)
    requires t < |s.threads| && Phase(s.log, t, s.threads[t]) && r == Next(s, t, a) && r.Ok?
    ensures BookStep(s, r.value, t)
  {
    hide BookStep, NextLoad, NextAttempt, NextCleanup, NextSwap, NextBox;
    match s.threads[t].pc
    case Lock1 | CopySlot | Unlock1 => LoadBooks(s, t, r);
    case Compute | Lock2 | Compare | InstallCopy | InstallSwap => AttemptBooks(s, t, a, r);
    case InstallDrop | ReturnCopy | Unlock2 | DropNew | DropOld => CleanupBooks(s, t, r);
    case SwapLock | SwapSlot | SwapUnlock | SwapEnd => SwapBooks(s, t, r);
    case _ => BoxBooks(s, t, a, r);
  }

  lemma StepKeepsBooks<V>(s: State<V>, t: nat, act: Action<V>)
    requires Inv(s) && Books(s)
    ensures Step(s, t, act).Ok? && Books(Step(s, t, act).value)
  {
    StepKeepsInv(s, t, act);
    var r := Step(s, t, act);
    if act.ReleaseCell? || t >= |s.threads| {
      BooksElsewhere(s, r.value);
    } else {
      forall u | 0 <= u < |s.threads| && Active(s.threads[u].pc) ensures s.threads[u].id < s.nextId {
        assert ThreadInv(s, u);
      }
      assert ThreadInv(s, t);
      hide Next, Start, Books, BookStep;
      if act.Advance? {
        NextBooks(s, t, act.a, r);
        BookStepKeeps(s, r.value, t);
      } else if act.Take? {
        if s.threads[t].pc.Done? && User(t, act.i) !in s.m.box {
          TakeBooks(s, r.value, t);
          BookStepKeeps(s, r.value, t);
        }
      } else if s.threads[t].pc.Idle? {
        StartBooks(s, t, act, r);
        BookStepKeeps(s, r.value, t);
      }
    }
  }

  lemma TakeBooks<V>(s: State<V>, s': State<V>, t: nat)
    requires t < |s.threads| && s.threads[t].pc.Done? && s' == Goto(s.(m := s'.m), t, Idle)
    ensures BookStep(s, s', t)
  {
  }

  lemma BooksElsewhere<V>(s: State<V>, s': State<V>)
    requires Books(s) && s' == s.(m := s'.m)
    ensures Books(s')
  {
    forall i | 0 <= i < |s'.log| ensures Claimed(s', i) {
      assert Claimed(s, i);
    }
  }

  lemma {:induction false} RunKeepsBooks<V>(s: State<V>, schedule: seq<(nat, Action<V>)>)
    requires Inv(s) && Books(s)
    ensures Run(s, schedule).Ok? && Books(Run(s, schedule).value)
    decreases |schedule|
  {
    if schedule != [] {
      StepKeepsInv(s, schedule[0].0, schedule[0].1);
      StepKeepsBooks(s, schedule[0].0, schedule[0].1);
      RunKeepsBooks(Step(s, schedule[0].0, schedule[0].1).value, schedule[1..]);
    }
  }
}
