/** When nobody stores or exchanges, an equal pointer means that nothing was installed in between. */
module AtomVersions {
  import opened BoxHeap
  import opened Atom
  import opened AtomProof

  // ----- where pointers come from

  /** The thread or the atom has a handle to the cell. */
  ghost predicate Reaches(box: map<BoxId, Addr>, t: nat, a: Addr) {
    exists j :: j in box && Mine(j, t) && box[j] == a
  }

  /** A step of `t` gives its boxes, and the atom's, cells that were theirs or new ones. */
  ghost predicate Derived<V>(m: Memory<V>, m': Memory<V>, t: nat) {
    && (forall k :: !Mine(k, t) ==> (k in m'.box <==> k in m.box) && (k in m.box ==> m'.box[k] == m.box[k]))
    && (forall k :: Mine(k, t) && k in m'.box ==> m'.box[k] !in m.heap || Reaches(m.box, t, m'.box[k]))
  }

  /** Only boxes in `ks` share the cell. */
  ghost predicate Alone(box: map<BoxId, Addr>, a: Addr, ks: set<BoxId>) {
    forall k :: k in box && box[k] == a ==> k in ks
  }

  lemma AloneKept<V>(m: Memory<V>, m': Memory<V>, t: nat, a: Addr, ks: set<BoxId>)
    requires Alone(m.box, a, ks) && Derived(m, m', t) && a in m.heap && forall k :: k in ks ==> !Mine(k, t)
    ensures Alone(m'.box, a, ks)
  {
  }

  lemma SameDerived<V>(m: Memory<V>, t: nat, m': Memory<V>)
    requires m'.box == m.box
    ensures Derived(m, m', t)
  {
    forall k | Mine(k, t) && k in m'.box ensures Reaches(m.box, t, m'.box[k]) {
      assert k in m.box;
    }
  }

  lemma MakeDerived<V>(m: Memory<V>, k: BoxId, a: Addr, v: V, t: nat)
    requires Mine(k, t) && a !in m.heap
    ensures Derived(m, Make(m, k, a, v), t)
  {
    SameDerived(m, t, m);
  }

  lemma CopyDerived<V>(m: Memory<V>, dst: BoxId, src: BoxId, t: nat, r: Outcome<Memory<V>>)
    requires Mine(dst, t) && Mine(src, t) && r == CopyTo(m, dst, src) && r.Ok?
    ensures Derived(m, r.value, t)
  {
    SameDerived(m, t, m);
  }

  lemma SwapDerived<V>(m: Memory<V>, i: BoxId, j: BoxId, t: nat)
    requires Mine(i, t) && Mine(j, t)
    ensures Derived(m, Swap(m, i, j), t)
  {
    SameDerived(m, t, m);
  }

  lemma DropDerived<V>(m: Memory<V>, k: BoxId, t: nat, r: Outcome<Memory<V>>)
    requires Mine(k, t) && r == Drop(m, k) && r.Ok?
    ensures Derived(m, r.value, t)
  {
    SameDerived(m, t, m);
  }

  /** The same, with the atom's box left alone. */
  ghost predicate Aside<V>(m: Memory<V>, m': Memory<V>, t: nat) {
    Derived(m, m', t) && (Slot in m.box ==> Slot in m'.box && m'.box[Slot] == m.box[Slot])
  }

  lemma AsideSteps<V>(m: Memory<V>, k: BoxId, j: BoxId, t: nat)
    requires Own(k, t) && Own(j, t)
    ensures Aside(m, m, t) && Aside(m, Swap(m, k, j), t)
    ensures Drop(m, k).Ok? ==> Aside(m, Drop(m, k).value, t)
    ensures CopyTo(m, k, j).Ok? ==> Aside(m, CopyTo(m, k, j).value, t)
    ensures forall v :: Mutate(m, k, v).Ok? ==> Aside(m, Mutate(m, k, v).value, t)
    ensures forall a, v :: a !in m.heap ==> Aside(m, Make(m, k, a, v), t)
  {
    SameDerived(m, t, m);
    SwapDerived(m, k, j, t);
    if Drop(m, k).Ok? {
      DropDerived(m, k, t, Drop(m, k));
    }
    if CopyTo(m, k, j).Ok? {
      CopyDerived(m, k, j, t, CopyTo(m, k, j));
    }
    forall v | Mutate(m, k, v).Ok? ensures Aside(m, Mutate(m, k, v).value, t) {
      SameDerived(m, t, Mutate(m, k, v).value);
    }
    forall a, v | a !in m.heap ensures Aside(m, Make(m, k, a, v), t) {
      MakeDerived(m, k, a, v, t);
    }
    hide Derived;
  }

  // ----- the invariant

  /** The new value of an update is in a cell that nobody else can reach before it is installed. */
  ghost predicate Fresh<V>(box: map<BoxId, Addr>, t: nat, thr: Thread<V>) {
    var pc := thr.pc;
    && (pc.Lock2? || pc.Compare? || pc.InstallCopy? ==> New(t) in box && Alone(box, box[New(t)], {New(t)}))
    && (pc.InstallSwap? ==>
          New(t) in box && Aux(t) in box && box[Aux(t)] == box[New(t)] && Alone(box, box[New(t)], {New(t), Aux(t)}))
  }

  ghost predicate BeforeInstall<V>(thr: Thread<V>) {
    (thr.pc.Unlock1? && thr.op.UpdateOp?) || thr.pc.Compute? || thr.pc.Lock2? || thr.pc.Compare?
  }

  /** After an install by another thread the atom's pointer differs from the one loaded. */
  ghost predicate Versioned<V>(box: map<BoxId, Addr>, log: seq<Entry<V>>, t: nat, thr: Thread<V>) {
    BeforeInstall(thr) && thr.seen < Installs(log, t) ==> Old(t) in box && Slot in box && box[Old(t)] != box[Slot]
  }

  ghost predicate Versions<V>(s: State<V>) {
    forall t :: 0 <= t < |s.threads| ==>
      !InSwap(s.threads[t].pc) && Fresh(s.m.box, t, s.threads[t]) && Versioned(s.m.box, s.log, t, s.threads[t])
  }

  // ----- what a step does to the atom's box and the log

  ghost predicate SlotKept<V>(s: State<V>, s': State<V>) {
    && Slot in s.m.box && Slot in s'.m.box && s'.m.box[Slot] == s.m.box[Slot]
    && (s'.log == s.log || (|s'.log| == |s.log| + 1 && s'.log[..|s.log|] == s.log && s'.log[|s.log|].op.LoadOp?))
  }

  ghost predicate SlotReplaced<V>(s: State<V>, s': State<V>, t: nat)
    requires t < |s.threads|
  {
    && s.threads[t].pc.InstallSwap? && Aux(t) in s.m.box && Slot in s'.m.box && s'.m.box[Slot] == s.m.box[Aux(t)]
    && |s'.log| == |s.log| + 1 && s'.log[..|s.log|] == s.log && s'.log[|s.log|].thread == t
  }

  ghost predicate VersionStep<V>(s: State<V>, s': State<V>, t: nat) {
    && t < |s.threads| == |s'.threads|
    && (forall u :: 0 <= u < |s.threads| && u != t ==> s'.threads[u] == s.threads[u])
    && Derived(s.m, s'.m, t)
    && (SlotKept(s, s') || SlotReplaced(s, s', t))
    && !InSwap(s'.threads[t].pc)
    && Fresh(s'.m.box, t, s'.threads[t]) && Versioned(s'.m.box, s'.log, t, s'.threads[t])
  }

  /** What a step of `t` may rely on. */
  ghost predicate Ready<V>(s: State<V>, t: nat) {
    && t < |s.threads| && RefCounted(s.m) && Slot in s.m.box && Locals(s.m.box, t, s.threads[t])
    && Phase(s.log, t, s.threads[t])
    && !InSwap(s.threads[t].pc) && Fresh(s.m.box, t, s.threads[t]) && Versioned(s.m.box, s.log, t, s.threads[t])
  }

  /** The atom's box stays, and the log too unless a load commits. */
  lemma KeepingStep<V>(s: State<V>, s': State<V>, t: nat)
    requires Ready(s, t) && Derived(s.m, s'.m, t) && SlotKept(s, s')
    requires |s'.threads| == |s.threads| && s'.threads == s.threads[t := s'.threads[t]]
    requires !InSwap(s'.threads[t].pc)
    requires Fresh(s'.m.box, t, s'.threads[t]) && Versioned(s'.m.box, s'.log, t, s'.threads[t])
    ensures VersionStep(s, s', t)
  {
    hide Derived, SlotKept, Fresh, Versioned, RefCounted, Locals, Phase;
  }

  /** A step that leads away from the critical rounds and leaves the log alone. */
  ghost predicate Away<V>(s: State<V>, s': State<V>, t: nat)
    requires t < |s.threads|
  {
    && s'.log == s.log && |s'.threads| == |s.threads| && s'.threads == s.threads[t := s'.threads[t]]
    && var thr := s'.threads[t];
    !InSwap(thr.pc) && !BeforeInstall(thr) && !thr.pc.InstallCopy? && !thr.pc.InstallSwap?
  }

  lemma AwayStep<V>(s: State<V>, s': State<V>, t: nat)
    requires Ready(s, t) && Aside(s.m, s'.m, t) && Away(s, s', t)
    ensures VersionStep(s, s', t)
  {
    hide Derived, Fresh, Versioned, RefCounted, Locals, Phase;
    Elsewhere(s'.m.box, s'.log, t, s'.threads[t]);
    KeepingStep(s, s', t);
  }

  /** Away from the critical rounds nothing is asked of a thread. */
  lemma Elsewhere<V>(box: map<BoxId, Addr>, log: seq<Entry<V>>, t: nat, thr: Thread<V>)
    requires !BeforeInstall(thr) && !thr.pc.InstallCopy? && !thr.pc.InstallSwap?
    ensures Fresh(box, t, thr) && Versioned(box, log, t, thr)
  {
  }

  /** A step on through a round, with all boxes as they were. */
  ghost predicate Onward<V>(s: State<V>, s': State<V>, t: nat)
    requires t < |s.threads|
  {
    && s'.log == s.log && s'.m == s.m && |s'.threads| == |s.threads| && s'.threads == s.threads[t := s'.threads[t]]
    && var thr, thr' := s.threads[t], s'.threads[t];
    && thr'.seen == thr.seen && !InSwap(thr'.pc) && (BeforeInstall(thr') ==> BeforeInstall(thr)) &&
       !thr'.pc.InstallSwap?
    && (thr'.pc.Lock2? || thr'.pc.Compare? || thr'.pc.InstallCopy? ==>
       thr.pc.Lock2? || thr.pc.Compare? || thr.pc.InstallCopy?)
  }

  lemma OnwardStep<V>(s: State<V>, s': State<V>, t: nat)
    requires Ready(s, t) && Onward(s, s', t)
    ensures VersionStep(s, s', t)
  {
    hide Derived, Alone, RefCounted, Locals, Phase;
    SameDerived(s.m, t, s.m);
    KeepingStep(s, s', t);
  }

  lemma CopySlotVersions<V>(s: State<V>, t: nat, r: Outcome<State<V>>)
    requires Ready(s, t) && s.threads[t].pc.CopySlot? && r == NextLoad(s, t) && r.Ok?
    ensures VersionStep(s, r.value, t)
  {
    CopyDerived(s.m, Old(t), Slot, t, CopyTo(s.m, Old(t), Slot));
    hide Derived, RefCounted, Alone;
    KeepingStep(s, r.value, t);
  }

  lemma LoadShape<V>(s: State<V>, t: nat, r: Outcome<State<V>>)
    requires t < |s.threads| && r == NextLoad(s, t) && r.Ok?
    requires s.threads[t].pc.Lock1? ||
             (s.threads[t].pc.Unlock1? && (s.threads[t].op.LoadOp? || s.threads[t].op.UpdateOp?))
    ensures if s.threads[t].pc.Unlock1? && s.threads[t].op.LoadOp?
            then Away(s, r.value, t) && r.value.m == Swap(s.m, Old(t), Ret(t)) else Onward(s, r.value, t)
  {
    hide Swap;
  }

  lemma LoadVersions<V>(s: State<V>, t: nat, r: Outcome<State<V>>)
    requires Ready(s, t) && InLoad(s.threads[t].pc) && r == NextLoad(s, t) && r.Ok?
    ensures VersionStep(s, r.value, t)
  {
    if s.threads[t].pc.CopySlot? {
      CopySlotVersions(s, t, r);
    } else {
      LoadShape(s, t, r);
      hide Ready, NextLoad, Away, Onward, Aside, Swap, VersionStep;
      if s.threads[t].pc.Unlock1? && s.threads[t].op.LoadOp? {
        AsideSteps(s.m, Old(t), Ret(t), t);
        AwayStep(s, r.value, t);
      } else {
        OnwardStep(s, r.value, t);
      }
    }
  }

  lemma ComputeVersions<V>(s: State<V>, t: nat, a: Addr, r: Outcome<State<V>>)
    requires Ready(s, t) && s.threads[t].pc.Compute? && r == NextAttempt(s, t, a) && r.Ok? && a !in s.m.heap
    ensures VersionStep(s, r.value, t)
  {
    var v := s.threads[t].op.fn(s.m.heap[s.m.box[Old(t)]].value);
    MakeDerived(s.m, New(t), a, v, t);
    assert Alone(r.value.m.box, a, {New(t)});
    hide Derived, Alone, RefCounted;
    KeepingStep(s, r.value, t);
  }

  lemma InstallCopyShape<V>(s: State<V>, t: nat, a: Addr, r: Outcome<State<V>>)
    requires t < |s.threads| && s.threads[t].pc.InstallCopy? && r == NextAttempt(s, t, a) && r.Ok?
    ensures CopyTo(s.m, Aux(t), New(t)).Ok? && r.value.m == CopyTo(s.m, Aux(t), New(t)).value
    ensures r.value.log == s.log && r.value.threads == s.threads[t := s.threads[t].(pc := InstallSwap)]
  {
    hide CopyTo;
  }

  lemma CopyAlone<V>(m: Memory<V>, t: nat, m': Memory<V>)
    requires New(t) in m.box && Alone(m.box, m.box[New(t)], {New(t)})
    requires CopyTo(m, Aux(t), New(t)) == Outcome<Memory<V>>.Ok(m')
    ensures New(t) in m'.box && Aux(t) in m'.box && m'.box[Aux(t)] == m'.box[New(t)]
    ensures Alone(m'.box, m'.box[New(t)], {New(t), Aux(t)})
    ensures Slot in m.box ==> Slot in m'.box && m'.box[Slot] == m.box[Slot]
  {
  }

  lemma InstallCopyVersions<V>(s: State<V>, t: nat, a: Addr, r: Outcome<State<V>>)
    requires Ready(s, t) && s.threads[t].pc.InstallCopy? && r == NextAttempt(s, t, a) && r.Ok?
    ensures VersionStep(s, r.value, t)
  {
    InstallCopyShape(s, t, a, r);
    hide NextAttempt, Derived, Alone, RefCounted, CopyTo, Locals, Phase;
    CopyDerived(s.m, Aux(t), New(t), t, CopyTo(s.m, Aux(t), New(t)));
    CopyAlone(s.m, t, r.value.m);
    KeepingStep(s, r.value, t);
  }

  lemma InstallSwapShape<V>(s: State<V>, t: nat, a: Addr, r: Outcome<State<V>>)
    requires t < |s.threads| && s.threads[t].pc.InstallSwap? && Aux(t) in s.m.box
    requires r == NextAttempt(s, t, a) && r.Ok?
    ensures SlotReplaced(s, r.value, t) && r.value.m == Swap(s.m, Slot, Aux(t))
    ensures |r.value.threads| == |s.threads| && r.value.threads == s.threads[t := r.value.threads[t]]
    ensures r.value.threads[t].pc.InstallDrop?
  {
  }

  lemma InstallSwapVersions<V>(s: State<V>, t: nat, a: Addr, r: Outcome<State<V>>)
    requires Ready(s, t) && s.threads[t].pc.InstallSwap? && r == NextAttempt(s, t, a) && r.Ok?
    ensures VersionStep(s, r.value, t)
  {
    assert t < |s.threads| && Aux(t) in s.m.box;
    InstallSwapShape(s, t, a, r);
    hide NextAttempt, Ready, SlotReplaced, Swap, VersionStep;
    SwapDerived(s.m, Slot, Aux(t), t);
    ReplacingStep(s, r.value, t);
  }

  lemma ReplacingStep<V>(s: State<V>, s': State<V>, t: nat)
    requires Ready(s, t) && Derived(s.m, s'.m, t) && SlotReplaced(s, s', t)
    requires |s'.threads| == |s.threads| && s'.threads == s.threads[t := s'.threads[t]] && s'.threads[t].pc.InstallDrop?
    ensures VersionStep(s, s', t)
  {
    hide Derived, SlotReplaced, SlotKept, Fresh, Versioned, RefCounted, Locals, Phase;
    Elsewhere(s'.m.box, s'.log, t, s'.threads[t]);
  }

  lemma AttemptOnward<V>(s: State<V>, t: nat, a: Addr, r: Outcome<State<V>>)
    requires t < |s.threads| && r == NextAttempt(s, t, a) && r.Ok?
    requires s.threads[t].pc.Lock2? || s.threads[t].pc.Compare? || (s.threads[t].pc.Compute? && a in s.m.heap)
    ensures Onward(s, r.value, t)
  {
  }

  lemma AttemptVersions<V>(s: State<V>, t: nat, a: Addr, r: Outcome<State<V>>)
    requires Ready(s, t) && r == NextAttempt(s, t, a) && r.Ok?
    requires s.threads[t].pc.Compute? || s.threads[t].pc.Lock2? || s.threads[t].pc.Compare? ||
             s.threads[t].pc.InstallCopy? || s.threads[t].pc.InstallSwap?
    ensures VersionStep(s, r.value, t)
  {
    assert t < |s.threads|;
    hide Ready, NextAttempt, VersionStep, Onward;
    if s.threads[t].pc.Compute? && a !in s.m.heap {
      ComputeVersions(s, t, a, r);
    } else if s.threads[t].pc.InstallCopy? {
      InstallCopyVersions(s, t, a, r);
    } else if s.threads[t].pc.InstallSwap? {
      InstallSwapVersions(s, t, a, r);
    } else {
      AttemptOnward(s, t, a, r);
      OnwardStep(s, r.value, t);
    }
  }

  lemma CleanupAway<V>(s: State<V>, t: nat, r: Outcome<State<V>>)
    requires t < |s.threads| && r == NextCleanup(s, t) && r.Ok?
    requires s.threads[t].pc.InstallDrop? || s.threads[t].pc.ReturnCopy? || s.threads[t].pc.Unlock2? ||
             s.threads[t].pc.DropNew? || s.threads[t].pc.DropOld?
    ensures Away(s, r.value, t)
    ensures match s.threads[t].pc
            case InstallDrop => Outcome<Memory<V>>.Ok(r.value.m) == Drop(s.m, Aux(t))
            case ReturnCopy => Outcome<Memory<V>>.Ok(r.value.m) == CopyTo(s.m, Ret(t), New(t))
            case DropNew => Outcome<Memory<V>>.Ok(r.value.m) == Drop(s.m, New(t))
            case DropOld => Outcome<Memory<V>>.Ok(r.value.m) == Drop(s.m, Old(t))
            case _ => r.value.m == s.m
  {
    hide Drop, CopyTo;
  }

  lemma CleanupVersions<V>(s: State<V>, t: nat, r: Outcome<State<V>>)
    requires Ready(s, t) && r == NextCleanup(s, t) && r.Ok?
    requires s.threads[t].pc.InstallDrop? || s.threads[t].pc.ReturnCopy? || s.threads[t].pc.Unlock2? ||
             s.threads[t].pc.DropNew? || s.threads[t].pc.DropOld?
    ensures VersionStep(s, r.value, t)
  {
    CleanupAway(s, t, r);
    hide NextCleanup, Ready, Aside, Away, Drop, CopyTo, VersionStep;
    AsideSteps(s.m, Aux(t), New(t), t);
    AsideSteps(s.m, Ret(t), New(t), t);
    AsideSteps(s.m, New(t), New(t), t);
    AsideSteps(s.m, Old(t), New(t), t);
    AwayStep(s, r.value, t);
  }

  lemma BoxAway<V>(s: State<V>, t: nat, a: Addr, r: Outcome<State<V>>)
    requires t < |s.threads| && !Active(s.threads[t].pc) && r == NextBox(s, t, a) && r.Ok?
    ensures Away(s, r.value, t)
    ensures match s.threads[t].pc
            case MutateInPlace(i, fn) => exists v :: Mutate(s.m, User(t, i), v) == Outcome<Memory<V>>.Ok(r.value.m)
            case Replace(i, _) => r.value.m == s.m ||
              (a !in s.m.heap && exists v :: r.value.m == Make(s.m, Aux(t), a, v))
            case AssignSwap(i, _) => r.value.m == Swap(s.m, User(t, i), Aux(t))
            case AssignDrop => Outcome<Memory<V>>.Ok(r.value.m) == Drop(s.m, Aux(t))
            case _ => r.value.m == s.m
  {
    hide Drop, CopyTo, Swap, Mutate, Make;
    if s.threads[t].pc.MutateInPlace? {
      var k := User(t, s.threads[t].pc.i);
      var w := Mutate(s.m, k, s.threads[t].pc.fn(s.m.heap[s.m.box[k]].value));
      assert w == Outcome<Memory<V>>.Ok(r.value.m);
    }
  }

  lemma BoxVersions<V>(s: State<V>, t: nat, a: Addr, r: Outcome<State<V>>)
    requires Ready(s, t) && !Active(s.threads[t].pc) && r == NextBox(s, t, a) && r.Ok?
    ensures VersionStep(s, r.value, t)
  {
    BoxAway(s, t, a, r);
    hide NextBox, Ready, Aside, Away, Drop, Swap, Mutate, Make, VersionStep;
    AsideSteps(s.m, Aux(t), Aux(t), t);
    match s.threads[t].pc {
      case MutateInPlace(i, _) => AsideSteps(s.m, User(t, i), Aux(t), t);
      case AssignSwap(i, _) => AsideSteps(s.m, User(t, i), Aux(t), t);
      case _ =>
    }
    AwayStep(s, r.value, t);
  }

  lemma StartAway<V>(s: State<V>, t: nat, act: Action<V>, r: Outcome<State<V>>)
    requires t < |s.threads| && s.threads[t].pc.Idle? && r == Start(s, t, act) && r.Ok?
    requires !act.InvokeStore? && !act.InvokeExchange?
    ensures Away(s, r.value, t)
    ensures r.value.m == s.m ||
            match act
            case Create(i, v, a) => a !in s.m.heap && r.value.m == Make(s.m, User(t, i), a, v)
            case CopyBox(i, j) => Outcome<Memory<V>>.Ok(r.value.m) == CopyTo(s.m, User(t, i), User(t, j))
            case MoveBox(i, j) => r.value.m == Swap(s.m, User(t, i), User(t, j))
            case CopyAssign(_, j) => Outcome<Memory<V>>.Ok(r.value.m) == CopyTo(s.m, Aux(t), User(t, j))
            case Destroy(i) => Outcome<Memory<V>>.Ok(r.value.m) == Drop(s.m, User(t, i))
            case UpdateConst(i, _, _, a) => a !in s.m.heap && exists v :: r.value.m == Make(s.m, User(t, i), a, v)
            case _ => false
  {
    hide Drop, CopyTo, Swap, Make;
    if act.UpdateConst? && r.value != s {
      var v := act.fn(s.m.heap[s.m.box[User(t, act.j)]].value);
      assert r.value.m == Make(s.m, User(t, act.i), act.a, v);
    }
  }

  lemma StartVersions<V>(s: State<V>, t: nat, act: Action<V>, r: Outcome<State<V>>)
    requires Ready(s, t) && s.threads[t].pc.Idle? && r == Start(s, t, act) && r.Ok?
    requires !act.InvokeStore? && !act.InvokeExchange?
    ensures VersionStep(s, r.value, t)
  {
    StartAway(s, t, act, r);
    hide Start, Ready, Aside, Away, Drop, CopyTo, Swap, Make, VersionStep;
    AsideSteps(s.m, Aux(t), Aux(t), t);
    match act {
      case Create(i, _, _) => AsideSteps(s.m, User(t, i), Aux(t), t);
      case CopyBox(i, j) => AsideSteps(s.m, User(t, i), User(t, j), t);
      case MoveBox(i, j) => AsideSteps(s.m, User(t, i), User(t, j), t);
      case CopyAssign(_, j) => AsideSteps(s.m, Aux(t), User(t, j), t);
      case Destroy(i) => AsideSteps(s.m, User(t, i), Aux(t), t);
      case UpdateConst(i, _, _, _) => AsideSteps(s.m, User(t, i), Aux(t), t);
      case _ =>
    }
    AwayStep(s, r.value, t);
  }

  lemma NextVersions<V>(s: State<V>, t: nat, a: Addr, r: Outcome<State<V>>)
    requires Ready(s, t) && r == Next(s, t, a) && r.Ok?
    ensures VersionStep(s, r.value, t)
  {
    hide VersionStep, NextLoad, NextAttempt, NextCleanup, NextBox, Fresh, Versioned, Locals, Phase, RefCounted;
    match s.threads[t].pc
    case Lock1 | CopySlot | Unlock1 => LoadVersions(s, t, r);
    case Compute | Lock2 | Compare | InstallCopy | InstallSwap => AttemptVersions(s, t, a, r);
    case InstallDrop | ReturnCopy | Unlock2 | DropNew | DropOld => CleanupVersions(s, t, r);
    case SwapLock | SwapSlot | SwapUnlock | SwapEnd => assert false;
    case _ => BoxVersions(s, t, a, r);
  }

  lemma TakeAway<V>(s: State<V>, s': State<V>, t: nat)
    requires t < |s.threads| && s' == Goto(s.(m := s'.m), t, Idle)
    ensures Away(s, s', t)
  {
  }

  lemma TakeVersions<V>(s: State<V>, s': State<V>, t: nat, i: nat)
    requires Ready(s, t) && s.threads[t].pc.Done? && s' == Goto(s.(m := Swap(s.m, Ret(t), User(t, i))), t, Idle)
    ensures VersionStep(s, s', t)
  {
    TakeAway(s, s', t);
    hide Ready, Aside, Away, Swap, VersionStep;
    AsideSteps(s.m, Ret(t), User(t, i), t);
    AwayStep(s, s', t);
  }

  // ----- the other threads

  lemma InstallsSame<V>(log: seq<Entry<V>>, log': seq<Entry<V>>, u: nat)
    requires log' == log || (|log'| == |log| + 1 && log'[..|log|] == log && log'[|log|].op.LoadOp?)
    ensures Installs(log', u) == Installs(log, u)
  {
  }

  lemma OtherFresh<V>(s: State<V>, s': State<V>, t: nat, u: nat, thr: Thread<V>)
    requires u != t && RefCounted(s.m) && Derived(s.m, s'.m, t) && Fresh(s.m.box, u, thr)
    ensures Fresh(s'.m.box, u, thr)
  {
    if New(u) in s.m.box {
      var a := s.m.box[New(u)];
      if Alone(s.m.box, a, {New(u)}) {
        AloneKept(s.m, s'.m, t, a, {New(u)});
      }
      if Alone(s.m.box, a, {New(u), Aux(u)}) {
        AloneKept(s.m, s'.m, t, a, {New(u), Aux(u)});
      }
    }
  }

  lemma OtherVersioned<V>(s: State<V>, s': State<V>, t: nat, u: nat)
    requires t < |s.threads| && u < |s.threads| && u != t && Derived(s.m, s'.m, t)
    requires SlotKept(s, s') || SlotReplaced(s, s', t)
    requires Locals(s.m.box, u, s.threads[u]) && Fresh(s.m.box, t, s.threads[t])
    requires Versioned(s.m.box, s.log, u, s.threads[u])
    ensures Versioned(s'.m.box, s'.log, u, s.threads[u])
  {
    if SlotKept(s, s') {
      InstallsSame(s.log, s'.log, u);
    } else if BeforeInstall(s.threads[u]) {
      assert Old(u) in s.m.box && s.m.box[Old(u)] != s.m.box[New(t)];
    }
  }

  lemma VersionStepKeeps<V>(s: State<V>, s': State<V>, t: nat)
    requires Inv(s) && Versions(s) && VersionStep(s, s', t)
    ensures Versions(s')
  {
    hide Fresh, Versioned, Derived, SlotKept, SlotReplaced;
    forall u | 0 <= u < |s'.threads|
      ensures !InSwap(s'.threads[u].pc) && Fresh(s'.m.box, u, s'.threads[u])
      ensures Versioned(s'.m.box, s'.log, u, s'.threads[u])
    {
      if u != t {
        assert ThreadInv(s, u);
        OtherFresh(s, s', t, u, s.threads[u]);
        OtherVersioned(s, s', t, u);
      }
    }
  }

  lemma ReadyForStep<V>(s: State<V>, t: nat)
    requires Inv(s) && Versions(s) && t < |s.threads|
    ensures Ready(s, t)
  {
    assert ThreadInv(s, t);
  }

  lemma StepKeepsVersions<V>(s: State<V>, t: nat, act: Action<V>)
    requires Inv(s) && Versions(s) && !act.InvokeStore? && !act.InvokeExchange?
    ensures Step(s, t, act).Ok? && Versions(Step(s, t, act).value)
  {
    StepKeepsInv(s, t, act);
    hide Inv, Versions, Next, Start, VersionStep, Ready;
    var r := Step(s, t, act);
    if act.ReleaseCell? || t >= |s.threads| {
      VersionsElsewhere(s, r.value);
    } else {
      ReadyForStep(s, t);
      if act.Advance? {
        NextVersions(s, t, act.a, r);
        VersionStepKeeps(s, r.value, t);
      } else if act.Take? {
        if s.threads[t].pc.Done? && User(t, act.i) !in s.m.box {
          TakeVersions(s, r.value, t, act.i);
          VersionStepKeeps(s, r.value, t);
        }
      } else if s.threads[t].pc.Idle? {
        StartVersions(s, t, act, r);
        VersionStepKeeps(s, r.value, t);
      }
    }
  }

  lemma VersionsElsewhere<V>(s: State<V>, s': State<V>)
    requires Versions(s) && s' == s.(m := s'.m) && s'.m.box == s.m.box
    ensures Versions(s')
  {
  }

  ghost predicate OnlyLoadsAndUpdates<V>(schedule: seq<(nat, Action<V>)>) {
    forall i :: 0 <= i < |schedule| ==> !schedule[i].1.InvokeStore? && !schedule[i].1.InvokeExchange?
  }

  lemma {:induction false} RunKeepsVersions<V>(s: State<V>, schedule: seq<(nat, Action<V>)>)
    requires Inv(s) && Versions(s) && OnlyLoadsAndUpdates(schedule)
    ensures Run(s, schedule).Ok? && Versions(Run(s, schedule).value)
    decreases |schedule|
  {
    if schedule != [] {
      StepKeepsInv(s, schedule[0].0, schedule[0].1);
      StepKeepsVersions(s, schedule[0].0, schedule[0].1);
      RunKeepsVersions(Step(s, schedule[0].0, schedule[0].1).value, schedule[1..]);
    }
  }

  /** Where nothing but loads and updates is invoked, the pointer comparison succeeds exactly when no other
      thread has installed a value since this one loaded. */
  lemma PointerIsVersion<V>(a: Addr, v: V, threads: nat, schedule: seq<(nat, Action<V>)>, s: State<V>, t: nat)
    requires OnlyLoadsAndUpdates(schedule) && Run(Initial(a, v, threads), schedule) == Ok(s)
    requires t < |s.threads| && s.threads[t].pc.Compare?
    ensures Old(t) in s.m.box && Slot in s.m.box
    ensures s.m.box[Old(t)] == s.m.box[Slot] <==> Installs(s.log, t) == s.threads[t].seen
  {
    InitialInv(a, v, threads);
    RunKeepsInv(Initial(a, v, threads), schedule);
    RunKeepsVersions(Initial(a, v, threads), schedule);
    assert ThreadInv(s, t);
  }
}
