/** What every interleaving of the atom's steps keeps. */
module AtomProof {
  import opened BoxHeap
  import opened Atom

  // ----- the invariant of one thread

  ghost predicate InUpdate<V>(pc: Pc<V>) {
    pc.Compute? || pc.Lock2? || pc.Compare? || pc.InstallCopy? || pc.InstallSwap? || pc.InstallDrop? ||
    pc.ReturnCopy? || pc.Unlock2? || pc.DropNew? || pc.DropOld?
  }

  ghost predicate InLoad<V>(pc: Pc<V>) {
    pc.Lock1? || pc.CopySlot? || pc.Unlock1?
  }

  ghost predicate InSwap<V>(pc: Pc<V>) {
    pc.SwapLock? || pc.SwapSlot? || pc.SwapUnlock? || pc.SwapEnd?
  }

  ghost predicate Active<V>(pc: Pc<V>) {
    InLoad(pc) || InUpdate(pc) || InSwap(pc)
  }

  /** Points that come before every linearization point. */
  ghost predicate Before<V>(pc: Pc<V>) {
    pc.Lock1? || pc.CopySlot? || pc.Compute? || pc.Lock2? || pc.Compare? || pc.InstallCopy? || pc.InstallSwap? ||
    pc.SwapLock? || pc.SwapSlot?
  }

  /** Which locals exist at which point. */
  ghost predicate Locals<V>(box: map<BoxId, Addr>, t: nat, thr: Thread<V>) {
    var pc := thr.pc;
    && (Old(t) in box <==> pc.Unlock1? || InUpdate(pc))
    && (New(t) in box <==> InUpdate(pc) && !pc.Compute? && !pc.DropOld?)
    && (Arg(t) in box <==> InSwap(pc))
    && (pc.InstallSwap? || pc.InstallDrop? || pc.AssignSwap? ==> Aux(t) in box)
    && (Aux(t) in box ==> pc.InstallSwap? || pc.InstallDrop? || pc.AssignSwap? || pc.AssignDrop?)
    && (Ret(t) in box <==>
          ((pc.Unlock2? || pc.DropNew? || pc.DropOld?) && thr.committed) || (pc.Done? && !thr.op.StoreOp?))
  }

  /** An operation is committed from its linearization point on. */
  ghost predicate Committed<V>(log: seq<Entry<V>>, t: nat, thr: Thread<V>) {
    && thr.start <= thr.index < |log|
    && log[thr.index].thread == t && log[thr.index].id == thr.id && log[thr.index].op == thr.op
  }

  ghost predicate Phase<V>(log: seq<Entry<V>>, t: nat, thr: Thread<V>) {
    var pc := thr.pc;
    && (InUpdate(pc) ==> thr.op.UpdateOp?)
    && (InLoad(pc) ==> thr.op.LoadOp? || thr.op.UpdateOp?)
    && (InSwap(pc) ==> thr.op.StoreOp? || thr.op.ExchangeOp?)
    && (Active(pc) ==> thr.start <= |log|)
    && (pc.InstallDrop? || pc.ReturnCopy? || pc.SwapUnlock? || pc.SwapEnd? || (pc.Unlock1? && thr.op.LoadOp?) ==>
       thr.committed)
    && (Before(pc) || (pc.Unlock1? && !thr.op.LoadOp?) ==> !thr.committed)
    && (Active(pc) && thr.committed ==> Committed(log, t, thr))
    && (Active(pc) && !thr.committed ==> forall i :: 0 <= i < |log| ==> log[i].id != thr.id)
  }

  /** The values behind the locals. */
  ghost predicate Values<V>(m: Memory<V>, log: seq<Entry<V>>, t: nat, thr: Thread<V>)
    requires Phase(log, t, thr) && Locals(m.box, t, thr) && RefCounted(m) && Slot in m.box
  {
    var pc, view := thr.pc, View(m);
    && (pc.Lock2? || pc.Compare? || pc.InstallCopy? || pc.InstallSwap? ==> view[New(t)] == thr.op.fn(view[Old(t)]))
    && (pc.InstallCopy? || pc.InstallSwap? ==> m.box[Old(t)] == m.box[Slot])
    && (pc.InstallSwap? ==> view[Aux(t)] == view[New(t)])
    && (pc.SwapLock? || pc.SwapSlot? ==> view[Arg(t)] == thr.op.v)
    && (pc.Unlock1? && thr.op.LoadOp? ==> view[Old(t)] == log[thr.index].result)
    && (pc.InstallDrop? || pc.ReturnCopy? ==> view[New(t)] == log[thr.index].result)
    && ((pc.Unlock2? || pc.DropNew? || pc.DropOld?) && thr.committed ==> view[Ret(t)] == log[thr.index].result)
    && ((pc.SwapUnlock? || pc.SwapEnd?) && thr.op.ExchangeOp? ==> view[Arg(t)] == log[thr.index].result)
    && ((pc.SwapUnlock? || pc.SwapEnd?) && thr.op.StoreOp? ==> thr.op.v == log[thr.index].result)
    && (pc.MutateInPlace? ==> Unshared(m.box, User(t, pc.i)))
    && (pc.Replace? ==> User(t, pc.i) in m.box)
    && (pc.AssignSwap? ==> view[Aux(t)] == pc.v)
  }

  /** Each failed comparison is paid for by an install of another thread. */
  ghost predicate Progress<V>(m: Memory<V>, log: seq<Entry<V>>, t: nat, thr: Thread<V>)
    requires Phase(log, t, thr) && Locals(m.box, t, thr) && Slot in m.box
  {
    var pc, installs := thr.pc, Installs(log, t);
    && (thr.op.UpdateOp? && (InLoad(pc) || InUpdate(pc)) ==>
          if thr.committed then thr.first + thr.fails <= Installs(log[..thr.index], t)
          else (thr.fails > 0 || pc.Unlock1? || InUpdate(pc)) ==> thr.first + thr.fails <= installs)
    && ((pc.Unlock1? && thr.op.UpdateOp?) || pc.Compute? || pc.Lock2? || pc.Compare? ==>
          thr.first + thr.fails <= thr.seen <= installs && (installs == thr.seen ==> m.box[Old(t)] == m.box[Slot]))
  }

  ghost predicate Local<V>(m: Memory<V>, log: seq<Entry<V>>, t: nat, thr: Thread<V>)
    requires RefCounted(m) && Slot in m.box
  {
    Locals(m.box, t, thr) && Phase(log, t, thr) && Values(m, log, t, thr) && Progress(m, log, t, thr)
  }

  ghost predicate ThreadInv<V>(s: State<V>, t: nat)
    requires t < |s.threads| && RefCounted(s.m) && Slot in s.m.box
  {
    var thr := s.threads[t];
    && Local(s.m, s.log, t, thr)
    && (Holding(thr.pc) <==> s.lock == HeldBy(t))
    && (Active(thr.pc) ==> thr.id < s.nextId)
  }

  // ----- the invariant of the whole state

  ghost predicate Recorded<V>(log: seq<Entry<V>>, r: Record<V>) {
    && r.start <= r.index < r.end <= |log|
    && log[r.index] == Entry(r.thread, r.id, r.op, r.result)
    && (r.op.UpdateOp? ==> r.first + r.fails <= Installs(log[..r.index], r.thread))
  }

  ghost predicate History<V>(s: State<V>) {
    && Legal(s.init, s.log)
    && (forall i, j :: 0 <= i < j < |s.log| ==> s.log[i].id != s.log[j].id)
    && (forall i :: 0 <= i < |s.log| ==> s.log[i].id < s.nextId)
    && (forall i :: 0 <= i < |s.done| ==> Recorded(s.log, s.done[i]))
  }

  ghost predicate DistinctIds<V>(s: State<V>) {
    forall t, u :: 0 <= t < u < |s.threads| && Active(s.threads[t].pc) && Active(s.threads[u].pc)
      ==> s.threads[t].id != s.threads[u].id
  }

  ghost predicate Inv<V>(s: State<V>) {
    && RefCounted(s.m)
    && Slot in s.m.box
    && View(s.m)[Slot] == ValueAfter(s.init, s.log)
    && History(s)
    && (s.lock.HeldBy? ==> s.lock.t < |s.threads|)
    && (forall t :: 0 <= t < |s.threads| ==> ThreadInv(s, t))
    && DistinctIds(s)
  }

  // ----- what a step of one thread leaves to the others

  ghost predicate Mine(k: BoxId, t: nat) {
    k == Slot || k.owner == t
  }

  ghost predicate LogGrows<V>(log: seq<Entry<V>>, log': seq<Entry<V>>, t: nat, thr: Thread<V>) {
    || log' == log
    || (&& |log'| == |log| + 1 && log'[..|log|] == log
        && log'[|log|].thread == t && log'[|log|].id == thr.id && Active(thr.pc) && !thr.committed)
  }

  ghost predicate Frame<V>(s: State<V>, s': State<V>, t: nat)
    requires t < |s.threads| && RefCounted(s.m) && RefCounted(s'.m)
  {
    && |s'.threads| == |s.threads| && (forall u :: 0 <= u < |s.threads| && u != t ==> s'.threads[u] == s.threads[u])
    && s'.init == s.init && s.nextId <= s'.nextId
    && (forall k :: !Mine(k, t) ==> (k in s.m.box <==> k in s'.m.box))
    && (forall k :: !Mine(k, t) && k in s.m.box ==> s'.m.box[k] == s.m.box[k] && View(s'.m)[k] == View(s.m)[k])
    && (forall k :: !Mine(k, t) && Unshared(s.m.box, k) ==> Unshared(s'.m.box, k))
    && (forall u :: u != t ==> (s.lock == HeldBy(u) <==> s'.lock == HeldBy(u)))
    && LogGrows(s.log, s'.log, t, s.threads[t])
    && Slot in s.m.box && Slot in s'.m.box
    && (s'.m.box[Slot] != s.m.box[Slot] ==>
          s.lock == HeldBy(t) && |s'.log| == |s.log| + 1 && !s'.log[|s.log|].op.LoadOp?)
  }

  lemma InstallsGrow<V>(log: seq<Entry<V>>, log': seq<Entry<V>>, u: nat)
    requires |log'| == |log| + 1 && log'[..|log|] == log
    ensures Installs(log', u) ==
            Installs(log, u) + (if log'[|log|].thread != u && !log'[|log|].op.LoadOp? then 1 else 0)
  {
  }

  lemma PhaseKept<V>(log: seq<Entry<V>>, log': seq<Entry<V>>, t: nat, thr: Thread<V>, u: nat, other: Thread<V>)
    requires u != t && Phase(log, u, other) && LogGrows(log, log', t, thr)
    requires Active(other.pc) && Active(thr.pc) ==> other.id != thr.id
    ensures Phase(log', u, other)
  {
    assert forall i :: 0 <= i < |log| ==> log'[i] == log[i];
  }

  lemma ValuesKept<V>(s: State<V>, s': State<V>, t: nat, u: nat)
    requires t < |s.threads| && u < |s.threads| && u != t
    requires RefCounted(s.m) && RefCounted(s'.m) && Frame(s, s', t)
    requires ThreadInv(s, u)
    requires Locals(s'.m.box, u, s.threads[u]) && Phase(s'.log, u, s.threads[u])
    ensures Values(s'.m, s'.log, u, s.threads[u])
  {
    assert forall i :: 0 <= i < |s.log| ==> s'.log[i] == s.log[i];
  }

  lemma ProgressKept<V>(s: State<V>, s': State<V>, t: nat, u: nat)
    requires t < |s.threads| && u < |s.threads| && u != t
    requires RefCounted(s.m) && RefCounted(s'.m) && Frame(s, s', t)
    requires ThreadInv(s, u)
    requires Locals(s'.m.box, u, s.threads[u]) && Phase(s'.log, u, s.threads[u])
    ensures Progress(s'.m, s'.log, u, s.threads[u])
  {
    var thr := s.threads[u];
    if s'.log != s.log {
      InstallsGrow(s.log, s'.log, u);
      assert Active(thr.pc) && thr.committed ==> s'.log[..thr.index] == s.log[..thr.index];
    }
  }

  lemma OtherThreadKept<V>(s: State<V>, s': State<V>, t: nat, u: nat)
    requires Inv(s) && t < |s.threads| && u < |s.threads| && u != t
    requires RefCounted(s'.m) && Frame(s, s', t)
    ensures ThreadInv(s', u)
  {
    assert ThreadInv(s, u);
    PhaseKept(s.log, s'.log, t, s.threads[t], u, s.threads[u]);
    assert Locals(s'.m.box, u, s.threads[u]);
    ValuesKept(s, s', t, u);
    ProgressKept(s, s', t, u);
  }

  // ----- one step keeps the invariant

  /** What a step of thread `t` may rely on. */
  ghost predicate Base<V>(s: State<V>, t: nat) {
    && t < |s.threads| && RefCounted(s.m) && Slot in s.m.box
    && View(s.m)[Slot] == ValueAfter(s.init, s.log)
    && History(s) && ThreadInv(s, t)
  }

  /** What has to be shown of a step of thread `t`; the rest of the invariant follows. */
  ghost predicate Good<V>(s: State<V>, s': State<V>, t: nat)
    requires Base(s, t)
  {
    && RefCounted(s'.m) && Frame(s, s', t)
    && ThreadInv(s', t)
    && View(s'.m)[Slot] == ValueAfter(s'.init, s'.log)
    && History(s')
    && (s'.lock == s.lock || s'.lock == Unlocked || s'.lock == HeldBy(t))
    && (Active(s'.threads[t].pc) ==>
          s'.threads[t].id >= s.nextId || (Active(s.threads[t].pc) && s'.threads[t].id == s.threads[t].id))
  }

  lemma IdsStayDistinct<V>(s: State<V>, s': State<V>, t: nat)
    requires Inv(s) && Base(s, t) && Good(s, s', t)
    ensures DistinctIds(s')
  {
    forall u | 0 <= u < |s.threads| ensures Active(s.threads[u].pc) ==> s.threads[u].id < s.nextId {
      assert ThreadInv(s, u);
    }
  }

  lemma GoodKeepsInv<V>(s: State<V>, s': State<V>, t: nat)
    requires Inv(s) && Base(s, t) && Good(s, s', t)
    ensures Inv(s')
  {
    forall u | 0 <= u < |s'.threads| ensures ThreadInv(s', u) {
      if u != t {
        OtherThreadKept(s, s', t, u);
      }
    }
    IdsStayDistinct(s, s', t);
  }

  /** A memory step of `t`, as the other threads see it. */
  ghost predicate Kept<V>(m: Memory<V>, m': Memory<V>, t: nat)
    requires RefCounted(m)
  {
    && RefCounted(m') && Slot in m'.box
    && (forall k :: !Mine(k, t) ==> (k in m.box <==> k in m'.box))
    && (forall k :: !Mine(k, t) && k in m.box ==> m'.box[k] == m.box[k] && View(m')[k] == View(m)[k])
    && (forall k :: !Mine(k, t) && Unshared(m.box, k) ==> Unshared(m'.box, k))
  }

  /** One that leaves the atom's own box alone. */
  ghost predicate Private<V>(m: Memory<V>, m': Memory<V>, t: nat)
    requires RefCounted(m) && Slot in m.box
  {
    Kept(m, m', t) && m'.box[Slot] == m.box[Slot] && View(m')[Slot] == View(m)[Slot]
  }

  ghost predicate Own(k: BoxId, t: nat) {
    k != Slot && k.owner == t
  }

  lemma PrivateFromKept<V>(m: Memory<V>, m': Memory<V>, t: nat, ks: set<BoxId>)
    requires RefCounted(m) && Slot in m.box && RefCounted(m') && OthersKept(m.box, m'.box, ks)
    requires forall k :: k in ks ==> Own(k, t)
    requires forall k :: k !in ks && k in m.box ==> k in m'.box && View(m')[k] == View(m)[k]
    ensures Private(m, m', t)
  {
  }

  ghost predicate Made<V>(m: Memory<V>, k: BoxId, a: Addr, v: V, m': Memory<V>, t: nat)
    requires RefCounted(m) && Slot in m.box
  {
    Private(m, m', t) && View(m') == View(m)[k := v] && m'.box == m.box[k := a]
  }

  lemma PrivateMake<V>(m: Memory<V>, k: BoxId, a: Addr, v: V, t: nat, m': Memory<V>)
    requires RefCounted(m) && Slot in m.box && Own(k, t) && k !in m.box && a !in m.heap
    requires m' == Make(m, k, a, v)
    ensures Made(m, k, a, v, m', t)
  {
    MakeIsAssignment(m, k, a, v, m');
  }

  ghost predicate Copied<V>(m: Memory<V>, dst: BoxId, src: BoxId, m': Memory<V>, t: nat)
    requires RefCounted(m) && Slot in m.box
  {
    src in m.box && Private(m, m', t) && View(m') == View(m)[dst := View(m)[src]] && m'.box == m.box[dst := m.box[src]]
  }

  lemma PrivateCopy<V>(m: Memory<V>, dst: BoxId, src: BoxId, t: nat, r: Outcome<Memory<V>>)
    requires RefCounted(m) && Slot in m.box && Own(dst, t) && Mine(src, t) && dst !in m.box && src in m.box
    requires r == CopyTo(m, dst, src)
    ensures r.Ok? && Copied(m, dst, src, r.value, t)
  {
    CopyIsAssignment(m, dst, src, r);
  }

  ghost predicate Dropped<V>(m: Memory<V>, k: BoxId, m': Memory<V>, t: nat)
    requires RefCounted(m) && Slot in m.box
  {
    Private(m, m', t) && View(m') == View(m) - {k} && m'.box == m.box - {k}
  }

  lemma PrivateDrop<V>(m: Memory<V>, k: BoxId, t: nat, r: Outcome<Memory<V>>)
    requires RefCounted(m) && Slot in m.box && Own(k, t) && r == Drop(m, k)
    ensures r.Ok? && Dropped(m, k, r.value, t)
  {
    DropIsRemoval(m, k, r);
  }

  /** Two boxes of `t` trade places. */
  ghost predicate Swapped<V>(m: Memory<V>, i: BoxId, j: BoxId, m': Memory<V>, t: nat)
    requires RefCounted(m) && Slot in m.box
  {
    && Private(m, m', t) && KeysSwapped(m.box, m'.box, i, j)
    && (forall k :: k != i && k != j && k in m.box ==> View(m')[k] == View(m)[k])
    && (j in m.box ==> View(m')[i] == View(m)[j]) && (i in m.box ==> View(m')[j] == View(m)[i])
  }

  ghost predicate KeysSwapped(b: map<BoxId, Addr>, b': map<BoxId, Addr>, i: BoxId, j: BoxId) {
    && (forall k :: k != i && k != j ==> (k in b' <==> k in b))
    && (i in b' <==> j in b) && (j in b' <==> i in b)
  }

  lemma TradedKeys(b: map<BoxId, Addr>, b': map<BoxId, Addr>, i: BoxId, j: BoxId)
    requires OthersKept(b, b', {i, j}) && (i in b' <==> j in b) && (j in b' <==> i in b)
    ensures KeysSwapped(b, b', i, j)
  {
  }

  lemma SwappedFromTraded<V>(m: Memory<V>, i: BoxId, j: BoxId, t: nat, m': Memory<V>)
    requires RefCounted(m) && Slot in m.box && Own(i, t) && Own(j, t) && i != j && Traded(m, i, j, m')
    ensures Swapped(m, i, j, m', t)
  {
    hide Private, KeysSwapped, RefCounted, View;
    TradedKeys(m.box, m'.box, i, j);
    PrivateFromKept(m, m', t, {i, j});
  }

  lemma PrivateSwap<V>(m: Memory<V>, i: BoxId, j: BoxId, t: nat, m': Memory<V>)
    requires RefCounted(m) && Slot in m.box && Own(i, t) && Own(j, t) && i != j && m' == Swap(m, i, j)
    ensures Swapped(m, i, j, m', t)
  {
    SwapIsSwap(m, i, j, m');
    SwappedFromTraded(m, i, j, t, m');
  }

  ghost predicate Written<V>(m: Memory<V>, k: BoxId, v: V, m': Memory<V>, t: nat)
    requires RefCounted(m) && Slot in m.box
  {
    Private(m, m', t) && View(m') == View(m)[k := v] && m'.box == m.box
  }

  lemma PrivateMutate<V>(m: Memory<V>, k: BoxId, v: V, t: nat, r: Outcome<Memory<V>>)
    requires RefCounted(m) && Slot in m.box && Own(k, t) && Unshared(m.box, k) && r == Mutate(m, k, v)
    ensures r.Ok? && Written(m, k, v, r.value, t)
  {
    MutateUnsharedIsAssignment(m, k, v, r);
  }

  lemma PrivateStep<V>(s: State<V>, t: nat, m': Memory<V>, thr': Thread<V>, s': State<V>)
    requires Base(s, t) && Private(s.m, m', t) && s' == s.(m := m', threads := s.threads[t := thr'])
    requires Local(m', s.log, t, thr')
    requires Holding(thr'.pc) <==> Holding(s.threads[t].pc)
    requires Active(thr'.pc) ==> Active(s.threads[t].pc) && thr'.id == s.threads[t].id
    ensures Good(s, s', t)
  {
  }

  lemma LockStep<V>(s: State<V>, t: nat, lock': Lock, thr': Thread<V>, s': State<V>)
    requires Base(s, t) && s' == s.(lock := lock', threads := s.threads[t := thr'])
    requires Local(s.m, s.log, t, thr')
    requires (s.lock == Unlocked && lock' == HeldBy(t) && Holding(thr'.pc))
          || (s.lock == HeldBy(t) && lock' == Unlocked && !Holding(thr'.pc))
    requires Active(thr'.pc) ==> Active(s.threads[t].pc) && thr'.id == s.threads[t].id
    ensures Good(s, s', t)
  {
  }

  // steps on the lock alone

  lemma TryLockKeeps<V>(s: State<V>, t: nat, pc: Pc<V>, s': State<V>)
    requires Base(s, t) && s' == TryLock(s, t, pc)
    requires var from := s.threads[t].pc;
             (from.Lock1? && pc.CopySlot?) || (from.Lock2? && pc.Compare?) || (from.SwapLock? && pc.SwapSlot?)
    ensures s' == s || Good(s, s', t)
  {
    if s.lock == Unlocked {
      LockStep(s, t, HeldBy(t), s.threads[t].(pc := pc), s');
    }
  }

  lemma UnlockKeeps<V>(s: State<V>, t: nat, pc: Pc<V>, s': State<V>)
    requires Base(s, t) && s' == Unlock(s, t, pc)
    requires var from := s.threads[t].pc;
             (from.Unlock1? && !s.threads[t].op.LoadOp? && pc.Compute?) || (from.Unlock2? && pc.DropNew?) ||
               (from.SwapUnlock? && pc.SwapEnd?)
    ensures Good(s, s', t)
  {
    LockStep(s, t, Unlocked, s.threads[t].(pc := pc), s');
  }

  // steps on the thread's own boxes, as the thread's own invariant sees them

  lemma UpdateLoadLocal<V>(m: Memory<V>, log: seq<Entry<V>>, t: nat, thr: Thread<V>, m': Memory<V>, thr': Thread<V>)
    requires RefCounted(m) && Slot in m.box && Local(m, log, t, thr) && thr.pc.CopySlot? && !thr.op.LoadOp?
    requires Copied(m, Old(t), Slot, m', t) && thr' == thr.(pc := Unlock1, seen := Installs(log, t),
               first := if thr.fails == 0 then Installs(log, t) else thr.first)
    ensures Local(m', log, t, thr')
  {
  }

  lemma ComputeLocal<V>(
    m: Memory<V>, log: seq<Entry<V>>, t: nat, thr: Thread<V>, a: Addr, m': Memory<V>, thr': Thread<V>)
    requires RefCounted(m) && Slot in m.box && Local(m, log, t, thr) && thr.pc.Compute? && a !in m.heap
    requires Made(m, New(t), a, thr.op.fn(View(m)[Old(t)]), m', t) && thr' == thr.(pc := Lock2)
    ensures Local(m', log, t, thr')
  {
  }

  lemma CompareLocal<V>(m: Memory<V>, log: seq<Entry<V>>, t: nat, thr: Thread<V>, thr': Thread<V>)
    requires RefCounted(m) && Slot in m.box && Local(m, log, t, thr) && thr.pc.Compare?
    requires thr' == if m.box[Old(t)] == m.box[Slot] then thr.(pc := InstallCopy)
             else thr.(pc := Unlock2, fails := thr.fails + 1)
    ensures Local(m, log, t, thr')
  {
  }

  lemma InstallCopyLocal<V>(m: Memory<V>, log: seq<Entry<V>>, t: nat, thr: Thread<V>, m': Memory<V>, thr': Thread<V>)
    requires RefCounted(m) && Slot in m.box && Local(m, log, t, thr) && thr.pc.InstallCopy?
    requires Copied(m, Aux(t), New(t), m', t) && thr' == thr.(pc := InstallSwap)
    ensures Local(m', log, t, thr')
  {
  }

  lemma InstallDropLocal<V>(m: Memory<V>, log: seq<Entry<V>>, t: nat, thr: Thread<V>, m': Memory<V>, thr': Thread<V>)
    requires RefCounted(m) && Slot in m.box && Local(m, log, t, thr) && thr.pc.InstallDrop?
    requires Dropped(m, Aux(t), m', t) && thr' == thr.(pc := ReturnCopy)
    ensures Local(m', log, t, thr')
  {
  }

  lemma ReturnCopyLocal<V>(m: Memory<V>, log: seq<Entry<V>>, t: nat, thr: Thread<V>, m': Memory<V>, thr': Thread<V>)
    requires RefCounted(m) && Slot in m.box && Local(m, log, t, thr) && thr.pc.ReturnCopy?
    requires Copied(m, Ret(t), New(t), m', t) && thr' == thr.(pc := Unlock2)
    ensures Local(m', log, t, thr')
  {
  }

  lemma DropNewLocal<V>(m: Memory<V>, log: seq<Entry<V>>, t: nat, thr: Thread<V>, m': Memory<V>, thr': Thread<V>)
    requires RefCounted(m) && Slot in m.box && Local(m, log, t, thr) && thr.pc.DropNew?
    requires Dropped(m, New(t), m', t) && thr' == thr.(pc := DropOld)
    ensures Local(m', log, t, thr')
  {
  }

  lemma DropOldLocal<V>(m: Memory<V>, log: seq<Entry<V>>, t: nat, thr: Thread<V>, m': Memory<V>, thr': Thread<V>)
    requires RefCounted(m) && Slot in m.box && Local(m, log, t, thr) && thr.pc.DropOld?
    requires Dropped(m, Old(t), m', t) && thr' == thr.(pc := if thr.committed then Done else Lock1)
    ensures Local(m', log, t, thr')
    ensures thr.committed ==> Ret(t) in m'.box && View(m')[Ret(t)] == log[thr.index].result
  {
  }

  lemma AssignDropLocal<V>(m: Memory<V>, log: seq<Entry<V>>, t: nat, thr: Thread<V>, m': Memory<V>, thr': Thread<V>)
    requires RefCounted(m) && Slot in m.box && Local(m, log, t, thr) && thr.pc.AssignDrop?
    requires Dropped(m, Aux(t), m', t) && thr' == thr.(pc := Idle)
    ensures Local(m', log, t, thr')
  {
  }

  lemma LoadReturnsLocal<V>(m: Memory<V>, log: seq<Entry<V>>, t: nat, thr: Thread<V>, m': Memory<V>, thr': Thread<V>)
    requires RefCounted(m) && Slot in m.box && Local(m, log, t, thr) && thr.pc.Unlock1? && thr.op.LoadOp?
    requires Swapped(m, Old(t), Ret(t), m', t) && thr' == thr.(pc := Done)
    ensures Local(m', log, t, thr') && Private(m, m', t)
    ensures Ret(t) in m'.box && View(m')[Ret(t)] == log[thr.index].result
  {
  }

  lemma StoreReturnsLocal<V>(m: Memory<V>, log: seq<Entry<V>>, t: nat, thr: Thread<V>, m': Memory<V>, thr': Thread<V>)
    requires RefCounted(m) && Slot in m.box && Local(m, log, t, thr) && thr.pc.SwapEnd? && thr.op.StoreOp?
    requires Dropped(m, Arg(t), m', t) && thr' == thr.(pc := Done)
    ensures Local(m', log, t, thr') && thr.op.v == log[thr.index].result
  {
  }

  lemma ExchangeReturnsLocal<V>(
    m: Memory<V>, log: seq<Entry<V>>, t: nat, thr: Thread<V>, m': Memory<V>, thr': Thread<V>)
    requires RefCounted(m) && Slot in m.box && Local(m, log, t, thr) && thr.pc.SwapEnd? && thr.op.ExchangeOp?
    requires Swapped(m, Arg(t), Ret(t), m', t) && thr' == thr.(pc := Done)
    ensures Local(m', log, t, thr') && Private(m, m', t)
    ensures Ret(t) in m'.box && View(m')[Ret(t)] == log[thr.index].result
  {
  }

  lemma MutateLocal<V>(m: Memory<V>, log: seq<Entry<V>>, t: nat, thr: Thread<V>, m': Memory<V>, thr': Thread<V>)
    requires RefCounted(m) && Slot in m.box && Local(m, log, t, thr) && thr.pc.MutateInPlace?
    requires Written(m, User(t, thr.pc.i), thr.pc.fn(View(m)[User(t, thr.pc.i)]), m', t) && thr' == thr.(pc := Idle)
    ensures Local(m', log, t, thr')
  {
  }

  lemma ReplaceLocal<V>(
    m: Memory<V>, log: seq<Entry<V>>, t: nat, thr: Thread<V>, a: Addr, v: V, m': Memory<V>, thr': Thread<V>)
    requires RefCounted(m) && Slot in m.box && Local(m, log, t, thr) && thr.pc.Replace? && a !in m.heap
    requires Made(m, Aux(t), a, v, m', t) && thr' == thr.(pc := AssignSwap(thr.pc.i, v))
    ensures Local(m', log, t, thr')
  {
  }

  lemma AssignSwapLocal<V>(m: Memory<V>, log: seq<Entry<V>>, t: nat, thr: Thread<V>, m': Memory<V>, thr': Thread<V>)
    requires RefCounted(m) && Slot in m.box && Local(m, log, t, thr) && thr.pc.AssignSwap?
    requires Swapped(m, User(t, thr.pc.i), Aux(t), m', t) && thr' == thr.(pc := AssignDrop)
    ensures Local(m', log, t, thr') && Private(m, m', t)
  {
  }

  // commits

  /** The history after a commit at the current value. */
  lemma CommitKeepsHistory<V>(s: State<V>, t: nat, c: State<V>)
    requires Base(s, t) && Active(s.threads[t].pc) && !s.threads[t].committed
    requires c == Commit(s, t)
    ensures History(c) && LogGrows(s.log, c.log, t, s.threads[t])
    ensures ValueAfter(c.init, c.log) == NextValue(s.threads[t].op, View(s.m)[Slot])
    ensures c.log[|s.log|].result == Returned(s.threads[t].op, View(s.m)[Slot])
    ensures Committed(c.log, t, c.threads[t])
  {
    assert c.log[..|s.log|] == s.log;
    forall i | 0 <= i < |c.log| ensures c.log[i].result == Returned(c.log[i].op, ValueAfter(c.init, c.log[..i])) {
      if i < |s.log| {
        assert c.log[..i] == s.log[..i];
      }
    }
    forall i | 0 <= i < |c.done| ensures Recorded(c.log, c.done[i]) {
      assert c.log[..s.done[i].index] == s.log[..s.done[i].index];
    }
  }

  lemma CommitFrame<V>(s: State<V>, t: nat, c: State<V>, m': Memory<V>, thr': Thread<V>, s': State<V>)
    requires t < |s.threads| && RefCounted(s.m) && Slot in s.m.box && Live(s.m, Slot) && s.lock == HeldBy(t)
    requires Active(s.threads[t].pc) && !s.threads[t].committed
    requires c == Commit(s, t) && s' == c.(m := m', threads := s.threads[t := thr'])
    requires Kept(s.m, m', t)
    requires m'.box[Slot] != s.m.box[Slot] ==> !s.threads[t].op.LoadOp?
    ensures Frame(s, s', t)
  {
  }

  lemma CommitStep<V>(s: State<V>, t: nat, c: State<V>, m': Memory<V>, thr': Thread<V>, s': State<V>)
    requires Base(s, t) && Active(s.threads[t].pc) && !s.threads[t].committed && s.lock == HeldBy(t)
    requires c == Commit(s, t) && s' == c.(m := m', threads := s.threads[t := thr'])
    requires Kept(s.m, m', t)
    requires View(m')[Slot] == NextValue(s.threads[t].op, View(s.m)[Slot])
    requires m'.box[Slot] != s.m.box[Slot] ==> !s.threads[t].op.LoadOp?
    requires Local(m', c.log, t, thr') && Holding(thr'.pc) && thr'.id == s.threads[t].id
    ensures Good(s, s', t)
  {
    hide Frame, Local, View, History;
    CommitKeepsHistory(s, t, c);
    CommitFrame(s, t, c, m', thr', s');
    SameHistory(c, s');
  }

  lemma SameHistory<V>(s: State<V>, s': State<V>)
    requires History(s) && s'.log == s.log && s'.done == s.done && s'.nextId == s.nextId && s'.init == s.init
    ensures History(s')
  {
  }

  /** Appending the thread's own commit to the log. */
  ghost predicate Appended<V>(log: seq<Entry<V>>, log': seq<Entry<V>>, t: nat, thr: Thread<V>, cur: V) {
    log' == log + [Entry(t, thr.id, thr.op, Returned(thr.op, cur))]
  }

  lemma LoadCommitLocal<V>(
    m: Memory<V>, log: seq<Entry<V>>, t: nat, thr: Thread<V>, m': Memory<V>, log': seq<Entry<V>>, thr': Thread<V>)
    requires RefCounted(m) && Slot in m.box && Local(m, log, t, thr) && thr.pc.CopySlot? && thr.op.LoadOp?
    requires Copied(m, Old(t), Slot, m', t) && Appended(log, log', t, thr, View(m)[Slot])
    requires thr' == thr.(pc := Unlock1, committed := true, index := |log|)
    ensures Local(m', log', t, thr')
  {
  }

  lemma InstallSwapLocal<V>(
    m: Memory<V>, log: seq<Entry<V>>, t: nat, thr: Thread<V>, m': Memory<V>, log': seq<Entry<V>>, thr': Thread<V>)
    requires RefCounted(m) && Slot in m.box && Local(m, log, t, thr) && thr.pc.InstallSwap?
    requires SlotSwapped(m, Aux(t), t, m') && Appended(log, log', t, thr, View(m)[Slot])
    requires thr' == thr.(pc := InstallDrop, committed := true, index := |log|)
    ensures Local(m', log', t, thr')
    ensures Kept(m, m', t) && View(m')[Slot] == NextValue(thr.op, View(m)[Slot])
  {
    assert log'[..|log|] == log;
  }

  lemma SwapSlotLocal<V>(
    m: Memory<V>, log: seq<Entry<V>>, t: nat, thr: Thread<V>, m': Memory<V>, log': seq<Entry<V>>, thr': Thread<V>)
    requires RefCounted(m) && Slot in m.box && Local(m, log, t, thr) && thr.pc.SwapSlot?
    requires SlotSwapped(m, Arg(t), t, m') && Appended(log, log', t, thr, View(m)[Slot])
    requires thr' == thr.(pc := SwapUnlock, committed := true, index := |log|)
    ensures Local(m', log', t, thr')
    ensures Kept(m, m', t) && View(m')[Slot] == NextValue(thr.op, View(m)[Slot])
  {
  }

  /** The atom's box and a local of `t` trade places. */
  ghost predicate SlotSwapped<V>(m: Memory<V>, k: BoxId, t: nat, m': Memory<V>)
    requires RefCounted(m) && Slot in m.box
  {
    && k in m.box && Kept(m, m', t)
    && View(m')[Slot] == View(m)[k] && k in m'.box && View(m')[k] == View(m)[Slot]
    && (forall j :: j != Slot && j != k ==> (j in m'.box <==> j in m.box) && (j in m.box ==> View(m')[j] == View(m)[j]))
  }

  lemma SlotSwappedFromTraded<V>(m: Memory<V>, k: BoxId, t: nat, m': Memory<V>)
    requires RefCounted(m) && Slot in m.box && Own(k, t) && k in m.box && Traded(m, Slot, k, m')
    ensures SlotSwapped(m, k, t, m')
  {
  }

  lemma SwapWithSlot<V>(m: Memory<V>, k: BoxId, t: nat, m': Memory<V>)
    requires RefCounted(m) && Slot in m.box && Own(k, t) && k in m.box && m' == Swap(m, Slot, k)
    ensures SlotSwapped(m, k, t, m')
  {
    SwapIsSwap(m, Slot, k, m');
    SlotSwappedFromTraded(m, k, t, m');
  }

  // returns

  lemma RecordIsRight<V>(m: Memory<V>, log: seq<Entry<V>>, t: nat, thr: Thread<V>, r: Record<V>)
    requires RefCounted(m) && Slot in m.box && Local(m, log, t, thr) && Active(thr.pc) && thr.committed
    requires r == Record(t, thr.id, thr.op, thr.start, |log|, thr.index, log[thr.index].result, thr.fails, thr.first)
    ensures Recorded(log, r)
  {
  }

  lemma ReturnStep<V>(s: State<V>, t: nat, lock': Lock, m': Memory<V>, r: Record<V>, s': State<V>)
    requires Base(s, t) && Private(s.m, m', t) && Recorded(s.log, r)
    requires s' == s.(m := m', lock := lock', threads := s.threads[t := s.threads[t].(pc := Done)],
               done := s.done + [r])
    requires Local(m', s.log, t, s'.threads[t])
    requires if Holding(s.threads[t].pc) then lock' == Unlocked else lock' == s.lock
    ensures Good(s, s', t)
  {
  }

  /** The record a returning thread writes, if it returns what its commit says. */
  ghost function RecordOf<V>(s: State<V>, t: nat): Record<V>
    requires Base(s, t) && Active(s.threads[t].pc) && s.threads[t].committed
  {
    var thr := s.threads[t];
    Record(t, thr.id, thr.op, thr.start, |s.log|, thr.index, s.log[thr.index].result, thr.fails, thr.first)
  }

  lemma ReturnKeeps<V>(s: State<V>, t: nat, lock': Lock, m': Memory<V>, s': State<V>)
    requires Base(s, t) && Active(s.threads[t].pc) && s.threads[t].committed && Private(s.m, m', t)
    requires s' == s.(m := m', lock := lock', threads := s.threads[t := s.threads[t].(pc := Done)],
               done := s.done + [RecordOf(s, t)])
    requires Local(m', s.log, t, s'.threads[t])
    requires if Holding(s.threads[t].pc) then lock' == Unlocked else lock' == s.lock
    ensures Good(s, s', t)
  {
    hide History, Good, Recorded;
    RecordIsRight(s.m, s.log, t, s.threads[t], RecordOf(s, t));
    ReturnStep(s, t, lock', m', RecordOf(s, t), s');
  }

  // ----- every step

  /** What a box holds. */
  lemma Seen<V>(m: Memory<V>, k: BoxId)
    requires RefCounted(m) && k in m.box
    ensures Live(m, k) && k in View(m) && View(m)[k] == m.heap[m.box[k]].value
  {
  }

  /** Parts of the thread's invariant that a step needs of it. */
  lemma LocalParts<V>(m: Memory<V>, log: seq<Entry<V>>, t: nat, thr: Thread<V>)
    requires RefCounted(m) && Slot in m.box && Local(m, log, t, thr)
    ensures Locals(m.box, t, thr) && Phase(log, t, thr) && Values(m, log, t, thr)
  {
  }

  lemma CopySlotKeeps<V>(s: State<V>, t: nat, c: State<V>, m': Memory<V>, thr': Thread<V>, s': State<V>)
    requires Base(s, t) && s.threads[t].pc.CopySlot? && Copied(s.m, Old(t), Slot, m', t) && c == Commit(s, t)
    requires var thr, installs := s.threads[t], Installs(s.log, t);
             if thr.op.LoadOp? then
               s' == c.(m := m', threads := s.threads[t := thr']) &&
                 thr' == thr.(pc := Unlock1, committed := true, index := |s.log|)
             else
               s' == s.(m := m', threads := s.threads[t := thr']) &&
               thr' == thr.(pc := Unlock1, seen := installs, first := if thr.fails == 0 then installs else thr.first)
    ensures Good(s, s', t)
  {
    if s.threads[t].op.LoadOp? {
      LoadCommitLocal(s.m, s.log, t, s.threads[t], m', s'.log, thr');
      CommitStep(s, t, c, m', thr', s');
    } else {
      UpdateLoadLocal(s.m, s.log, t, s.threads[t], m', thr');
      PrivateStep(s, t, m', thr', s');
    }
  }

  lemma CopySlotStep<V>(s: State<V>, t: nat, r: Outcome<State<V>>)
    requires Base(s, t) && s.threads[t].pc.CopySlot? && r == NextLoad(s, t)
    ensures r.Ok? && Good(s, r.value, t)
  {
    hide History, Good, Local, Progress;
    LocalParts(s.m, s.log, t, s.threads[t]);
    var thr := s.threads[t];
    var c := CopyTo(s.m, Old(t), Slot);
    PrivateCopy(s.m, Old(t), Slot, t, c);
    CopySlotKeeps(s, t, Commit(s, t), c.value, r.value.threads[t], r.value);
  }

  /** The returning step of a load, spelled out. */
  lemma LoadReturnsAs<V>(s: State<V>, t: nat, m': Memory<V>)
    requires t < |s.threads| && s.threads[t].pc.Unlock1? && s.threads[t].op.LoadOp? && s.threads[t].committed
    requires m' == Swap(s.m, Old(t), Ret(t)) && Live(m', Ret(t)) && Base(s, t)
    requires m'.heap[m'.box[Ret(t)]].value == s.log[s.threads[t].index].result
    ensures NextLoad(s, t) == Outcome<State<V>>.Ok(
              s.(m := m', lock := Unlocked, threads := s.threads[t := s.threads[t].(pc := Done)],
                  done := s.done + [RecordOf(s, t)]))
  {
    hide Values, Progress, History, Swap;
    var done := s.threads[t].(pc := Done);
    assert s.threads[t := done][t := done] == s.threads[t := done];
  }

  lemma LoadReturns<V>(s: State<V>, t: nat, r: Outcome<State<V>>)
    requires Base(s, t) && s.threads[t].pc.Unlock1? && s.threads[t].op.LoadOp? && r == NextLoad(s, t)
    ensures r.Ok? && Good(s, r.value, t)
  {
    hide Values, Progress, History, Good, Swapped, NextLoad;
    var thr := s.threads[t];
    var m' := Swap(s.m, Old(t), Ret(t));
    PrivateSwap(s.m, Old(t), Ret(t), t, m');
    LoadReturnsLocal(s.m, s.log, t, thr, m', thr.(pc := Done));
    LoadReturnsAs(s, t, m');
    ReturnKeeps(s, t, Unlocked, m', r.value);
  }

  lemma ComputeStep<V>(s: State<V>, t: nat, a: Addr, r: Outcome<State<V>>)
    requires Base(s, t) && s.threads[t].pc.Compute? && r == NextAttempt(s, t, a)
    ensures r.Ok? && (r.value == s || Good(s, r.value, t))
  {
    hide History, Good, Local, Progress;
    LocalParts(s.m, s.log, t, s.threads[t]);
    var thr := s.threads[t];
    if a !in s.m.heap {
      PrivateMake(s.m, New(t), a, thr.op.fn(View(s.m)[Old(t)]), t, r.value.m);
      ComputeLocal(s.m, s.log, t, thr, a, r.value.m, thr.(pc := Lock2));
      PrivateStep(s, t, r.value.m, thr.(pc := Lock2), r.value);
    }
  }

  lemma CompareStep<V>(s: State<V>, t: nat, a: Addr, r: Outcome<State<V>>)
    requires Base(s, t) && s.threads[t].pc.Compare? && r == NextAttempt(s, t, a)
    ensures r.Ok? && Good(s, r.value, t)
  {
    hide History, Good, Local, Progress;
    LocalParts(s.m, s.log, t, s.threads[t]);
    var thr := s.threads[t];
    CompareLocal(s.m, s.log, t, thr, r.value.threads[t]);
    PrivateStep(s, t, s.m, r.value.threads[t], r.value);
  }

  lemma InstallCopyStep<V>(s: State<V>, t: nat, a: Addr, r: Outcome<State<V>>)
    requires Base(s, t) && s.threads[t].pc.InstallCopy? && r == NextAttempt(s, t, a)
    ensures r.Ok? && Good(s, r.value, t)
  {
    hide History, Good, Local, Progress;
    LocalParts(s.m, s.log, t, s.threads[t]);
    var thr := s.threads[t];
    var c := CopyTo(s.m, Aux(t), New(t));
    PrivateCopy(s.m, Aux(t), New(t), t, c);
    InstallCopyLocal(s.m, s.log, t, thr, c.value, thr.(pc := InstallSwap));
    PrivateStep(s, t, c.value, thr.(pc := InstallSwap), r.value);
  }

  lemma InstallSwapStep<V>(s: State<V>, t: nat, a: Addr, r: Outcome<State<V>>)
    requires Base(s, t) && s.threads[t].pc.InstallSwap? && r == NextAttempt(s, t, a)
    ensures r.Ok? && Good(s, r.value, t)
  {
    hide History, Good, SlotSwapped, Local, Progress;
    LocalParts(s.m, s.log, t, s.threads[t]);
    var thr := s.threads[t];
    SwapWithSlot(s.m, Aux(t), t, r.value.m);
    InstallSwapLocal(s.m, s.log, t, thr, r.value.m, r.value.log, r.value.threads[t]);
    CommitStep(s, t, Commit(s, t), r.value.m, r.value.threads[t], r.value);
  }

  lemma InstallDropStep<V>(s: State<V>, t: nat, r: Outcome<State<V>>)
    requires Base(s, t) && s.threads[t].pc.InstallDrop? && r == NextCleanup(s, t)
    ensures r.Ok? && Good(s, r.value, t)
  {
    hide History, Good, Local, Progress;
    LocalParts(s.m, s.log, t, s.threads[t]);
    var thr := s.threads[t];
    var d := Drop(s.m, Aux(t));
    PrivateDrop(s.m, Aux(t), t, d);
    InstallDropLocal(s.m, s.log, t, thr, d.value, thr.(pc := ReturnCopy));
    PrivateStep(s, t, d.value, thr.(pc := ReturnCopy), r.value);
  }

  lemma ReturnCopyStep<V>(s: State<V>, t: nat, r: Outcome<State<V>>)
    requires Base(s, t) && s.threads[t].pc.ReturnCopy? && r == NextCleanup(s, t)
    ensures r.Ok? && Good(s, r.value, t)
  {
    hide History, Good, Local, Progress;
    LocalParts(s.m, s.log, t, s.threads[t]);
    var thr := s.threads[t];
    var c := CopyTo(s.m, Ret(t), New(t));
    PrivateCopy(s.m, Ret(t), New(t), t, c);
    ReturnCopyLocal(s.m, s.log, t, thr, c.value, thr.(pc := Unlock2));
    PrivateStep(s, t, c.value, thr.(pc := Unlock2), r.value);
  }

  lemma DropNewStep<V>(s: State<V>, t: nat, r: Outcome<State<V>>)
    requires Base(s, t) && s.threads[t].pc.DropNew? && r == NextCleanup(s, t)
    ensures r.Ok? && Good(s, r.value, t)
  {
    hide History, Good, Local, Progress;
    LocalParts(s.m, s.log, t, s.threads[t]);
    var thr := s.threads[t];
    var d := Drop(s.m, New(t));
    PrivateDrop(s.m, New(t), t, d);
    DropNewLocal(s.m, s.log, t, thr, d.value, thr.(pc := DropOld));
    PrivateStep(s, t, d.value, thr.(pc := DropOld), r.value);
  }

  lemma RetryStep<V>(s: State<V>, t: nat, r: Outcome<State<V>>)
    requires Base(s, t) && s.threads[t].pc.DropOld? && !s.threads[t].committed && r == NextCleanup(s, t)
    ensures r.Ok? && Good(s, r.value, t)
  {
    hide History, Good, Local, Progress;
    LocalParts(s.m, s.log, t, s.threads[t]);
    var thr := s.threads[t];
    var d := Drop(s.m, Old(t));
    PrivateDrop(s.m, Old(t), t, d);
    DropOldLocal(s.m, s.log, t, thr, d.value, thr.(pc := Lock1));
    PrivateStep(s, t, d.value, thr.(pc := Lock1), r.value);
  }

  /** The returning step of an update, spelled out. */
  lemma UpdateReturnsAs<V>(s: State<V>, t: nat, m': Memory<V>)
    requires Base(s, t) && s.threads[t].pc.DropOld? && s.threads[t].committed && s.threads[t].op.UpdateOp?
    requires Drop(s.m, Old(t)) == Outcome<Memory<V>>.Ok(m') && Live(m', Ret(t))
    requires m'.heap[m'.box[Ret(t)]].value == s.log[s.threads[t].index].result
    ensures NextCleanup(s, t) == Outcome<State<V>>.Ok(
              s.(m := m', threads := s.threads[t := s.threads[t].(pc := Done)], done := s.done + [RecordOf(s, t)]))
  {
    hide Values, Progress, History, Drop;
    var done := s.threads[t].(pc := Done);
    assert s.threads[t := done][t := done] == s.threads[t := done];
  }

  lemma UpdateReturns<V>(s: State<V>, t: nat, r: Outcome<State<V>>)
    requires Base(s, t) && s.threads[t].pc.DropOld? && s.threads[t].committed && r == NextCleanup(s, t)
    ensures r.Ok? && Good(s, r.value, t)
  {
    hide Values, Progress, History, Good, NextCleanup;
    var thr := s.threads[t];
    var d := Drop(s.m, Old(t));
    PrivateDrop(s.m, Old(t), t, d);
    DropOldLocal(s.m, s.log, t, thr, d.value, thr.(pc := Done));
    UpdateReturnsAs(s, t, d.value);
    hide Local, Locals, Phase, RefCounted, View, Private, Dropped;
    ReturnKeeps(s, t, s.lock, d.value, r.value);
  }

  lemma SwapSlotStep<V>(s: State<V>, t: nat, r: Outcome<State<V>>)
    requires Base(s, t) && s.threads[t].pc.SwapSlot? && r == NextSwap(s, t)
    ensures r.Ok? && Good(s, r.value, t)
  {
    hide History, Good, SlotSwapped, Local, Progress;
    LocalParts(s.m, s.log, t, s.threads[t]);
    var thr := s.threads[t];
    SwapWithSlot(s.m, Arg(t), t, r.value.m);
    SwapSlotLocal(s.m, s.log, t, thr, r.value.m, r.value.log, r.value.threads[t]);
    CommitStep(s, t, Commit(s, t), r.value.m, r.value.threads[t], r.value);
  }

  /** The returning step of a store, spelled out. */
  lemma StoreReturnsAs<V>(s: State<V>, t: nat, m': Memory<V>)
    requires Base(s, t) && s.threads[t].pc.SwapEnd? && s.threads[t].op.StoreOp? && s.threads[t].committed
    requires Drop(s.m, Arg(t)) == Outcome<Memory<V>>.Ok(m')
    requires s.threads[t].op.v == s.log[s.threads[t].index].result
    ensures NextSwap(s, t) == Outcome<State<V>>.Ok(
              s.(m := m', threads := s.threads[t := s.threads[t].(pc := Done)], done := s.done + [RecordOf(s, t)]))
  {
    hide Values, Progress, History, Drop;
    var done := s.threads[t].(pc := Done);
    assert s.threads[t := done][t := done] == s.threads[t := done];
  }

  lemma StoreReturns<V>(s: State<V>, t: nat, r: Outcome<State<V>>)
    requires Base(s, t) && s.threads[t].pc.SwapEnd? && s.threads[t].op.StoreOp? && r == NextSwap(s, t)
    ensures r.Ok? && Good(s, r.value, t)
  {
    hide Values, Progress, History, Good, NextSwap;
    var thr := s.threads[t];
    var d := Drop(s.m, Arg(t));
    PrivateDrop(s.m, Arg(t), t, d);
    StoreReturnsLocal(s.m, s.log, t, thr, d.value, thr.(pc := Done));
    StoreReturnsAs(s, t, d.value);
    hide Local, Locals, Phase, RefCounted, View, Private, Dropped;
    ReturnKeeps(s, t, s.lock, d.value, r.value);
  }

  lemma ExchangeReturns<V>(s: State<V>, t: nat, r: Outcome<State<V>>)
    requires Base(s, t) && s.threads[t].pc.SwapEnd? && s.threads[t].op.ExchangeOp? && r == NextSwap(s, t)
    ensures r.Ok? && Good(s, r.value, t)
  {
    hide Values, Progress, History, Good, Swapped;
    var thr := s.threads[t];
    var m' := Swap(s.m, Arg(t), Ret(t));
    PrivateSwap(s.m, Arg(t), Ret(t), t, m');
    ExchangeReturnsLocal(s.m, s.log, t, thr, m', thr.(pc := Done));
    ReturnKeeps(s, t, s.lock, m', r.value);
  }

  lemma MutateStep<V>(s: State<V>, t: nat, a: Addr, r: Outcome<State<V>>)
    requires Base(s, t) && s.threads[t].pc.MutateInPlace? && r == NextBox(s, t, a)
    ensures r.Ok? && Good(s, r.value, t)
  {
    var thr := s.threads[t];
    var k := User(t, thr.pc.i);
    LocalParts(s.m, s.log, t, thr);
    Seen(s.m, k);
    hide History, Good, Local, Locals, Phase, Values, RefCounted, View, Private;
    var v := thr.pc.fn(s.m.heap[s.m.box[k]].value);
    var w := Mutate(s.m, k, v);
    PrivateMutate(s.m, k, v, t, w);
    MutateLocal(s.m, s.log, t, thr, w.value, thr.(pc := Idle));
    PrivateStep(s, t, w.value, thr.(pc := Idle), r.value);
  }

  lemma ReplaceStep<V>(s: State<V>, t: nat, a: Addr, r: Outcome<State<V>>)
    requires Base(s, t) && s.threads[t].pc.Replace? && r == NextBox(s, t, a)
    ensures r.Ok? && (r.value == s || Good(s, r.value, t))
  {
    var thr := s.threads[t];
    var k := User(t, thr.pc.i);
    LocalParts(s.m, s.log, t, thr);
    Seen(s.m, k);
    hide History, Good, Local, Phase, Values, RefCounted, View, Private;
    if a !in s.m.heap {
      var v := thr.pc.fn(s.m.heap[s.m.box[k]].value);
      PrivateMake(s.m, Aux(t), a, v, t, r.value.m);
      ReplaceLocal(s.m, s.log, t, thr, a, v, r.value.m, r.value.threads[t]);
      PrivateStep(s, t, r.value.m, r.value.threads[t], r.value);
    }
  }

  lemma AssignSwapAs<V>(s: State<V>, t: nat, a: Addr, m': Memory<V>, thr': Thread<V>)
    requires t < |s.threads| && s.threads[t].pc.AssignSwap? && m' == Swap(s.m, User(t, s.threads[t].pc.i), Aux(t))
    requires thr' == s.threads[t].(pc := AssignDrop)
    ensures NextBox(s, t, a) == Outcome<State<V>>.Ok(s.(m := m', threads := s.threads[t := thr']))
  {
  }

  lemma AssignSwapStep<V>(s: State<V>, t: nat, a: Addr, r: Outcome<State<V>>)
    requires Base(s, t) && s.threads[t].pc.AssignSwap? && r == NextBox(s, t, a)
    ensures r.Ok? && Good(s, r.value, t)
  {
    var thr := s.threads[t];
    var k := User(t, thr.pc.i);
    var m' := Swap(s.m, k, Aux(t));
    AssignSwapAs(s, t, a, m', thr.(pc := AssignDrop));
    hide History, Good, Swapped, Local, RefCounted, View, Private, Swap, NextBox;
    PrivateSwap(s.m, k, Aux(t), t, m');
    AssignSwapLocal(s.m, s.log, t, thr, m', thr.(pc := AssignDrop));
    PrivateStep(s, t, m', thr.(pc := AssignDrop), r.value);
  }

  lemma AssignDropStep<V>(s: State<V>, t: nat, a: Addr, r: Outcome<State<V>>)
    requires Base(s, t) && s.threads[t].pc.AssignDrop? && r == NextBox(s, t, a)
    ensures r.Ok? && Good(s, r.value, t)
  {
    hide History, Good, Local, Progress;
    LocalParts(s.m, s.log, t, s.threads[t]);
    var thr := s.threads[t];
    var d := Drop(s.m, Aux(t));
    PrivateDrop(s.m, Aux(t), t, d);
    AssignDropLocal(s.m, s.log, t, thr, d.value, thr.(pc := Idle));
    PrivateStep(s, t, d.value, thr.(pc := Idle), r.value);
  }

  // what an idle thread starts

  ghost predicate LocalsKept(b: map<BoxId, Addr>, b': map<BoxId, Addr>, t: nat) {
    forall k :: k in {Old(t), New(t), Arg(t), Aux(t), Ret(t)} ==> (k in b <==> k in b')
  }

  lemma IdleStep<V>(s: State<V>, t: nat, m': Memory<V>, s': State<V>)
    requires Base(s, t) && s.threads[t].pc.Idle? && Private(s.m, m', t) && LocalsKept(s.m.box, m'.box, t)
    requires s' == s.(m := m') || s' == Goto(s.(m := m'), t, Idle)
    ensures Good(s, s', t)
  {
    assert Old(t) in m'.box <==> Old(t) in s.m.box;
    assert Local(m', s.log, t, s.threads[t]);
    assert s'.threads == s.threads;
    PrivateStep(s, t, m', s.threads[t], s');
  }

  lemma BeginLocal<V>(m: Memory<V>, log: seq<Entry<V>>, t: nat, thr: Thread<V>, m': Memory<V>, thr': Thread<V>)
    requires RefCounted(m) && Slot in m.box && Local(m, log, t, thr) && thr.pc.Idle? && Private(m, m', t)
    requires forall i :: 0 <= i < |log| ==> log[i].id != thr'.id
    requires thr' == Thread(thr'.pc, thr'.op, thr'.id, |log|, false, 0, 0, 0, 0)
    requires if thr'.pc.Lock1? then m' == m && (thr'.op.LoadOp? || thr'.op.UpdateOp?)
             else thr'.pc.SwapLock? && (thr'.op.StoreOp? || thr'.op.ExchangeOp?) &&
                  Arg(t) in m'.box && View(m')[Arg(t)] == thr'.op.v && LocalsKept(m.box, m'.box - {Arg(t)}, t)
    ensures Local(m', log, t, thr')
  {
    assert Old(t) !in m.box && New(t) !in m.box && Aux(t) !in m.box && Ret(t) !in m.box;
  }

  lemma BeginStep<V>(s: State<V>, t: nat, m': Memory<V>, thr': Thread<V>, s': State<V>)
    requires Base(s, t) && s.threads[t].pc.Idle? && Private(s.m, m', t)
    requires s' == s.(m := m', threads := s.threads[t := thr'], nextId := s.nextId + 1)
    requires Local(m', s.log, t, thr') && thr'.id == s.nextId && !Holding(thr'.pc)
    ensures Good(s, s', t)
  {
  }

  lemma InvokeKeeps<V>(s: State<V>, t: nat, op: AbsOp<V>, s': State<V>)
    requires Base(s, t) && s.threads[t].pc.Idle? && (op.LoadOp? || op.UpdateOp?) && s' == Begin(s, t, op, Lock1)
    ensures Good(s, s', t)
  {
    BeginLocal(s.m, s.log, t, s.threads[t], s.m, s'.threads[t]);
    BeginStep(s, t, s.m, s'.threads[t], s');
  }

  lemma PassedArgument<V>(m: Memory<V>, i: nat, t: nat, m': Memory<V>)
    requires RefCounted(m) && Slot in m.box && User(t, i) in m.box && Arg(t) !in m.box
    requires Swapped(m, Arg(t), User(t, i), m', t)
    ensures Arg(t) in m'.box && View(m')[Arg(t)] == View(m)[User(t, i)] && LocalsKept(m.box, m'.box - {Arg(t)}, t)
  {
  }

  lemma InvokeSwapKeeps<V>(s: State<V>, t: nat, i: nat, op: AbsOp<V>, s': State<V>)
    requires Base(s, t) && s.threads[t].pc.Idle? && User(t, i) in s.m.box
    requires op == StoreOp(View(s.m)[User(t, i)]) || op == ExchangeOp(View(s.m)[User(t, i)])
    requires s' == Begin(s.(m := Swap(s.m, Arg(t), User(t, i))), t, op, SwapLock)
    ensures Good(s, s', t)
  {
    hide Good, Swapped;
    var m' := Swap(s.m, Arg(t), User(t, i));
    PrivateSwap(s.m, Arg(t), User(t, i), t, m');
    PassedArgument(s.m, i, t, m');
    SwappedIsPrivate(s.m, Arg(t), User(t, i), t, m');
    BeginLocal(s.m, s.log, t, s.threads[t], m', s'.threads[t]);
    BeginStep(s, t, m', s'.threads[t], s');
  }

  lemma SwappedIsPrivate<V>(m: Memory<V>, i: BoxId, j: BoxId, t: nat, m': Memory<V>)
    requires RefCounted(m) && Slot in m.box && Swapped(m, i, j, m', t)
    ensures Private(m, m', t)
    ensures i.User? && j.User? ==> LocalsKept(m.box, m'.box, t)
  {
  }

  /** An idle thread has no locals, and nothing else is asked of it. */
  lemma IdleLocal<V>(m: Memory<V>, log: seq<Entry<V>>, t: nat, thr: Thread<V>)
    requires RefCounted(m) && Slot in m.box && thr.pc.Idle?
    requires Old(t) !in m.box && New(t) !in m.box && Arg(t) !in m.box && Aux(t) !in m.box && Ret(t) !in m.box
    ensures Local(m, log, t, thr)
  {
  }

  /** The locals of a thread after its result was taken. */
  lemma TakenLocals<V>(b: map<BoxId, Addr>, t: nat, thr: Thread<V>, i: nat, b': map<BoxId, Addr>)
    requires Locals(b, t, thr) && thr.pc.Done? && User(t, i) !in b && KeysSwapped(b, b', Ret(t), User(t, i))
    ensures Old(t) !in b' && New(t) !in b' && Arg(t) !in b' && Aux(t) !in b' && Ret(t) !in b'
  {
  }

  lemma TakeLocal<V>(
    m: Memory<V>, log: seq<Entry<V>>, t: nat, thr: Thread<V>, i: nat, m': Memory<V>, thr': Thread<V>)
    requires RefCounted(m) && Slot in m.box && Locals(m.box, t, thr) && thr.pc.Done? && User(t, i) !in m.box
    requires Swapped(m, Ret(t), User(t, i), m', t) && thr' == thr.(pc := Idle)
    ensures RefCounted(m') && Slot in m'.box && Local(m', log, t, thr')
  {
    hide Local, RefCounted, KeysSwapped, Locals;
    TakenLocals(m.box, t, thr, i, m'.box);
    IdleLocal(m', log, t, thr');
  }

  lemma TakeKeeps<V>(s: State<V>, t: nat, i: nat, s': State<V>)
    requires Base(s, t) && s.threads[t].pc.Done? && User(t, i) !in s.m.box
    requires s' == Goto(s.(m := Swap(s.m, Ret(t), User(t, i))), t, Idle)
    ensures Good(s, s', t)
  {
    hide History, Good, Swapped;
    var m' := Swap(s.m, Ret(t), User(t, i));
    PrivateSwap(s.m, Ret(t), User(t, i), t, m');
    TakeLocal(s.m, s.log, t, s.threads[t], i, m', s'.threads[t]);
    SwappedIsPrivate(s.m, Ret(t), User(t, i), t, m');
    PrivateStep(s, t, m', s'.threads[t], s');
  }

  lemma MoveKeeps<V>(s: State<V>, t: nat, i: nat, j: nat, s': State<V>)
    requires Base(s, t) && s.threads[t].pc.Idle? && i != j && s' == s.(m := Swap(s.m, User(t, i), User(t, j)))
    ensures Good(s, s', t)
  {
    hide Good, Swapped;
    PrivateSwap(s.m, User(t, i), User(t, j), t, s'.m);
    SwappedIsPrivate(s.m, User(t, i), User(t, j), t, s'.m);
    IdleStep(s, t, s'.m, s');
  }

  lemma MakeUserKeeps<V>(s: State<V>, t: nat, i: nat, v: V, a: Addr, s': State<V>)
    requires Base(s, t) && s.threads[t].pc.Idle? && User(t, i) !in s.m.box && a !in s.m.heap
    requires s' == s.(m := Make(s.m, User(t, i), a, v))
    ensures Good(s, s', t)
  {
    PrivateMake(s.m, User(t, i), a, v, t, s'.m);
    IdleStep(s, t, s'.m, s');
  }

  lemma CopyUserKeeps<V>(s: State<V>, t: nat, i: nat, j: nat, r: Outcome<State<V>>)
    requires Base(s, t) && s.threads[t].pc.Idle? && User(t, i) !in s.m.box && User(t, j) in s.m.box
    requires r == Then(s, t, CopyTo(s.m, User(t, i), User(t, j)), Idle)
    ensures r.Ok? && Good(s, r.value, t)
  {
    PrivateCopy(s.m, User(t, i), User(t, j), t, CopyTo(s.m, User(t, i), User(t, j)));
    IdleStep(s, t, r.value.m, r.value);
  }

  lemma DestroyKeeps<V>(s: State<V>, t: nat, i: nat, r: Outcome<State<V>>)
    requires Base(s, t) && s.threads[t].pc.Idle? && r == Then(s, t, Drop(s.m, User(t, i)), Idle)
    ensures r.Ok? && Good(s, r.value, t)
  {
    PrivateDrop(s.m, User(t, i), t, Drop(s.m, User(t, i)));
    IdleStep(s, t, r.value.m, r.value);
  }

  lemma CopyAssignLocal<V>(
    m: Memory<V>, log: seq<Entry<V>>, t: nat, thr: Thread<V>, i: nat, j: nat, m': Memory<V>, thr': Thread<V>)
    requires RefCounted(m) && Slot in m.box && Local(m, log, t, thr) && thr.pc.Idle? && User(t, j) in m.box
    requires Copied(m, Aux(t), User(t, j), m', t) && thr' == thr.(pc := AssignSwap(i, View(m)[User(t, j)]))
    ensures Local(m', log, t, thr')
  {
  }

  lemma CopyAssignKeeps<V>(s: State<V>, t: nat, i: nat, j: nat, r: Outcome<State<V>>)
    requires Base(s, t) && s.threads[t].pc.Idle? && User(t, j) in s.m.box
    requires r == Then(s, t, CopyTo(s.m, Aux(t), User(t, j)), AssignSwap(i, View(s.m)[User(t, j)]))
    ensures r.Ok? && Good(s, r.value, t)
  {
    hide History, Good;
    PrivateCopy(s.m, Aux(t), User(t, j), t, CopyTo(s.m, Aux(t), User(t, j)));
    CopyAssignLocal(s.m, s.log, t, s.threads[t], i, j, r.value.m, r.value.threads[t]);
    PrivateStep(s, t, r.value.m, r.value.threads[t], r.value);
  }

  lemma RvalueLocal<V>(m: Memory<V>, log: seq<Entry<V>>, t: nat, thr: Thread<V>, i: nat, thr': Thread<V>)
    requires RefCounted(m) && Slot in m.box && Local(m, log, t, thr) && thr.pc.Idle? && User(t, i) in m.box
    requires thr' == thr.(pc := thr'.pc) && (thr'.pc.MutateInPlace? || thr'.pc.Replace?) && thr'.pc.i == i
    requires thr'.pc.MutateInPlace? ==> Unshared(m.box, User(t, i))
    ensures Local(m, log, t, thr') && Private(m, m, t)
  {
  }

  lemma UpdateRvalueKeeps<V>(s: State<V>, t: nat, i: nat, fn: V -> V, s': State<V>)
    requires Base(s, t) && s.threads[t].pc.Idle? && User(t, i) in s.m.box
    requires s' == Goto(s, t, if s.m.heap[s.m.box[User(t, i)]].count == 1 then MutateInPlace(i, fn) else Replace(i, fn))
    ensures Good(s, s', t)
  {
    UniqueMeansUnshared(s.m, User(t, i));
    RvalueLocal(s.m, s.log, t, s.threads[t], i, s'.threads[t]);
    hide Local, RefCounted, View, Good, History;
    PrivateStep(s, t, s.m, s'.threads[t], s');
  }

  // ----- all steps together

  lemma NextLoadKeeps<V>(s: State<V>, t: nat, r: Outcome<State<V>>)
    requires Base(s, t) && InLoad(s.threads[t].pc) && r == NextLoad(s, t)
    ensures r.Ok? && (r.value == s || Good(s, r.value, t))
  {
    hide History, Good, Local, Commit, Finish;
    var pc := s.threads[t].pc;
    if pc.Lock1? {
      TryLockKeeps(s, t, CopySlot, r.value);
    } else if pc.CopySlot? {
      CopySlotStep(s, t, r);
    } else if s.threads[t].op.LoadOp? {
      LoadReturns(s, t, r);
    } else {
      UnlockKeeps(s, t, Compute, r.value);
    }
  }

  lemma NextAttemptKeeps<V>(s: State<V>, t: nat, a: Addr, r: Outcome<State<V>>)
    requires Base(s, t) && r == NextAttempt(s, t, a)
    ensures r.Ok? && (r.value == s || Good(s, r.value, t))
  {
    hide History, Good, Local, Commit;
    var pc := s.threads[t].pc;
    if pc.Compute? {
      ComputeStep(s, t, a, r);
    } else if pc.Lock2? {
      TryLockKeeps(s, t, Compare, r.value);
    } else if pc.Compare? {
      CompareStep(s, t, a, r);
    } else if pc.InstallCopy? {
      InstallCopyStep(s, t, a, r);
    } else if pc.InstallSwap? {
      InstallSwapStep(s, t, a, r);
    }
  }

  lemma NextCleanupKeeps<V>(s: State<V>, t: nat, r: Outcome<State<V>>)
    requires Base(s, t) && r == NextCleanup(s, t)
    ensures r.Ok? && (r.value == s || Good(s, r.value, t))
  {
    hide History, Good, Local, Finish;
    var pc := s.threads[t].pc;
    if pc.InstallDrop? {
      InstallDropStep(s, t, r);
    } else if pc.ReturnCopy? {
      ReturnCopyStep(s, t, r);
    } else if pc.Unlock2? {
      UnlockKeeps(s, t, DropNew, r.value);
    } else if pc.DropNew? {
      DropNewStep(s, t, r);
    } else if pc.DropOld? && s.threads[t].committed {
      UpdateReturns(s, t, r);
    } else if pc.DropOld? {
      RetryStep(s, t, r);
    }
  }

  lemma NextSwapKeeps<V>(s: State<V>, t: nat, r: Outcome<State<V>>)
    requires Base(s, t) && InSwap(s.threads[t].pc) && r == NextSwap(s, t)
    ensures r.Ok? && (r.value == s || Good(s, r.value, t))
  {
    hide History, Good, Commit, Finish;
    var pc := s.threads[t].pc;
    if pc.SwapLock? {
      TryLockKeeps(s, t, SwapSlot, r.value);
    } else if pc.SwapSlot? {
      SwapSlotStep(s, t, r);
    } else if pc.SwapUnlock? {
      UnlockKeeps(s, t, SwapEnd, r.value);
    } else if s.threads[t].op.StoreOp? {
      StoreReturns(s, t, r);
    } else {
      ExchangeReturns(s, t, r);
    }
  }

  lemma NextBoxKeeps<V>(s: State<V>, t: nat, a: Addr, r: Outcome<State<V>>)
    requires Base(s, t) && r == NextBox(s, t, a)
    ensures r.Ok? && (r.value == s || Good(s, r.value, t))
  {
    hide History, Good, Local;
    var pc := s.threads[t].pc;
    if pc.MutateInPlace? {
      MutateStep(s, t, a, r);
    } else if pc.Replace? {
      ReplaceStep(s, t, a, r);
    } else if pc.AssignSwap? {
      AssignSwapStep(s, t, a, r);
    } else if pc.AssignDrop? {
      AssignDropStep(s, t, a, r);
    }
  }

  lemma NextKeeps<V>(s: State<V>, t: nat, a: Addr, r: Outcome<State<V>>)
    requires Base(s, t) && r == Next(s, t, a)
    ensures r.Ok? && (r.value == s || Good(s, r.value, t))
  {
    hide Base, Good, NextLoad, NextAttempt, NextCleanup, NextSwap, NextBox;
    BaseBound(s, t);
    match s.threads[t].pc
    case Lock1 | CopySlot | Unlock1 => NextLoadKeeps(s, t, r);
    case Compute | Lock2 | Compare | InstallCopy | InstallSwap => NextAttemptKeeps(s, t, a, r);
    case InstallDrop | ReturnCopy | Unlock2 | DropNew | DropOld => NextCleanupKeeps(s, t, r);
    case SwapLock | SwapSlot | SwapUnlock | SwapEnd => NextSwapKeeps(s, t, r);
    case _ => NextBoxKeeps(s, t, a, r);
  }

  lemma BaseBound<V>(s: State<V>, t: nat)
    requires Base(s, t)
    ensures t < |s.threads| && RefCounted(s.m)
  {
  }

  lemma StartKeeps<V>(s: State<V>, t: nat, act: Action<V>, r: Outcome<State<V>>)
    requires Base(s, t) && s.threads[t].pc.Idle? && r == Start(s, t, act)
    ensures r.Ok? && (r.value == s || Good(s, r.value, t))
  {
    hide History, Good, Local, Begin;
    match act
    case InvokeLoad => InvokeKeeps(s, t, LoadOp, r.value);
    case InvokeUpdate(fn) => InvokeKeeps(s, t, UpdateOp(fn), r.value);
    case InvokeStore(i) =>
      if User(t, i) in s.m.box {
        InvokeSwapKeeps(s, t, i, StoreOp(View(s.m)[User(t, i)]), r.value);
      }
    case InvokeExchange(i) =>
      if User(t, i) in s.m.box {
        InvokeSwapKeeps(s, t, i, ExchangeOp(View(s.m)[User(t, i)]), r.value);
      }
    case Create(i, v, a) =>
      if User(t, i) !in s.m.box && a !in s.m.heap {
        MakeUserKeeps(s, t, i, v, a, r.value);
      }
    case CopyBox(i, j) =>
      if User(t, i) !in s.m.box && User(t, j) in s.m.box {
        CopyUserKeeps(s, t, i, j, r);
      }
    case MoveBox(i, j) =>
      if i != j {
        MoveKeeps(s, t, i, j, r.value);
      }
    case CopyAssign(i, j) =>
      if User(t, j) in s.m.box {
        CopyAssignKeeps(s, t, i, j, r);
      }
    case Destroy(i) => DestroyKeeps(s, t, i, r);
    case UpdateConst(i, j, fn, a) =>
      if User(t, i) !in s.m.box && User(t, j) in s.m.box && a !in s.m.heap {
        MakeUserKeeps(s, t, i, fn(View(s.m)[User(t, j)]), a, r.value);
      }
    case UpdateRvalue(i, fn) =>
      if User(t, i) in s.m.box {
        UpdateRvalueKeeps(s, t, i, fn, r.value);
      }
    case _ =>
  }

  /** Returning a cell to the allocator, which may hand its address out again. */
  lemma ReleaseKeeps<V>(s: State<V>, a: Addr, s': State<V>)
    requires Inv(s) && a in s.m.heap && s.m.heap[a].count == 0 && s' == s.(m := Release(s.m, a))
    ensures Inv(s')
  {
    ReleaseIsInvisible(s.m, a);
    forall t | 0 <= t < |s.threads| ensures ThreadInv(s', t) {
      assert ThreadInv(s, t);
    }
  }

  /** No step of any thread touches a null or freed cell, and every step keeps the invariant. */
  lemma StepKeepsInv<V>(s: State<V>, t: nat, act: Action<V>)
    requires Inv(s)
    ensures Step(s, t, act).Ok? && Inv(Step(s, t, act).value)
  {
    hide Good, Next, Start;
    var r := Step(s, t, act);
    if act.ReleaseCell? {
      if act.a in s.m.heap && s.m.heap[act.a].count == 0 {
        ReleaseKeeps(s, act.a, r.value);
      }
    } else if t < |s.threads| {
      assert ThreadInv(s, t);
      assert Base(s, t);
      if act.Advance? {
        NextKeeps(s, t, act.a, r);
      } else if act.Take? {
        if s.threads[t].pc.Done? && User(t, act.i) !in s.m.box {
          TakeKeeps(s, t, act.i, r.value);
        }
      } else if s.threads[t].pc.Idle? {
        StartKeeps(s, t, act, r);
      }
      if r.value != s {
        GoodKeepsInv(s, r.value, t);
      }
    }
  }

  lemma {:induction false} RunKeepsInv<V>(s: State<V>, schedule: seq<(nat, Action<V>)>)
    requires Inv(s)
    ensures Run(s, schedule).Ok? && Inv(Run(s, schedule).value)
    decreases |schedule|
  {
    if schedule != [] {
      StepKeepsInv(s, schedule[0].0, schedule[0].1);
      RunKeepsInv(Step(s, schedule[0].0, schedule[0].1).value, schedule[1..]);
    }
  }

  lemma InitialInv<V>(a: Addr, v: V, threads: nat)
    ensures Inv(Initial(a, v, threads))
    ensures var s := Initial(a, v, threads);
            && View(s.m) == map[Slot := v] && s.lock == Unlocked && s.log == [] && s.done == []
            && |s.threads| == threads && forall t :: 0 <= t < threads ==> s.threads[t].pc.Idle?
  {
    var s := Initial(a, v, threads);
    assert forall x :: x in s.m.heap ==> Owners(s.m.box, x) == {Slot};
  }
}
