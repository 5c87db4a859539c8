/** `immer::atom` over `immer::box`: any number of threads, one step at a time.
    A step is one atomic action of the machine: an attempt on the spinlock, one count
    update, one pointer swap, one allocation, one destructor. */
module Atom {
  import opened BoxHeap

  // ----- the sequential object

  datatype AbsOp<!V> = LoadOp | StoreOp(v: V) | ExchangeOp(v: V) | UpdateOp(fn: V -> V)

  ghost function NextValue<V>(op: AbsOp<V>, cur: V): V {
    match op
    case LoadOp => cur
    case StoreOp(v) => v
    case ExchangeOp(v) => v
    case UpdateOp(fn) => fn(cur)
  }

  /** What the operation returns; a store returns nothing and is given the value stored. */
  ghost function Returned<V>(op: AbsOp<V>, cur: V): V {
    match op
    case LoadOp => cur
    case StoreOp(v) => v
    case ExchangeOp(v) => cur
    case UpdateOp(fn) => fn(cur)
  }

  datatype Entry<!V> = Entry(thread: nat, id: nat, op: AbsOp<V>, result: V)

  ghost function ValueAfter<V>(init: V, log: seq<Entry<V>>): V {
    if log == [] then init
    else NextValue(log[|log| - 1].op, ValueAfter(init, log[..|log| - 1]))
  }

  /** The log is a history of the sequential object. */
  ghost predicate Legal<V>(init: V, log: seq<Entry<V>>) {
    forall i :: 0 <= i < |log| ==> log[i].result == Returned(log[i].op, ValueAfter(init, log[..i]))
  }

  /** How often threads other than `t` have replaced the value. */
  ghost function Installs<V>(log: seq<Entry<V>>, t: nat): nat {
    if log == [] then 0
    else
      var e := log[|log| - 1];
      Installs(log[..|log| - 1], t) + (if e.thread != t && !e.op.LoadOp? then 1 else 0)
  }

  // ----- threads

  datatype Pc<!V> =
    | Idle
    // load, and the load inside update
    | Lock1 | CopySlot | Unlock1
    // the rest of one round of update
    | Compute | Lock2 | Compare | InstallCopy | InstallSwap | InstallDrop | ReturnCopy | Unlock2 | DropNew | DropOld
    // store and exchange
    | SwapLock | SwapSlot | SwapUnlock | SwapEnd
    // the result is in the thread's Ret box
    | Done
    // box operations of more than one step: rvalue update, copy assignment
    | MutateInPlace(i: nat, fn: V -> V) | Replace(i: nat, fn: V -> V) | AssignSwap(i: nat, v: V) | AssignDrop

  datatype Thread<!V> = Thread(pc: Pc<V>, op: AbsOp<V>, id: nat, start: nat, committed: bool, index: nat,
                              fails: nat, first: nat, seen: nat)

  datatype Lock = Unlocked | HeldBy(t: nat)

  /** A finished operation: invoked when the log had length `start`, returned at length
      `end`; `fails` of its comparisons failed, `first` installs by others precede its first load. */
  datatype Record<!V> = Record(thread: nat, id: nat, op: AbsOp<V>, start: nat, end: nat, index: nat, result: V,
                              fails: nat, first: nat)

  datatype State<!V> = State(m: Memory<V>, lock: Lock, threads: seq<Thread<V>>,
                            log: seq<Entry<V>>, done: seq<Record<V>>, nextId: nat, init: V)

  datatype Action<!V> =
    | Advance(a: Addr)          // the thread's next step; an allocation lands on `a`
    | InvokeLoad | InvokeStore(i: nat) | InvokeExchange(i: nat) | InvokeUpdate(fn: V -> V)
    | Take(i: nat)
    | Create(i: nat, v: V, a: Addr) | CopyBox(i: nat, j: nat) | MoveBox(i: nat, j: nat)
    | CopyAssign(i: nat, j: nat) | Destroy(i: nat)
    | UpdateConst(i: nat, j: nat, fn: V -> V, a: Addr) | UpdateRvalue(i: nat, fn: V -> V)
    | ReleaseCell(a: Addr)

  ghost predicate Holding<V>(pc: Pc<V>) {
    pc.CopySlot? || pc.Unlock1? || pc.Compare? || pc.InstallCopy? || pc.InstallSwap? || pc.InstallDrop? ||
    pc.ReturnCopy? || pc.Unlock2? || pc.SwapSlot? || pc.SwapUnlock?
  }

  ghost function Goto<V>(s: State<V>, t: nat, pc: Pc<V>): State<V>
    requires t < |s.threads|
  {
    s.(threads := s.threads[t := s.threads[t].(pc := pc)])
  }

  ghost function Then<V>(s: State<V>, t: nat, m: Outcome<Memory<V>>, pc: Pc<V>): Outcome<State<V>>
    requires t < |s.threads|
  {
    if m.Fault? then Fault else Ok(Goto(s.(m := m.value), t, pc))
  }

  /** Appends the thread's operation to the log: its linearization point. */
  ghost function Commit<V>(s: State<V>, t: nat): State<V>
    requires t < |s.threads| && Live(s.m, Slot)
  {
    var thr := s.threads[t];
    var cur := s.m.heap[s.m.box[Slot]].value;
    s.(log := s.log + [Entry(t, thr.id, thr.op, Returned(thr.op, cur))],
       threads := s.threads[t := thr.(committed := true, index := |s.log|)])
  }

  ghost function Finish<V>(s: State<V>, t: nat): State<V>
    requires t < |s.threads| && (s.threads[t].op.StoreOp? || Live(s.m, Ret(t)))
  {
    var thr := s.threads[t];
    var result := if thr.op.StoreOp? then thr.op.v else s.m.heap[s.m.box[Ret(t)]].value;
    Goto(s.(done := s.done +
      [Record(t, thr.id, thr.op, thr.start, |s.log|, thr.index, result, thr.fails, thr.first)]), t, Done)
  }

  ghost function TryLock<V>(s: State<V>, t: nat, pc: Pc<V>): State<V>
    requires t < |s.threads|
  {
    if s.lock == Unlocked then Goto(s.(lock := HeldBy(t)), t, pc) else s
  }

  ghost function Unlock<V>(s: State<V>, t: nat, pc: Pc<V>): State<V>
    requires t < |s.threads|
  {
    Goto(s.(lock := Unlocked), t, pc)
  }

  /** `load`, on its own or as the start of a round of `update`. */
  ghost function NextLoad<V>(s: State<V>, t: nat): Outcome<State<V>>
    requires t < |s.threads|
  {
    var thr := s.threads[t];
    match thr.pc
    case Lock1 => Ok(TryLock(s, t, CopySlot))
    case CopySlot =>
      if !Live(s.m, Slot) then Fault else
      var installs := Installs(s.log, t);
      var s1 := if thr.op.LoadOp? then Commit(s, t)
                else
                  var first := if thr.fails == 0 then installs else thr.first;
                  s.(threads := s.threads[t := thr.(seen := installs, first := first)]);
      Then(s1, t, CopyTo(s.m, Old(t), Slot), Unlock1)
    case Unlock1 =>
      if !thr.op.LoadOp? then Ok(Unlock(s, t, Compute)) else
      var s1 := Unlock(s.(m := Swap(s.m, Old(t), Ret(t))), t, Done);
      if Live(s1.m, Ret(t)) then Ok(Finish(s1, t)) else Fault
    case _ => Ok(s)
  }

  /** A round of `update` up to the installation. */
  ghost function NextAttempt<V>(s: State<V>, t: nat, a: Addr): Outcome<State<V>>
    requires t < |s.threads|
  {
    var thr := s.threads[t];
    match thr.pc
    case Compute =>
      if !Live(s.m, Old(t)) || !thr.op.UpdateOp? then Fault
      else if a in s.m.heap then Ok(s)
      else Ok(Goto(s.(m := Make(s.m, New(t), a, thr.op.fn(s.m.heap[s.m.box[Old(t)]].value))), t, Lock2))
    case Lock2 => Ok(TryLock(s, t, Compare))
    case Compare =>
      if Old(t) !in s.m.box || Slot !in s.m.box then Fault
      else if s.m.box[Old(t)] == s.m.box[Slot] then Ok(Goto(s, t, InstallCopy))
      else Ok(Goto(s.(threads := s.threads[t := thr.(fails := thr.fails + 1)]), t, Unlock2))
    case InstallCopy => Then(s, t, CopyTo(s.m, Aux(t), New(t)), InstallSwap)
    case InstallSwap =>
      if !Live(s.m, Slot) then Fault
      else Ok(Goto(Commit(s, t).(m := Swap(s.m, Slot, Aux(t))), t, InstallDrop))
    case _ => Ok(s)
  }

  /** The rest of the round: leave the critical section and destroy the locals. */
  ghost function NextCleanup<V>(s: State<V>, t: nat): Outcome<State<V>>
    requires t < |s.threads|
  {
    var thr := s.threads[t];
    match thr.pc
    case InstallDrop => Then(s, t, Drop(s.m, Aux(t)), ReturnCopy)
    case ReturnCopy => Then(s, t, CopyTo(s.m, Ret(t), New(t)), Unlock2)
    case Unlock2 => Ok(Unlock(s, t, DropNew))
    case DropNew => Then(s, t, Drop(s.m, New(t)), DropOld)
    case DropOld =>
      if !thr.committed then Then(s, t, Drop(s.m, Old(t)), Lock1) else
      var r := Then(s, t, Drop(s.m, Old(t)), Done);
      if r.Ok? && Live(r.value.m, Ret(t)) then Ok(Finish(r.value, t)) else Fault
    case _ => Ok(s)
  }

  /** `store` and `exchange`. */
  ghost function NextSwap<V>(s: State<V>, t: nat): Outcome<State<V>>
    requires t < |s.threads|
  {
    var thr := s.threads[t];
    match thr.pc
    case SwapLock => Ok(TryLock(s, t, SwapSlot))
    case SwapSlot =>
      if !Live(s.m, Slot) then Fault
      else Ok(Goto(Commit(s, t).(m := Swap(s.m, Slot, Arg(t))), t, SwapUnlock))
    case SwapUnlock => Ok(Unlock(s, t, SwapEnd))
    case SwapEnd =>
      if thr.op.StoreOp? then
        var r := Then(s, t, Drop(s.m, Arg(t)), Done);
        if r.Ok? then Ok(Finish(r.value, t)) else Fault
      else
        var s1 := s.(m := Swap(s.m, Arg(t), Ret(t)));
        if Live(s1.m, Ret(t)) then Ok(Finish(s1, t)) else Fault
    case _ => Ok(s)
  }

  /** The rvalue `update` after its `unique` test, and the copy assignment that shares its tail. */
  ghost function NextBox<V>(s: State<V>, t: nat, a: Addr): Outcome<State<V>>
    requires t < |s.threads|
  {
    match s.threads[t].pc
    case MutateInPlace(i, fn) =>
      if !Live(s.m, User(t, i)) then Fault
      else Then(s, t, Mutate(s.m, User(t, i), fn(s.m.heap[s.m.box[User(t, i)]].value)), Idle)
    case Replace(i, fn) =>
      if !Live(s.m, User(t, i)) then Fault
      else if a in s.m.heap then Ok(s)
      else
        var v := fn(s.m.heap[s.m.box[User(t, i)]].value);
        Ok(Goto(s.(m := Make(s.m, Aux(t), a, v)), t, AssignSwap(i, v)))
    case AssignSwap(i, v) => Ok(Goto(s.(m := Swap(s.m, User(t, i), Aux(t))), t, AssignDrop))
    case AssignDrop => Then(s, t, Drop(s.m, Aux(t)), Idle)
    case _ => Ok(s)
  }

  /** The next machine step of a thread that is inside an operation. */
  ghost function Next<V>(s: State<V>, t: nat, a: Addr): Outcome<State<V>>
    requires t < |s.threads|
  {
    match s.threads[t].pc
    case Lock1 | CopySlot | Unlock1 => NextLoad(s, t)
    case Compute | Lock2 | Compare | InstallCopy | InstallSwap => NextAttempt(s, t, a)
    case InstallDrop | ReturnCopy | Unlock2 | DropNew | DropOld => NextCleanup(s, t)
    case SwapLock | SwapSlot | SwapUnlock | SwapEnd => NextSwap(s, t)
    case _ => NextBox(s, t, a)
  }

  ghost function Begin<V>(s: State<V>, t: nat, op: AbsOp<V>, pc: Pc<V>): State<V>
    requires t < |s.threads|
  {
    s.(threads := s.threads[t := Thread(pc, op, s.nextId, |s.log|, false, 0, 0, 0, 0)], nextId := s.nextId + 1)
  }

  /** What an idle thread may start. Copying from, or passing on, a moved-from box is
      the caller's error and is not offered; nor is constructing over a live box. */
  ghost function Start<V>(s: State<V>, t: nat, act: Action<V>): Outcome<State<V>>
    requires t < |s.threads|
  {
    var box := s.m.box;
    match act
    case InvokeLoad => Ok(Begin(s, t, LoadOp, Lock1))
    case InvokeUpdate(fn) => Ok(Begin(s, t, UpdateOp(fn), Lock1))
    case InvokeStore(i) =>
      if User(t, i) !in box then Ok(s) else if !Live(s.m, User(t, i)) then Fault
      else Ok(Begin(s.(m := Swap(s.m, Arg(t), User(t, i))), t, StoreOp(s.m.heap[box[User(t, i)]].value), SwapLock))
    case InvokeExchange(i) =>
      if User(t, i) !in box then Ok(s) else if !Live(s.m, User(t, i)) then Fault
      else Ok(Begin(s.(m := Swap(s.m, Arg(t), User(t, i))), t, ExchangeOp(s.m.heap[box[User(t, i)]].value), SwapLock))
    case Create(i, v, a) =>
      if User(t, i) in box || a in s.m.heap then Ok(s) else Ok(s.(m := Make(s.m, User(t, i), a, v)))
    case CopyBox(i, j) =>
      if User(t, i) in box || User(t, j) !in box then Ok(s) else Then(s, t, CopyTo(s.m, User(t, i), User(t, j)), Idle)
    case MoveBox(i, j) =>
      if i == j then Ok(s) else Ok(s.(m := Swap(s.m, User(t, i), User(t, j))))
    case CopyAssign(i, j) =>
      if User(t, j) !in box then Ok(s) else if !Live(s.m, User(t, j)) then Fault
      else Then(s, t, CopyTo(s.m, Aux(t), User(t, j)), AssignSwap(i, s.m.heap[box[User(t, j)]].value))
    case Destroy(i) => Then(s, t, Drop(s.m, User(t, i)), Idle)
    case UpdateConst(i, j, fn, a) =>
      if User(t, i) in box || User(t, j) !in box || a in s.m.heap then Ok(s) else if !Live(s.m, User(t, j)) then Fault
      else Ok(s.(m := Make(s.m, User(t, i), a, fn(s.m.heap[box[User(t, j)]].value))))
    case UpdateRvalue(i, fn) =>
      if User(t, i) !in box then Ok(s) else if !Live(s.m, User(t, i)) then Fault
      else Ok(Goto(s, t, if s.m.heap[box[User(t, i)]].count == 1 then MutateInPlace(i, fn) else Replace(i, fn)))
    case _ => Ok(s)
  }

  /** One scheduling decision; an action that is not possible leaves the state alone. */
  ghost function Step<V>(s: State<V>, t: nat, act: Action<V>): Outcome<State<V>> {
    if act.ReleaseCell? then
      if act.a in s.m.heap && s.m.heap[act.a].count == 0 then Ok(s.(m := Release(s.m, act.a))) else Ok(s)
    else if t >= |s.threads| then Ok(s)
    else if act.Advance? then Next(s, t, act.a)
    else if act.Take? then
      if s.threads[t].pc.Done? && User(t, act.i) !in s.m.box
      then Ok(Goto(s.(m := Swap(s.m, Ret(t), User(t, act.i))), t, Idle)) else Ok(s)
    else if s.threads[t].pc.Idle? then Start(s, t, act)
    else Ok(s)
  }

  ghost function Run<V>(s: State<V>, schedule: seq<(nat, Action<V>)>): Outcome<State<V>>
    decreases |schedule|
  {
    if schedule == [] then Ok(s)
    else
      var r := Step(s, schedule[0].0, schedule[0].1);
      if r.Fault? then Fault else Run(r.value, schedule[1..])
  }

  ghost function Initial<V>(a: Addr, v: V, threads: nat): State<V> {
    State(Memory(map[a := Cell(1, v)], map[Slot := a]), Unlocked,
          seq(threads, i => Thread(Idle, LoadOp, 0, 0, false, 0, 0, 0, 0)), [], [], 0, v)
  }
}
