/** The global free list under contention: how far the relaxed counter can be from the list. */
module FreeListCounter {
  import opened Counting
  import Spec = FreeListSpec

  /** size_t wraps. */
  const WORD: nat := 0x1_0000_0000_0000_0000

  /** Where a thread is, between two accesses to shared memory; `n` and `b` are nodes. */
  datatype Pc =
    | Idle
    | LoadHead | LoadNext(n: int) | SwapOut(n: int, next: int) | CountDown(n: int) | AllocateFromBase
    | LoadCount(b: int) | Link(b: int) | SwapIn(b: int) | CountUp(b: int) | ReturnToBase(b: int)

  /** The head, the next pointers of the nodes (0 is null), and the counter. `pushes` and `pops` record the
      exchanges that succeeded. */
  datatype State = State(data: int, next: map<int, int>, count: nat, threads: seq<Pc>, pushes: nat, pops: nat)

  /** A thread starts an operation; or goes on, where a weak exchange may fail for no reason; or a word
      is overwritten by whoever has the block. */
  datatype Action = Allocate | Deallocate(b: int) | Advance(spurious: bool) | Overwrite(next: map<int, int>)

  function Goto(s: State, t: nat, pc: Pc): State
    requires t < |s.threads|
  {
    s.(threads := s.threads[t := pc])
  }

  function Advanced(limit: nat, s: State, t: nat, spurious: bool): State
    requires t < |s.threads|
  {
    match s.threads[t]
    case Idle => s
    case LoadHead => Goto(s, t, if s.data == 0 then AllocateFromBase else LoadNext(s.data))
    case AllocateFromBase => Goto(s, t, Idle)
    case LoadNext(n) => Goto(s, t, SwapOut(n, Spec.Load(s.next, n)))
    case SwapOut(n, next) =>
      if s.data == n && !spurious then Goto(s.(data := next, pops := s.pops + 1), t, CountDown(n))
      else Goto(s, t, LoadHead)
    case CountDown(n) => Goto(s.(count := (s.count + WORD - 1) % WORD), t, Idle)
    case LoadCount(b) => Goto(s, t, if s.count >= limit then ReturnToBase(b) else Link(b))
    case ReturnToBase(b) => Goto(s, t, Idle)
    case Link(b) => Goto(s.(next := s.next[b := s.data]), t, SwapIn(b))
    case SwapIn(b) =>
      if s.data == Spec.Load(s.next, b) && !spurious then Goto(s.(data := b, pushes := s.pushes + 1), t, CountUp(b))
      else Goto(s.(next := s.next[b := s.data]), t, Link(b))
    case CountUp(b) => Goto(s.(count := (s.count + 1) % WORD), t, Idle)
  }

  /** One scheduling decision; one that is not possible leaves the state alone. */
  function Step(limit: nat, s: State, t: nat, a: Action): State {
    match a
    case Overwrite(next) => s.(next := next)
    case Advance(spurious) => if t < |s.threads| then Advanced(limit, s, t, spurious) else s
    case Allocate => if t < |s.threads| && s.threads[t].Idle? then Goto(s, t, LoadHead) else s
    case Deallocate(b) => if t < |s.threads| && s.threads[t].Idle? then Goto(s, t, LoadCount(b)) else s
  }

  function Run(limit: nat, s: State, schedule: seq<(nat, Action)>): State
    decreases |schedule|
  {
    if schedule == [] then s else Run(limit, Step(limit, s, schedule[0].0, schedule[0].1), schedule[1..])
  }

  function Initial(threadCount: nat): State {
    State(0, map[], 0, seq(threadCount, _ => Idle), 0, 0)
  }

  // ----- how many threads are where

  /** Between the check of the counter and the increment. */
  function Ahead(pc: Pc): nat {
    if pc.Link? || pc.SwapIn? || pc.CountUp? then 1 else 0
  }

  /** Between the exchange and the increment, or the decrement. */
  function Pushed(pc: Pc): nat {
    if pc.CountUp? then 1 else 0
  }

  function Popped(pc: Pc): nat {
    if pc.CountDown? then 1 else 0
  }

  // ----- what every step keeps

  /** What the counter would be if it did not wrap: the exchanges that have been counted. */
  ghost function Counted(s: State): int {
    s.pushes - Total(Pushed, s.threads) - (s.pops - Total(Popped, s.threads))
  }

  /** The counter is right up to wrapping, and threads that have passed the check are provided for. */
  ghost predicate Inv(limit: nat, s: State) {
    s.count == Counted(s) % WORD && Counted(s) + Total(Ahead, s.threads) <= limit + |s.threads| - 1
  }

  /** A thread passes the check only while the unwrapped count is below the limit. */
  lemma CheckIsSound(c: int, limit: nat)
    requires c < WORD && c % WORD < limit
    ensures c < limit
  {
  }

  lemma Tallies(s: State, t: nat, pc: Pc)
    requires t < |s.threads|
    ensures var ts := s.threads[t := pc];
            && Total(Pushed, ts) == Total(Pushed, s.threads) - Pushed(s.threads[t]) + Pushed(pc)
            && Total(Popped, ts) == Total(Popped, s.threads) - Popped(s.threads[t]) + Popped(pc)
            && Total(Ahead, ts) == Total(Ahead, s.threads) - Ahead(s.threads[t]) + Ahead(pc)
            && Total(Ahead, ts) <= |s.threads|
  {
    TotalUpdate(Pushed, s.threads, t, pc);
    TotalUpdate(Popped, s.threads, t, pc);
    TotalUpdate(Ahead, s.threads, t, pc);
    TotalBound(Ahead, s.threads[t := pc]);
  }

  lemma WrapUp(c: int)
    ensures (c % WORD + 1) % WORD == (c + 1) % WORD
    ensures (c % WORD + WORD - 1) % WORD == (c - 1) % WORD
  {
  }

  lemma StepKeepsInv(limit: nat, s: State, t: nat, a: Action)
    requires Inv(limit, s) && limit + |s.threads| <= WORD
    ensures Inv(limit, Step(limit, s, t, a))
  {
    if t < |s.threads| {
      if a.Advance? {
        AdvanceKeepsInv(limit, s, t, a.spurious);
      } else {
        Tallies(s, t, LoadHead);
        Tallies(s, t, LoadCount(if a.Deallocate? then a.b else 0));
      }
    }
  }

  /** What the counter and the unwrapped count gain in a step. */
  function Gain(pc: Pc): int {
    if pc.CountUp? then 1 else if pc.CountDown? then -1 else 0
  }

  lemma AdvanceEffect(limit: nat, s: State, t: nat, spurious: bool, s': State)
    requires t < |s.threads| && s' == Advanced(limit, s, t, spurious)
    ensures Counted(s') == Counted(s) + Gain(s.threads[t])
    ensures s'.count ==
            if s.threads[t].CountUp? then (s.count + 1) % WORD
            else if s.threads[t].CountDown? then (s.count + WORD - 1) % WORD
            else s.count
    ensures |s'.threads| == |s.threads| && Total(Ahead, s'.threads) <= |s.threads|
    ensures var passes := s.threads[t].LoadCount? && s.count < limit;
            Total(Ahead, s'.threads) ==
            Total(Ahead, s.threads) + if passes then 1 else if s.threads[t].CountUp? then -1 else 0
  {
    hide Total;
    TotalBound(Ahead, s.threads);
    if !s.threads[t].Idle? {
      Tallies(s, t, s'.threads[t]);
    }
  }

  lemma AdvanceKeepsInv(limit: nat, s: State, t: nat, spurious: bool)
    requires Inv(limit, s) && limit + |s.threads| <= WORD && t < |s.threads|
    ensures Inv(limit, Advanced(limit, s, t, spurious))
  {
    var s' := Advanced(limit, s, t, spurious);
    AdvanceEffect(limit, s, t, spurious, s');
    hide Advanced, Counted;
    WrapUp(Counted(s));
    if s.threads[t].LoadCount? && s.count < limit {
      CheckIsSound(Counted(s), limit);
    }
  }

  lemma {:induction false} RunKeepsInv(limit: nat, s: State, schedule: seq<(nat, Action)>)
    requires Inv(limit, s) && limit + |s.threads| <= WORD
    ensures Inv(limit, Run(limit, s, schedule)) && |Run(limit, s, schedule).threads| == |s.threads|
    decreases |schedule|
  {
    if schedule != [] {
      StepKeepsInv(limit, s, schedule[0].0, schedule[0].1);
      RunKeepsInv(limit, Step(limit, s, schedule[0].0, schedule[0].1), schedule[1..]);
    }
  }

  lemma InitialInv(limit: nat, threadCount: nat)
    requires threadCount > 0
    ensures Inv(limit, Initial(threadCount))
  {
    var s := Initial(threadCount);
    TotalZero(Pushed, s.threads);
    TotalZero(Popped, s.threads);
    TotalZero(Ahead, s.threads);
  }

  /** Under every schedule the list retains at most limit + threadCount - 1 nodes, although the counter is read
      and changed apart from the list, may wrap below zero, and stale nodes may be exchanged in. When no
      thread is inside an operation the counter is exact, up to wrapping. */
  lemma RetainedBound(limit: nat, threadCount: nat, schedule: seq<(nat, Action)>)
    requires threadCount > 0 && limit + threadCount <= WORD
    ensures var s := Run(limit, Initial(threadCount), schedule);
            && s.pushes - s.pops <= limit + threadCount - 1
            && ((forall i :: 0 <= i < |s.threads| ==> s.threads[i].Idle?) ==> s.count == (s.pushes - s.pops) % WORD)
  {
    InitialInv(limit, threadCount);
    RunKeepsInv(limit, Initial(threadCount), schedule);
    var s := Run(limit, Initial(threadCount), schedule);
    TotalCompare(Pushed, Ahead, s.threads);
    if forall i :: 0 <= i < |s.threads| ==> s.threads[i].Idle? {
      TotalZero(Pushed, s.threads);
      TotalZero(Popped, s.threads);
    }
  }

  // ----- the bound is attained

  lemma {:induction false} RunConcat(limit: nat, s: State, a: seq<(nat, Action)>, b: seq<(nat, Action)>)
    ensures Run(limit, s, a + b) == Run(limit, Run(limit, s, a), b)
    decreases |a|
  {
    if a == [] {
      assert a + b == b;
    } else {
      RunConcat(limit, Step(limit, s, a[0].0, a[0].1), a[1..], b);
      assert (a + b)[1..] == a[1..] + b;
    }
  }

  /** The first threads, each with a block of its own, have passed the check; the first of them have pushed. */
  ghost predicate Poised(s: State, threadCount: nat, from: nat, to: nat) {
    |s.threads| == threadCount && from <= to <= threadCount &&
    forall i :: 0 <= i < threadCount ==>
      s.threads[i] == if from <= i < to then Link(i + 1) else if i < from then CountUp(i + 1) else Idle
  }

  lemma {:induction false} FillUp(limit: nat, threadCount: nat, n: nat) returns (schedule: seq<(nat, Action)>, s: State)
    requires 0 < threadCount && n <= limit && limit < WORD
    ensures s == Run(limit, Initial(threadCount), schedule)
    ensures Poised(s, threadCount, 0, 0) && s.count == s.pushes == n && s.pops == 0
  {
    if n == 0 {
      schedule, s := [], Initial(threadCount);
    } else {
      var before, s0 := FillUp(limit, threadCount, n - 1);
      var push := [(0, Deallocate(threadCount + n)), (0, Advance(false)), (0, Advance(false)),
          (0, Advance(false)), (0, Advance(false))];
      RunConcat(limit, Initial(threadCount), before, push);
      schedule, s := before + push, Run(limit, s0, push);
      OnePush(limit, s0, threadCount + n, push);
    }
  }

  lemma OnePush(limit: nat, s: State, b: int, push: seq<(nat, Action)>)
    requires |s.threads| > 0 && s.threads[0].Idle? && s.count < limit < WORD
    requires push == [(0, Deallocate(b)), (0, Advance(false)), (0, Advance(false)), (0, Advance(false)),
               (0, Advance(false))]
    ensures var s' := Run(limit, s, push);
            s'.threads == s.threads && s'.count == s.count + 1 && s'.pushes == s.pushes + 1 && s'.pops == s.pops
  {
    var s1 := Step(limit, s, 0, push[0].1);
    var s2 := Step(limit, s1, 0, push[1].1);
    var s3 := Step(limit, s2, 0, push[2].1);
    var s4 := Step(limit, s3, 0, push[3].1);
    var s5 := Step(limit, s4, 0, push[4].1);
    Unrolled(limit, s, push, s1);
    Unrolled(limit, s1, push[1..], s2);
    Unrolled(limit, s2, push[2..], s3);
    Unrolled(limit, s3, push[3..], s4);
    Unrolled(limit, s4, push[4..], s5);
    assert s5.threads == s.threads;
  }

  lemma Unrolled(limit: nat, s: State, schedule: seq<(nat, Action)>, s': State)
    requires schedule != [] && s' == Step(limit, s, schedule[0].0, schedule[0].1)
    ensures Run(limit, s, schedule) == Run(limit, s', schedule[1..])
    ensures |schedule| == 1 ==> Run(limit, s, schedule) == s'
  {
  }

  lemma {:induction false} CheckAll(limit: nat, threadCount: nat, s: State, k: nat)
    returns (schedule: seq<(nat, Action)>, s': State)
    requires Poised(s, threadCount, 0, 0) && k <= threadCount && s.count < limit
    ensures s' == Run(limit, s, schedule) && Poised(s', threadCount, 0, k)
    ensures s'.count == s.count && s'.pushes == s.pushes && s'.pops == s.pops
    decreases k
  {
    if k == 0 {
      schedule, s' := [], s;
    } else {
      var before, s0 := CheckAll(limit, threadCount, s, k - 1);
      var s1 := Step(limit, s0, k - 1, Deallocate(k));
      s' := Step(limit, s1, k - 1, Advance(false));
      var more := [(k - 1, Deallocate(k)), (k - 1, Advance(false))];
      Unrolled(limit, s0, more, s1);
      Unrolled(limit, s1, more[1..], s');
      RunConcat(limit, s, before, more);
      schedule := before + more;
    }
  }

  lemma {:induction false} PushAll(limit: nat, threadCount: nat, s: State, k: nat)
    returns (schedule: seq<(nat, Action)>, s': State)
    requires Poised(s, threadCount, 0, threadCount) && k <= threadCount
    ensures s' == Run(limit, s, schedule) && Poised(s', threadCount, k, threadCount)
    ensures s'.pushes == s.pushes + k && s'.pops == s.pops
    decreases k
  {
    if k == 0 {
      schedule, s' := [], s;
    } else {
      var before, s0 := PushAll(limit, threadCount, s, k - 1);
      var s1 := Step(limit, s0, k - 1, Advance(false));
      s' := Step(limit, s1, k - 1, Advance(false));
      var more := [(k - 1, Advance(false)), (k - 1, Advance(false))];
      Unrolled(limit, s0, more, s1);
      Unrolled(limit, s1, more[1..], s');
      RunConcat(limit, s, before, more);
      schedule := before + more;
    }
  }

  /** No smaller bound holds: all threads may pass the check when one place is left. */
  lemma BoundIsAttained(limit: nat, threadCount: nat) returns (schedule: seq<(nat, Action)>)
    requires 0 < threadCount && 0 < limit < WORD
    ensures var s := Run(limit, Initial(threadCount), schedule); s.pushes - s.pops == limit + threadCount - 1
  {
    var a, s1 := FillUp(limit, threadCount, limit - 1);
    var b, s2 := CheckAll(limit, threadCount, s1, threadCount);
    var c, s3 := PushAll(limit, threadCount, s2, threadCount);
    RunConcat(limit, Initial(threadCount), a, b);
    RunConcat(limit, Initial(threadCount), a + b, c);
    schedule := a + b + c;
  }
}
