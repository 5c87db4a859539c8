/** Who has which block while threads contend for the global free list. */
module FreeListOwnership {
  import opened Wrappers
  import opened FreeListCounter
  import Spec = FreeListSpec

  /** A block from the base heap is on the list, with a caller, or with a thread inside an operation. */
  datatype Where = InList | WithCaller | WithThread(t: nat)

  /** `list` and `place` record what the operations are meant to do. */
  datatype Owned = Owned(s: State, list: seq<int>, place: map<int, Where>)

  /** A scheduling decision; `p` is what the base heap would return. */
  datatype Turn = Turn(t: nat, action: Action, p: int)

  /** The block that a thread has. After the exchange of a push it is on the list. */
  function Hand(pc: Pc): Option<int> {
    match pc
    case LoadCount(b) => Some(b)
    case Link(b) => Some(b)
    case SwapIn(b) => Some(b)
    case ReturnToBase(b) => Some(b)
    case CountDown(n) => Some(n)
    case _ => None
  }

  /** A caller writes to its own blocks only; memory that is no block may change at any time. */
  ghost predicate Harmless(o: Owned, next: map<int, int>) {
    forall n :: n in o.place && o.place[n] != WithCaller ==> Spec.Load(next, n) == Spec.Load(o.s.next, n)
  }

  /** What an exchange or a hand-over means for the records. */
  ghost function Moved(o: Owned, t: nat, spurious: bool, p: int, s': State): Owned
    requires t < |o.s.threads|
  {
    match o.s.threads[t]
    case AllocateFromBase =>
      if p == 0 || p in o.place then o else Owned(s', o.list, o.place[p := WithCaller])
    case SwapOut(n, next) =>
      if o.s.data == n && !spurious && o.list != [] then Owned(s', o.list[1..], o.place[n := WithThread(t)])
      else Owned(s', o.list, o.place)
    case CountDown(n) => Owned(s', o.list, o.place[n := WithCaller])
    case ReturnToBase(b) => Owned(s', o.list, o.place - {b})
    case SwapIn(b) =>
      if o.s.data == Spec.Load(o.s.next, b) && !spurious then Owned(s', [b] + o.list, o.place[b := InList])
      else Owned(s', o.list, o.place)
    case _ => Owned(s', o.list, o.place)
  }

  /** Callers release what they have and write to nothing else. */
  ghost function Next(limit: nat, o: Owned, turn: Turn): Owned {
    var t, s' := turn.t, Step(limit, o.s, turn.t, turn.action);
    match turn.action
    case Overwrite(next) => if Harmless(o, next) then o.(s := s') else o
    case Allocate => o.(s := s')
    case Deallocate(b) =>
      if t < |o.s.threads| && o.s.threads[t].Idle? && b in o.place && o.place[b] == WithCaller
      then Owned(s', o.list, o.place[b := WithThread(t)])
      else o
    case Advance(spurious) => if t < |o.s.threads| then Moved(o, t, spurious, turn.p, s') else o
  }

  ghost function RunOwned(limit: nat, o: Owned, schedule: seq<Turn>): Owned
    decreases |schedule|
  {
    if schedule == [] then o else RunOwned(limit, Next(limit, o, schedule[0]), schedule[1..])
  }

  ghost function Start(threadCount: nat): Owned {
    Owned(Initial(threadCount), [], map[])
  }

  // ----- exclusive ownership

  ghost predicate Is(place: map<int, Where>, b: int, w: Where) {
    b in place && place[b] == w
  }

  /** The nodes reached from the head are the recorded ones, each once, and they are the blocks on the list. */
  ghost predicate Linked(o: Owned) {
    && Spec.Chain(o.s.next, o.s.data, o.list) && Spec.Distinct(o.list)
    && (forall n :: n in o.list <==> Is(o.place, n, InList))
  }

  /** A thread has a block exactly when the record says so. */
  ghost predicate Handed(o: Owned) {
    forall u: nat, b :: Is(o.place, b, WithThread(u)) <==> u < |o.s.threads| && Hand(o.s.threads[u]) == Some(b)
  }

  ghost predicate NodeKnown(pc: Pc) {
    match pc
    case LoadNext(n) => n != 0
    case SwapOut(n, _) => n != 0
    case _ => true
  }

  ghost predicate NotNull(o: Owned) {
    0 !in o.place && forall t :: 0 <= t < |o.s.threads| ==> NodeKnown(o.s.threads[t])
  }

  /** Every block from the base heap has one owner: the list, one caller, or one thread. */
  ghost predicate Exclusive(o: Owned) {
    Linked(o) && Handed(o) && NotNull(o)
  }

  /** Where a thread takes the head, the next pointer it has read is still the one in the node. */
  ghost predicate Right(o: Owned, turn: Turn) {
    turn.t < |o.s.threads| && turn.action.Advance? && !turn.action.spurious && o.s.threads[turn.t].SwapOut? &&
    o.s.data == o.s.threads[turn.t].n ==>
      o.s.threads[turn.t].next == Spec.Load(o.s.next, o.s.data)
  }

  /** A step of thread `t` that lays its hands off what it had, and on what it has then. */
  lemma HandsOn(o: Owned, o': Owned, t: nat, pc: Pc)
    requires Handed(o) && NotNull(o) && t < |o.s.threads| && o'.s.threads == o.s.threads[t := pc]
    requires NodeKnown(pc) && 0 !in o'.place
    requires forall b :: Is(o'.place, b, WithThread(t)) <==> Hand(pc) == Some(b)
    requires forall u: nat, b :: u != t ==> (Is(o'.place, b, WithThread(u)) <==> Is(o.place, b, WithThread(u)))
    ensures Handed(o') && NotNull(o')
  {
    hide Is, Hand, NodeKnown;
  }

  /** A step that leaves the list alone. */
  lemma ListStays(o: Owned, o': Owned)
    requires Linked(o) && o'.list == o.list && o'.s.data == o.s.data
    requires forall n :: n in o.list ==> Spec.Load(o'.s.next, n) == Spec.Load(o.s.next, n)
    requires forall n :: Is(o'.place, n, InList) <==> Is(o.place, n, InList)
    ensures Linked(o')
  {
    Spec.ChainElsewhere(o.s.next, o'.s.next, o.s.data, o.list);
  }

  /** The steps of thread `t` on the records, apart from the two exchanges. */
  lemma MoveKeeps(o: Owned, o': Owned, t: nat, pc: Pc)
    requires Exclusive(o) && t < |o.s.threads| && o'.s.threads == o.s.threads[t := pc] && NodeKnown(pc)
    requires o'.list == o.list && o'.s.data == o.s.data
    requires forall n :: n in o.list ==> Spec.Load(o'.s.next, n) == Spec.Load(o.s.next, n)
    requires
      || (o'.place == o.place && Hand(pc) == Hand(o.s.threads[t]))
      || (exists b :: Is(o.place, b, WithCaller) && o'.place == o.place[b := WithThread(t)]
                      && Hand(o.s.threads[t]) == None && Hand(pc) == Some(b))
      || (exists b :: b != 0 && b !in o.place && o'.place == o.place[b := WithCaller]
                      && Hand(o.s.threads[t]) == None && Hand(pc) == None)
      || (exists b :: Hand(o.s.threads[t]) == Some(b) && Hand(pc) == None
                      && (o'.place == o.place[b := WithCaller] || o'.place == o.place - {b}))
    ensures Exclusive(o')
  {
    assert forall b :: Hand(o.s.threads[t]) == Some(b) ==> Is(o.place, b, WithThread(t));
    assert forall b :: Is(o.place, b, WithThread(t)) ==> Hand(o.s.threads[t]) == Some(b);
    ListStays(o, o');
    HandsOn(o, o', t, pc);
  }

  lemma HeadOfList(o: Owned)
    requires Linked(o) && o.s.data != 0
    ensures o.list != [] && o.list[0] == o.s.data
    ensures Spec.Chain(o.s.next, Spec.Load(o.s.next, o.s.data), o.list[1..])
  {
  }

  /** The head of the list goes to thread `t`. */
  lemma HeadTaken(o: Owned, o': Owned, t: nat, n: int, next: int)
    requires Exclusive(o) && t < |o.s.threads| && o.s.threads[t] == SwapOut(n, next) && o.s.data == n
    requires o'.s.threads == o.s.threads[t := CountDown(n)] && o'.s.next == o.s.next && o'.s.data == next
    requires o'.place == o.place[n := WithThread(t)]
    requires Spec.Chain(o.s.next, next, o'.list) && Spec.Distinct(o'.list)
    requires forall b :: b in o'.list <==> b in o.list && b != n
    ensures Exclusive(o')
  {
    HeadOfList(o);
    assert Is(o.place, n, InList);
    HandsOn(o, o', t, CountDown(n));
  }

  lemma PopKeeps(limit: nat, o: Owned, turn: Turn)
    requires Exclusive(o) && turn.t < |o.s.threads| && turn.action.Advance? && o.s.threads[turn.t].SwapOut?
    requires Right(o, turn)
    ensures Exclusive(Next(limit, o, turn))
  {
    var o', n, next := Next(limit, o, turn), o.s.threads[turn.t].n, o.s.threads[turn.t].next;
    if o.s.data == n && !turn.action.spurious {
      HeadOfList(o);
      assert forall b :: b in o.list ==> b == o.list[0] || b in o.list[1..];
      HeadTaken(o, o', turn.t, n, next);
    } else {
      MoveKeeps(o, o', turn.t, LoadHead);
    }
  }

  lemma InHand(o: Owned, t: nat, b: int)
    requires Handed(o) && t < |o.s.threads| && Hand(o.s.threads[t]) == Some(b)
    ensures Is(o.place, b, WithThread(t))
  {
  }

  /** Thread `t` puts its block in front of the list. */
  lemma HeadPut(o: Owned, o': Owned, t: nat, b: int)
    requires Exclusive(o) && t < |o.s.threads| && o.s.threads[t] == SwapIn(b) && o.s.data == Spec.Load(o.s.next, b)
    requires o'.s.threads == o.s.threads[t := CountUp(b)] && o'.s.next == o.s.next && o'.s.data == b
    requires o'.list == [b] + o.list && o'.place == o.place[b := InList]
    ensures Exclusive(o')
  {
    InHand(o, t, b);
    assert o'.list[1..] == o.list;
    assert !Is(o.place, b, InList);
    assert Linked(o');
    HandsOn(o, o', t, CountUp(b));
  }

  lemma PushKeeps(limit: nat, o: Owned, turn: Turn)
    requires Exclusive(o) && turn.t < |o.s.threads| && turn.action.Advance? && o.s.threads[turn.t].SwapIn?
    ensures Exclusive(Next(limit, o, turn))
  {
    var o', b := Next(limit, o, turn), o.s.threads[turn.t].b;
    InHand(o, turn.t, b);
    if o.s.data == Spec.Load(o.s.next, b) && !turn.action.spurious {
      HeadPut(o, o', turn.t, b);
    } else {
      MoveKeeps(o, o', turn.t, Link(b));
    }
  }

  lemma OtherStepKeeps(limit: nat, o: Owned, turn: Turn)
    requires Exclusive(o) && turn.t < |o.s.threads| && turn.action.Advance?
    requires !o.s.threads[turn.t].SwapIn? && !o.s.threads[turn.t].SwapOut?
    ensures Exclusive(Next(limit, o, turn))
  {
    var o' := Next(limit, o, turn);
    if o' != o {
      if Hand(o.s.threads[turn.t]).Some? {
        assert Is(o.place, Hand(o.s.threads[turn.t]).value, WithThread(turn.t));
      }
      MoveKeeps(o, o', turn.t, o'.s.threads[turn.t]);
    }
  }

  /** Every step but the exchange of a pop keeps exclusive ownership, and so does that one if the next pointer
      is right. */
  lemma NextKeeps(limit: nat, o: Owned, turn: Turn)
    requires Exclusive(o) && Right(o, turn)
    ensures Exclusive(Next(limit, o, turn))
  {
    match turn.action
    case Overwrite(next) =>
      if Harmless(o, next) {
        assert forall n :: n in o.list ==> Is(o.place, n, InList);
        ListStays(o, o.(s := o.s.(next := next)));
      }
    case Allocate =>
      if turn.t < |o.s.threads| && o.s.threads[turn.t].Idle? {
        MoveKeeps(o, Next(limit, o, turn), turn.t, LoadHead);
      }
    case Deallocate(b) =>
      if turn.t < |o.s.threads| && o.s.threads[turn.t].Idle? && Is(o.place, b, WithCaller) {
        MoveKeeps(o, Next(limit, o, turn), turn.t, LoadCount(b));
      }
    case Advance(_) =>
      if turn.t < |o.s.threads| {
        match o.s.threads[turn.t]
        case SwapOut(_, _) => PopKeeps(limit, o, turn);
        case SwapIn(_) => PushKeeps(limit, o, turn);
        case _ => OtherStepKeeps(limit, o, turn);
      }
  }

  // ----- whole runs

  /** No pop of the run goes wrong. */
  ghost predicate AllRight(limit: nat, o: Owned, schedule: seq<Turn>)
    decreases |schedule|
  {
    schedule == [] || (Right(o, schedule[0]) && AllRight(limit, Next(limit, o, schedule[0]), schedule[1..]))
  }

  lemma StartExclusive(threadCount: nat)
    ensures Exclusive(Start(threadCount))
  {
  }

  lemma {:induction false} RunKeepsExclusive(limit: nat, o: Owned, schedule: seq<Turn>)
    requires Exclusive(o) && AllRight(limit, o, schedule)
    ensures Exclusive(RunOwned(limit, o, schedule))
    decreases |schedule|
  {
    hide Exclusive, Right, Next;
    if schedule != [] {
      NextKeeps(limit, o, schedule[0]);
      RunKeepsExclusive(limit, Next(limit, o, schedule[0]), schedule[1..]);
    }
  }

  // ----- when a pop goes wrong

  lemma {:induction false} ChainUnique(memory: map<int, int>, data: int, a: seq<int>, b: seq<int>)
    requires Spec.Chain(memory, data, a) && Spec.Chain(memory, data, b)
    ensures a == b
    decreases |a|
  {
    if a != [] && b != [] {
      ChainUnique(memory, Spec.Load(memory, data), a[1..], b[1..]);
      assert a == [a[0]] + a[1..] && b == [b[0]] + b[1..];
    }
  }

  lemma {:induction false} ChainFrom(memory: map<int, int>, data: int, nodes: seq<int>, k: nat)
    requires Spec.Chain(memory, data, nodes) && k < |nodes|
    ensures Spec.Chain(memory, nodes[k], nodes[k..])
    decreases k
  {
    if k > 0 {
      ChainFrom(memory, Spec.Load(memory, data), nodes[1..], k - 1);
      assert nodes[1..][k - 1..] == nodes[k..];
    } else {
      assert nodes[0..] == nodes;
    }
  }

  /** All but the first node of a chain can be reached from one place only. */
  lemma OnlyTail(memory: map<int, int>, nodes: seq<int>, next: int, l: seq<int>)
    requires nodes != [] && Spec.Chain(memory, nodes[0], nodes) && Spec.Distinct(nodes) && Spec.Chain(memory, next, l)
    requires forall b :: b in l <==> b in nodes && b != nodes[0]
    ensures next == Spec.Load(memory, nodes[0])
  {
    assert |nodes| > 1 ==> nodes[1] in l;
    if l != [] {
      assert next in l;
      var k :| 0 <= k < |nodes| && nodes[k] == next;
      ChainFrom(memory, nodes[0], nodes, k);
      ChainUnique(memory, next, l, nodes[k..]);
      var i :| 0 <= i < |l| && l[i] == nodes[1];
      assert nodes[k + i] == nodes[1];
    }
  }

  /** After the exchange of a pop every block still has one owner, whatever nodes the list is taken to have,
      exactly if the next pointer was right. */
  lemma PopIsRightOrBreaks(limit: nat, o: Owned, turn: Turn, n: int, next: int)
    requires Exclusive(o) && turn.t < |o.s.threads| && turn.action == Advance(false)
    requires o.s.threads[turn.t] == SwapOut(n, next) && o.s.data == n
    ensures next == Spec.Load(o.s.next, n) <==> exists l :: Exclusive(Next(limit, o, turn).(list := l))
  {
    var o' := Next(limit, o, turn);
    HeadOfList(o);
    if next == Spec.Load(o.s.next, n) {
      PopKeeps(limit, o, turn);
      assert Exclusive(o'.(list := o'.list));
    }
    if l :| Exclusive(o'.(list := l)) {
      assert forall b :: b in o.list <==> Is(o.place, b, InList);
      assert forall b :: b in l <==> Is(o'.place, b, InList);
      OnlyTail(o.s.next, o.list, next, l);
    }
  }

  // ----- one thread popping at a time

  /** Between reading the head and exchanging it. */
  predicate Popping(pc: Pc) {
    pc.LoadNext? || pc.SwapOut?
  }

  ghost predicate OnePopping(s: State) {
    forall t, u :: 0 <= t < u < |s.threads| ==> !Popping(s.threads[t]) || !Popping(s.threads[u])
  }

  ghost predicate AlwaysOnePopping(limit: nat, o: Owned, schedule: seq<Turn>)
    decreases |schedule|
  {
    OnePopping(o.s) && (schedule == [] || AlwaysOnePopping(limit, Next(limit, o, schedule[0]), schedule[1..]))
  }

  ghost predicate Current(o: Owned, pc: Pc) {
    match pc
    case LoadNext(n) => Is(o.place, n, InList)
    case SwapOut(n, next) => Is(o.place, n, InList) && Spec.Load(o.s.next, n) == next
    case _ => true
  }

  /** What a popping thread has read is still so. */
  ghost predicate UpToDate(o: Owned) {
    forall t :: 0 <= t < |o.s.threads| ==> Current(o, o.s.threads[t])
  }

  lemma UpToDateIsRight(o: Owned, turn: Turn)
    requires UpToDate(o)
    ensures Right(o, turn)
  {
  }

  /** A step after which the listed blocks are still listed and unchanged. */
  lemma StayUpToDate(o: Owned, o': Owned, t: nat, pc: Pc)
    requires UpToDate(o) && t < |o.s.threads| && o'.s.threads == o.s.threads[t := pc] && Current(o', pc)
    requires forall n :: Is(o.place, n, InList) ==>
               Is(o'.place, n, InList) && Spec.Load(o'.s.next, n) == Spec.Load(o.s.next, n)
    ensures UpToDate(o')
  {
    hide Is;
  }

  lemma PopStaysUpToDate(o: Owned, o': Owned, t: nat, pc: Pc)
    requires OnePopping(o.s) && t < |o.s.threads| && Popping(o.s.threads[t]) && !Popping(pc)
    requires o'.s.threads == o.s.threads[t := pc]
    ensures UpToDate(o')
  {
    forall u | 0 <= u < |o.s.threads| ensures !Popping(o'.s.threads[u]) {
      assert u != t ==> !Popping(o.s.threads[u]);
    }
  }

  lemma NextKeepsUpToDate(limit: nat, o: Owned, turn: Turn)
    requires Exclusive(o) && UpToDate(o) && OnePopping(o.s)
    ensures UpToDate(Next(limit, o, turn))
  {
    var o', t := Next(limit, o, turn), turn.t;
    if turn.action.Overwrite? || t >= |o.s.threads| || o' == o {
    } else {
      var pc, pc' := o.s.threads[t], o'.s.threads[t];
      if pc.SwapOut? && !Popping(pc') {
        PopStaysUpToDate(o, o', t, pc');
      } else {
        if Hand(pc).Some? {
          InHand(o, t, Hand(pc).value);
        }
        if pc.LoadHead? && o.s.data != 0 {
          HeadOfList(o);
          assert Is(o.place, o.s.data, InList);
        }
        StayUpToDate(o, o', t, pc');
      }
    }
  }

  lemma {:induction false} OnePopperIsRight(limit: nat, o: Owned, schedule: seq<Turn>)
    requires Exclusive(o) && UpToDate(o) && AlwaysOnePopping(limit, o, schedule)
    ensures AllRight(limit, o, schedule)
    decreases |schedule|
  {
    hide Exclusive, UpToDate, Right, Next, OnePopping;
    if schedule != [] {
      UpToDateIsRight(o, schedule[0]);
      NextKeeps(limit, o, schedule[0]);
      NextKeepsUpToDate(limit, o, schedule[0]);
      OnePopperIsRight(limit, Next(limit, o, schedule[0]), schedule[1..]);
    }
  }

  /** In a run in which at most one thread at a time is between reading the head and exchanging it, however
      releases and writes come in between, no block is lost and none has two owners. */
  lemma OneOwner(limit: nat, threadCount: nat, schedule: seq<Turn>)
    requires AlwaysOnePopping(limit, Start(threadCount), schedule)
    ensures Exclusive(RunOwned(limit, Start(threadCount), schedule))
  {
    StartExclusive(threadCount);
    OnePopperIsRight(limit, Start(threadCount), schedule);
    RunKeepsExclusive(limit, Start(threadCount), schedule);
  }

  // ----- a run that breaks it

  lemma {:induction false} RunOwnedConcat(limit: nat, o: Owned, a: seq<Turn>, b: seq<Turn>)
    ensures RunOwned(limit, o, a + b) == RunOwned(limit, RunOwned(limit, o, a), b)
    decreases |a|
  {
    hide Next;
    if a == [] {
      assert a + b == b;
    } else {
      RunOwnedConcat(limit, Next(limit, o, a[0]), a[1..], b);
      assert (a + b)[1..] == a[1..] + b;
    }
  }

  lemma OneMore(limit: nat, o: Owned, before: seq<Turn>, o1: Owned, turn: Turn) returns (turns: seq<Turn>)
    requires RunOwned(limit, o, before) == o1
    ensures turns == before + [turn] && RunOwned(limit, o, turns) == Next(limit, o1, turn)
  {
    hide Next;
    RunOwnedConcat(limit, o, before, [turn]);
    turns := before + [turn];
    assert [turn][1..] == [];
  }

  /** Thread `t` goes on by itself, `n` steps. */
  function Alone(t: nat, n: nat, p: int): seq<Turn> {
    seq(n, _ => Turn(t, Advance(false), p))
  }

  ghost function Steps(limit: nat, o: Owned, t: nat, n: nat, p: int): Owned {
    if n == 0 then o else Next(limit, Steps(limit, o, t, n - 1, p), Turn(t, Advance(false), p))
  }

  lemma {:induction false} StepsRun(limit: nat, o: Owned, t: nat, n: nat, p: int)
    ensures RunOwned(limit, o, Alone(t, n, p)) == Steps(limit, o, t, n, p)
  {
    hide Next;
    if n > 0 {
      StepsRun(limit, o, t, n - 1, p);
      var turns := OneMore(limit, o, Alone(t, n - 1, p), Steps(limit, o, t, n - 1, p), Turn(t, Advance(false), p));
      assert turns == Alone(t, n, p);
    }
  }

  /** An operation of thread `t` up to its end. */
  lemma Whole(limit: nat, o: Owned, start: Turn, n: nat, o': Owned) returns (turns: seq<Turn>)
    requires Steps(limit, Next(limit, o, start), start.t, n, start.p) == o'
    ensures RunOwned(limit, o, turns) == o'
  {
    hide Next, Steps;
    StepsRun(limit, Next(limit, o, start), start.t, n, start.p);
    turns := [start] + Alone(start.t, n, start.p);
    assert turns[1..] == Alone(start.t, n, start.p);
  }

  /** An allocation from the base heap. */
  lemma Fetch(limit: nat, o: Owned, t: nat, p: int) returns (turns: seq<Turn>)
    requires t < |o.s.threads| && o.s.threads[t] == Idle && o.s.data == 0 && p != 0 && p !in o.place
    ensures RunOwned(limit, o, turns) == Owned(o.s, o.list, o.place[p := WithCaller])
  {
    var start := Turn(t, Allocate, p);
    var o1 := Next(limit, o, start);
    var o2 := Next(limit, o1, Turn(t, Advance(false), p));
    var o3 := Next(limit, o2, Turn(t, Advance(false), p));
    assert o3.s.threads == o.s.threads;
    assert Steps(limit, o1, t, 1, p) == o2;
    turns := Whole(limit, o, start, 2, o3);
  }

  lemma FourSteps(limit: nat, o1: Owned, t: nat, o2: Owned, o3: Owned, o4: Owned, o5: Owned)
    requires var go := Turn(t, Advance(false), 0);
             o2 == Next(limit, o1, go) && o3 == Next(limit, o2, go) && o4 == Next(limit, o3, go) &&
             o5 == Next(limit, o4, go)
    ensures Steps(limit, o1, t, 4, 0) == o5
  {
    hide Next;
    assert Steps(limit, o1, t, 1, 0) == o2;
    assert Steps(limit, o1, t, 2, 0) == o3;
    assert Steps(limit, o1, t, 3, 0) == o4;
  }

  /** Thread `t` is at `pc`. */
  function At(o: Owned, t: nat, pc: Pc): Owned
    requires t < |o.s.threads|
  {
    o.(s := Goto(o.s, t, pc))
  }

  lemma AtIdle(o: Owned, t: nat)
    requires t < |o.s.threads| && o.s.threads[t] == Idle
    ensures At(o, t, Idle) == o
  {
  }

  /** A step of thread `t` from one place to another, with its effect on the rest. */
  lemma Goes(limit: nat, o: Owned, t: nat, pc: Pc, o': Owned, pc': Pc, go: Turn)
    requires t < |o.s.threads| && o'.s.threads == o.s.threads && go == Turn(t, Advance(false), 0)
    requires var from, to := Next(limit, At(o, t, pc), go), At(o', t, pc');
             from.s.(threads := to.s.threads) == to.s && from.list == to.list && from.place == to.place &&
             from.s.threads == o.s.threads[t := pc][t := pc']
    ensures Next(limit, At(o, t, pc), go) == At(o', t, pc')
  {
    assert o.s.threads[t := pc][t := pc'] == o.s.threads[t := pc'];
  }

  /** An allocation from the list. */
  lemma Take(limit: nat, o: Owned, t: nat, n: int) returns (turns: seq<Turn>)
    requires t < |o.s.threads| && o.s.threads[t] == Idle && o.s.data == n != 0 && o.list != []
    ensures RunOwned(limit, o, turns) ==
            Owned(o.s.(data := Spec.Load(o.s.next, n), count := (o.s.count + WORD - 1) % WORD, pops := o.s.pops + 1),
                  o.list[1..], o.place[n := WithCaller])
  {
    var start, go, next := Turn(t, Allocate, 0), Turn(t, Advance(false), 0), Spec.Load(o.s.next, n);
    var popped := Owned(o.s.(data := next, pops := o.s.pops + 1), o.list[1..], o.place[n := WithThread(t)]);
    var done := Owned(popped.s.(count := (o.s.count + WORD - 1) % WORD), o.list[1..], o.place[n := WithCaller]);
    Goes(limit, o, t, LoadHead, o, LoadNext(n), go);
    Goes(limit, o, t, LoadNext(n), o, SwapOut(n, next), go);
    Goes(limit, o, t, SwapOut(n, next), popped, CountDown(n), go);
    assert popped.place[n := WithCaller] == done.place;
    Goes(limit, popped, t, CountDown(n), done, Idle, go);
    assert Next(limit, o, start) == At(o, t, LoadHead);
    AtIdle(done, t);
    hide Next;
    FourSteps(limit, At(o, t, LoadHead), t, At(o, t, LoadNext(n)), At(o, t, SwapOut(n, next)),
              At(popped, t, CountDown(n)), done);
    turns := Whole(limit, o, start, 4, done);
  }

  /** A release to the list. */
  lemma Release(limit: nat, o: Owned, t: nat, b: int) returns (turns: seq<Turn>)
    requires t < |o.s.threads| && o.s.threads[t] == Idle && Is(o.place, b, WithCaller) && o.s.count < limit < WORD
    ensures RunOwned(limit, o, turns) ==
            Owned(o.s.(next := o.s.next[b := o.s.data], data := b, count := o.s.count + 1, pushes := o.s.pushes + 1),
                  [b] + o.list, o.place[b := InList])
  {
    var start, go := Turn(t, Deallocate(b), 0), Turn(t, Advance(false), 0);
    var taken := o.(place := o.place[b := WithThread(t)]);
    var linked := taken.(s := o.s.(next := o.s.next[b := o.s.data]));
    var pushed := Owned(linked.s.(data := b, pushes := o.s.pushes + 1), [b] + o.list, o.place[b := InList]);
    var done := pushed.(s := pushed.s.(count := o.s.count + 1));
    Goes(limit, taken, t, LoadCount(b), taken, Link(b), go);
    Goes(limit, taken, t, Link(b), linked, SwapIn(b), go);
    assert linked.place[b := InList] == pushed.place;
    Goes(limit, linked, t, SwapIn(b), pushed, CountUp(b), go);
    Goes(limit, pushed, t, CountUp(b), done, Idle, go);
    assert Next(limit, o, start) == At(taken, t, LoadCount(b));
    AtIdle(done, t);
    hide Next;
    FourSteps(limit, At(taken, t, LoadCount(b)), t, At(taken, t, Link(b)), At(linked, t, SwapIn(b)),
              At(pushed, t, CountUp(b)), done);
    turns := Whole(limit, o, start, 4, done);
  }

  lemma Then(limit: nat, o: Owned, before: seq<Turn>, o1: Owned, more: seq<Turn>, o2: Owned) returns (turns: seq<Turn>)
    requires RunOwned(limit, o, before) == o1 && RunOwned(limit, o1, more) == o2
    ensures RunOwned(limit, o, turns) == o2
  {
    RunOwnedConcat(limit, o, before, more);
    turns := before + more;
  }

  /** Two blocks on the list, all threads idle. */
  ghost predicate TwoListed(o: Owned, a: int, b: int) {
    && o.s.threads == [Idle, Idle] && o.s.data == a && o.list == [a, b] && o.s.count == 2
    && Spec.Load(o.s.next, a) == b && Spec.Load(o.s.next, b) == 0
    && a != 0 && b != 0 && a != b
  }

  lemma ListTwo(limit: nat, a: int, b: int) returns (schedule: seq<Turn>, o: Owned)
    requires 2 <= limit < WORD && a != 0 && b != 0 && a != b
    ensures RunOwned(limit, Start(2), schedule) == o && TwoListed(o, a, b)
  {
    hide Next, RunOwned;
    var o0 := Start(2);
    assert o0.s.threads == [Idle, Idle];
    schedule := Fetch(limit, o0, 0, b);
    var o1 := RunOwned(limit, o0, schedule);
    var more := Fetch(limit, o1, 0, a);
    var o2 := RunOwned(limit, o1, more);
    schedule := Then(limit, o0, schedule, o1, more, o2);
    more := Release(limit, o2, 0, b);
    var o3 := RunOwned(limit, o2, more);
    schedule := Then(limit, o0, schedule, o2, more, o3);
    more := Release(limit, o3, 0, a);
    o := RunOwned(limit, o3, more);
    schedule := Then(limit, o0, schedule, o3, more, o);
  }

  /** Thread 0 has read the head and its next pointer. */
  lemma HeadRead(limit: nat, o: Owned, a: int, b: int) returns (turns: seq<Turn>)
    requires TwoListed(o, a, b)
    ensures RunOwned(limit, o, turns) == At(o, 0, SwapOut(a, b))
  {
    var start, go := Turn(0, Allocate, 0), Turn(0, Advance(false), 0);
    Goes(limit, o, 0, LoadHead, o, LoadNext(a), go);
    Goes(limit, o, 0, LoadNext(a), o, SwapOut(a, b), go);
    assert Next(limit, o, start) == At(o, 0, LoadHead);
    hide Next;
    assert Steps(limit, At(o, 0, LoadHead), 0, 1, 0) == At(o, 0, LoadNext(a));
    turns := Whole(limit, o, start, 2, At(o, 0, SwapOut(a, b)));
  }

  /** Meanwhile thread 1 takes both blocks and gives the first one back. */
  lemma HeadReplaced(limit: nat, o: Owned, a: int, b: int) returns (turns: seq<Turn>, o': Owned)
    requires 2 <= limit < WORD && a != 0 && b != 0 && a != b
    requires o.s.threads == [SwapOut(a, b), Idle] && o.s.data == a && o.list == [a, b] && o.s.count == 2
    requires Spec.Load(o.s.next, a) == b && Spec.Load(o.s.next, b) == 0
    ensures RunOwned(limit, o, turns) == o' && o'.s.threads == o.s.threads
    ensures o'.s.data == a && o'.list == [a] && Is(o'.place, b, WithCaller)
  {
    hide Next, RunOwned;
    turns := Take(limit, o, 1, a);
    var o1 := RunOwned(limit, o, turns);
    assert o1.list == [b];
    var more := Take(limit, o1, 1, b);
    var o2 := RunOwned(limit, o1, more);
    turns := Then(limit, o, turns, o1, more, o2);
    more := Release(limit, o2, 1, a);
    o' := RunOwned(limit, o2, more);
    turns := Then(limit, o, turns, o2, more, o');
  }

  lemma StaleExchange(limit: nat, o: Owned, a: int, b: int)
    requires o.s.threads == [SwapOut(a, b), Idle] && o.s.data == a && a != b && o.list == [a]
    ensures Next(limit, o, Turn(0, Advance(false), 0)) ==
            Owned(o.s.(data := b, pops := o.s.pops + 1, threads := [CountDown(a), Idle]), [],
                  o.place[a := WithThread(0)])
  {
  }

  /** Two threads and any two blocks: the head of the list is a block that a caller has. */
  lemma TwoOwners(limit: nat, a: int, b: int) returns (schedule: seq<Turn>)
    requires 2 <= limit < WORD && a != 0 && b != 0 && a != b
    ensures var o := RunOwned(limit, Start(2), schedule); o.s.data == b && Is(o.place, b, WithCaller)
  {
    hide Next, RunOwned;
    var before, o := ListTwo(limit, a, b);
    var more := HeadRead(limit, o, a, b);
    var o1 := At(o, 0, SwapOut(a, b));
    before := Then(limit, Start(2), before, o, more, o1);
    var last, o2 := HeadReplaced(limit, o1, a, b);
    before := Then(limit, Start(2), before, o1, last, o2);
    StaleExchange(limit, o2, a, b);
    schedule := OneMore(limit, Start(2), before, o2, Turn(0, Advance(false), 0));
  }
}
