/** The sending half of a connection: tasks on the strand, a queue, and asynchronous writes. */
module SendQueue {
  import opened Wrappers
  import opened Memory
  import opened Protocol
  import opened Connection

  /** A command with a string too long to be written throws out of the strand; it is not offered. */
  type Sent = c: Command | c.Writable() witness Get([], 1)

  /** What `asio::post` puts on the strand. */
  datatype Task = Send(command: Sent) | SendNext | Close

  /** An asynchronous write; the socket takes its bytes a few at a time. */
  datatype Write = Write(data: seq<Octet>, done: nat)

  /** After a failed write the connection is going to be closed, and then is. */
  datatype Health = Open | Failing | Closed

  /** `sent` and `wire` record the calls of `send` and the bytes the socket took. */
  datatype State = State(tasks: seq<Task>, queue: seq<seq<Octet>>, writes: seq<Write>, health: Health,
                         sent: seq<Sent>, wire: seq<Octet>)

  /** A caller, the strand, and the socket. */
  datatype Action = Call(command: Sent) | RunTask | Transfer(write: nat,
      n: nat) | Complete(write: nat) | Fail(write: nat)

  const INITIAL: State := State([], [], [], Open, [], [])

  /** None where the program is undefined: `front` or `pop` of an empty queue. */
  function DoWrite(s: State): Option<State> {
    if s.queue == [] then None else Some(s.(writes := s.writes + [Write(s.queue[0], 0)]))
  }

  function DoSendNext(s: State): Option<State> {
    if s.queue == [] then None
    else
      var s' := s.(queue := s.queue[1..]);
      if s'.queue == [] then Some(s') else DoWrite(s')
  }

  ghost function DoSend(s: State, c: Sent): Option<State> {
    var s' := s.(queue := s.queue + [Frame(c)]);
    if s.queue == [] then DoWrite(s') else Some(s')
  }

  /** An action that is not possible leaves the state alone. */
  ghost function Step(s: State, a: Action): Option<State> {
    match a
    case Call(c) => Some(s.(tasks := s.tasks + [Send(c)], sent := s.sent + [c]))
    case RunTask =>
      if s.tasks == [] then Some(s)
      else
        var s' := s.(tasks := s.tasks[1..]);
        (match s.tasks[0]
         case Send(c) => if s.health.Closed? then Some(s') else DoSend(s', c)
         case SendNext => DoSendNext(s')
         case Close => Some(s'.(queue := [], health := Closed)))
    case Transfer(i, n) =>
      if i >= |s.writes| || s.writes[i].done + n > |s.writes[i].data| then Some(s)
      else
        var w := s.writes[i];
        Some(s.(writes := s.writes[i := w.(done := w.done + n)], wire := s.wire + w.data[w.done..w.done + n]))
    case Complete(i) =>
      if i >= |s.writes| || s.writes[i].done < |s.writes[i].data| then Some(s)
      else Some(s.(writes := s.writes[..i] + s.writes[i + 1..], tasks := s.tasks + [SendNext]))
    case Fail(i) =>
      if i >= |s.writes| then Some(s)
      else Some(s.(writes := s.writes[..i] + s.writes[i + 1..], tasks := s.tasks + [Close], health := Failing))
  }

  // ----- what each step does

  /** The posted tasks, as long as the socket is open: `send` queues the frame, and starts a write if nothing was
      queued; `send_next` drops the frame that has been written, and starts a write of the next one if there is
      one, and needs a frame to drop; `close` empties the queue. With the socket closed `send` does nothing. */
  lemma TaskRuns(s: State, s': Option<State>)
    requires s.tasks != [] && s' == Step(s, RunTask)
    ensures match s.tasks[0]
            case Send(c) =>
              s' == Some(s.(tasks := s.tasks[1..],
                            queue := if s.health.Closed? then s.queue else s.queue + [Frame(c)],
                            writes := if s.health.Closed? || s.queue != [] then s.writes
                                      else s.writes + [Write(Frame(c), 0)]))
            case SendNext =>
              s' == if s.queue == [] then None
                    else Some(s.(tasks := s.tasks[1..], queue := s.queue[1..],
                                 writes := if |s.queue| == 1 then s.writes else s.writes + [Write(s.queue[1], 0)]))
            case Close => s' == Some(s.(tasks := s.tasks[1..], queue := [], health := Closed))
  {
    hide Frame;
  }

  // ----- what every step keeps

  function PendingNexts(tasks: seq<Task>): nat {
    if tasks == [] then 0 else (if tasks[0].SendNext? then 1 else 0) + PendingNexts(tasks[1..])
  }

  function PendingCloses(tasks: seq<Task>): nat {
    if tasks == [] then 0 else (if tasks[0].Close? then 1 else 0) + PendingCloses(tasks[1..])
  }

  function PendingSends(tasks: seq<Task>): seq<Sent> {
    if tasks == [] then []
    else (if tasks[0].Send? then [tasks[0].command] else []) + PendingSends(tasks[1..])
  }

  lemma {:induction false} PendingSnoc(tasks: seq<Task>, t: Task)
    ensures PendingNexts(tasks + [t]) == PendingNexts(tasks) + (if t.SendNext? then 1 else 0)
    ensures PendingCloses(tasks + [t]) == PendingCloses(tasks) + (if t.Close? then 1 else 0)
    ensures PendingSends(tasks + [t]) == PendingSends(tasks) + (if t.Send? then [t.command] else [])
    decreases |tasks|
  {
    if tasks == [] {
      assert [t][1..] == [];
    } else {
      PendingSnoc(tasks[1..], t);
      assert (tasks + [t])[1..] == tasks[1..] + [t];
    }
  }

  /** One write is in flight or one `send_next` is posted exactly when the queue is not empty, and
      there are never two of them. */
  ghost predicate OneWriter(s: State) {
    && |s.writes| + PendingNexts(s.tasks) == (if s.queue == [] then 0 else 1)
    && (s.writes != [] ==> s.writes[0].data == s.queue[0] && s.writes[0].done <= |s.queue[0]|)
  }

  /** The bytes queued but not yet taken by the socket. */
  ghost function Queued(s: State): seq<Octet>
    requires OneWriter(s)
  {
    if s.queue == [] then []
    else (if s.writes == [] then [] else s.queue[0][s.writes[0].done..]) + Concat(s.queue[1..])
  }

  /** No byte is lost, doubled or out of order. */
  ghost predicate Flowing(s: State) {
    && OneWriter(s)
    && s.wire + Queued(s) + Frames(PendingSends(s.tasks)) == Frames(s.sent)
  }

  /** A connection with a failed write takes no more bytes. */
  ghost predicate Stopped(s: State) {
    && s.writes == [] && PendingNexts(s.tasks) == 0
    && PendingCloses(s.tasks) == (if s.health.Failing? then 1 else 0) && (s.queue != [] <==> s.health.Failing?)
    && |s.wire| <= |Frames(s.sent)| && s.wire == Frames(s.sent)[..|s.wire|]
  }

  ghost predicate Inv(s: State) {
    if s.health.Open? then Flowing(s) && PendingCloses(s.tasks) == 0 else Stopped(s)
  }

  lemma InitialInv()
    ensures Inv(INITIAL)
  {
  }

  lemma {:induction false} ConcatSnoc(parts: seq<seq<Octet>>, last: seq<Octet>)
    ensures Concat(parts + [last]) == Concat(parts) + last
  {
    if parts == [] {
      assert [last][1..] == [];
    } else {
      ConcatSnoc(parts[1..], last);
      assert (parts + [last])[1..] == parts[1..] + [last];
    }
  }

  lemma {:induction false} FramesSnoc(cs: seq<Sent>, c: Sent)
    ensures Frames(cs + [c]) == Frames(cs) + Frame(c)
  {
    hide Frame;
    if cs == [] {
      assert cs + [c] == [c] && [c][1..] == [];
    } else {
      FramesSnoc(cs[1..], c);
      assert (cs + [c])[1..] == cs[1..] + [c];
    }
  }

  lemma CallKeeps(s: State, c: Sent, s': State)
    requires Inv(s) && s.health.Open? && Step(s, Call(c)) == Some(s')
    ensures Inv(s')
  {
    hide Frame, Frames;
    PendingSnoc(s.tasks, Send(c));
    FramesSnoc(PendingSends(s.tasks), c);
    FramesSnoc(s.sent, c);
    assert s'.wire + Queued(s') == s.wire + Queued(s);
  }

  lemma Regroup(w: seq<Octet>, q: seq<Octet>, f: seq<Octet>, p: seq<Octet>)
    ensures w + q + (f + p) == w + (q + f) + p
  {
  }

  lemma SendKeeps(s: State)
    requires Inv(s) && s.health.Open? && s.tasks != [] && s.tasks[0].Send?
    ensures Step(s, RunTask).Some? && Inv(Step(s, RunTask).value)
  {
    hide Frame, Frames, OneWriter, Queued;
    var c, more := s.tasks[0].command, PendingSends(s.tasks[1..]);
    assert PendingSends(s.tasks) == [c] + more;
    FramesCons(c, more);
    Regroup(s.wire, Queued(s), Frame(c), Frames(more));
    SendQueues(s, Step(s, RunTask).value, Frame(c));
  }

  lemma SendQueues(s: State, s': State, frame: seq<Octet>)
    requires OneWriter(s) && s.tasks != [] && s.tasks[0].Send? && s'.tasks == s.tasks[1..]
    requires s'.queue == s.queue + [frame]
    requires s'.writes == if s.queue == [] then s.writes + [Write(frame, 0)] else s.writes
    ensures OneWriter(s') && Queued(s') == Queued(s) + frame
  {
    hide Concat;
    assert PendingNexts(s'.tasks) == PendingNexts(s.tasks);
    hide PendingNexts;
    if s.queue != [] {
      ConcatSnoc(s.queue[1..], frame);
      assert (s.queue + [frame])[1..] == s.queue[1..] + [frame];
    } else {
      ConcatOfNone();
      assert s'.queue[1..] == [] && frame[0..] + [] == frame;
    }
  }

  lemma ConcatOfNone()
    ensures Concat([]) == []
  {
  }

  lemma SendNextKeeps(s: State)
    requires Inv(s) && s.health.Open? && s.tasks != [] && s.tasks[0].SendNext?
    ensures Step(s, RunTask).Some? && Inv(Step(s, RunTask).value)
  {
    hide Frame, Frames;
    var s' := Step(s, RunTask).value;
    assert OneWriter(s');
    assert Queued(s') == Queued(s);
    assert PendingSends(s'.tasks) == PendingSends(s.tasks);
  }

  lemma QueuedWhileWriting(s: State)
    requires OneWriter(s) && s.writes != []
    ensures Queued(s) == s.writes[0].data[s.writes[0].done..] + Concat(s.queue[1..])
  {
  }

  lemma TransferKeeps(s: State, i: nat, n: nat)
    requires Inv(s) && s.health.Open?
    ensures Inv(Step(s, Transfer(i, n)).value)
  {
    hide Frame, Frames, PendingSends, PendingCloses, Concat;
    if i < |s.writes| && s.writes[i].done + n <= |s.writes[i].data| {
      assert |s.writes| == 1 && i == 0;
      var s', w := Step(s, Transfer(i, n)).value, s.writes[0];
      assert s'.writes == [w.(done := w.done + n)] && OneWriter(s');
      QueuedWhileWriting(s);
      QueuedWhileWriting(s');
      Taken(s.wire, w.data, w.done, n, Concat(s.queue[1..]));
      hide OneWriter, Queued;
      TransferFlows(s, s');
    }
  }

  lemma TransferFlows(s: State, s': State)
    requires Inv(s) && s.health.Open? && OneWriter(s') && s'.wire + Queued(s') == s.wire + Queued(s)
    requires s'.tasks == s.tasks && s'.sent == s.sent && s'.health == s.health
    ensures Inv(s')
  {
  }

  lemma Taken(wire: seq<Octet>, data: seq<Octet>, done: nat, n: nat, rest: seq<Octet>)
    requires done + n <= |data|
    ensures wire + (data[done..] + rest) == wire + data[done..done + n] + (data[done + n..] + rest)
  {
  }

  lemma CompleteKeeps(s: State, i: nat)
    requires Inv(s) && s.health.Open?
    ensures Inv(Step(s, Complete(i)).value)
  {
    hide Frame, Frames;
    PendingSnoc(s.tasks, SendNext);
    assert PendingSends(s.tasks) + [] == PendingSends(s.tasks);
    var s' := Step(s, Complete(i)).value;
    assert Queued(s') == Queued(s);
  }

  /** The bytes the socket has taken are the first ones of the frames. */
  lemma FlowingPrefix(s: State)
    requires Flowing(s)
    ensures |s.wire| <= |Frames(s.sent)| && s.wire == Frames(s.sent)[..|s.wire|]
    ensures s.tasks == [] && s.writes == [] ==> s.wire == Frames(s.sent)
  {
  }

  /** A write that fails is the only one; the connection will be closed. */
  lemma FailKeeps(s: State, i: nat)
    requires Inv(s) && s.health.Open?
    ensures Inv(Step(s, Fail(i)).value)
  {
    FlowingPrefix(s);
    hide Frame, Frames;
    PendingSnoc(s.tasks, Close);
  }

  lemma PrefixOfMore(wire: seq<Octet>, all: seq<Octet>, more: seq<Octet>)
    requires |wire| <= |all| && wire == all[..|wire|]
    ensures |wire| <= |all + more| && wire == (all + more)[..|wire|]
  {
  }

  /** After a failed write nothing is written any more, and no queue is used while it is empty. */
  lemma StoppedKeeps(s: State, a: Action)
    requires Stopped(s) && !s.health.Open?
    ensures Step(s, a).Some? && !Step(s, a).value.health.Open? && Stopped(Step(s, a).value)
  {
    hide Frame, Frames;
    if a.Call? {
      PendingSnoc(s.tasks, Send(a.command));
      FramesSnoc(s.sent, a.command);
      PrefixOfMore(s.wire, Frames(s.sent), Frame(a.command));
    }
  }

  /** No step is undefined, and every step keeps the invariant. */
  lemma StepKeepsInv(s: State, a: Action)
    requires Inv(s)
    ensures Step(s, a).Some? && Inv(Step(s, a).value)
  {
    if !s.health.Open? {
      StoppedKeeps(s, a);
    } else {
      NoClose(s);
      hide Inv;
      match a
      case Call(c) => CallKeeps(s, c, Step(s, a).value);
      case RunTask =>
        if s.tasks != [] {
          if s.tasks[0].Send? {
            SendKeeps(s);
          } else {
            SendNextKeeps(s);
          }
        }
      case Transfer(i, n) => TransferKeeps(s, i, n);
      case Complete(i) => CompleteKeeps(s, i);
      case Fail(i) => FailKeeps(s, i);
    }
  }

  lemma NoClose(s: State)
    requires Inv(s) && s.health.Open?
    ensures s.tasks != [] ==> !s.tasks[0].Close?
  {
  }

  // ----- over whole runs

  ghost function Run(s: State, schedule: seq<Action>): Option<State>
    decreases |schedule|
  {
    if schedule == [] then Some(s)
    else
      match Step(s, schedule[0])
      case None => None
      case Some(s') => Run(s', schedule[1..])
  }

  lemma {:induction false} RunKeepsInv(s: State, schedule: seq<Action>)
    requires Inv(s)
    ensures Run(s, schedule).Some? && Inv(Run(s, schedule).value)
    decreases |schedule|
  {
    if schedule != [] {
      StepKeepsInv(s, schedule[0]);
      RunKeepsInv(Step(s, schedule[0]).value, schedule[1..]);
    }
  }

  /** In every run the socket is given the frames of the sent commands, in the order of the calls; all of them
      once the strand is idle and no write is in flight, unless a write has failed. Until then one write is
      in flight or one `send_next` is posted exactly when the queue is not empty; never two. */
  lemma FramesInOrder(schedule: seq<Action>)
    ensures Run(INITIAL, schedule).Some?
    ensures var s := Run(INITIAL, schedule).value;
            && |s.wire| <= |Frames(s.sent)| && s.wire == Frames(s.sent)[..|s.wire|]
            && (s.health.Open? && s.tasks == [] && s.writes == [] ==> s.wire == Frames(s.sent))
            && (s.health.Open? ==> (s.queue != [] <==> |s.writes| + PendingNexts(s.tasks) == 1))
            && |s.writes| + PendingNexts(s.tasks) <= 1
  {
    RunKeepsInv(INITIAL, schedule);
    WireIsPrefix(Run(INITIAL, schedule).value);
  }

  lemma WireIsPrefix(s: State)
    requires Inv(s)
    ensures |s.wire| <= |Frames(s.sent)| && s.wire == Frames(s.sent)[..|s.wire|]
    ensures s.health.Open? && s.tasks == [] && s.writes == [] ==> s.wire == Frames(s.sent)
  {
    if s.health.Open? {
      FlowingPrefix(s);
    }
  }

  // ----- what is sent

  /** The commands that `send` is called with in a schedule. */
  function Calls(schedule: seq<Action>): seq<Sent>
    decreases |schedule|
  {
    if schedule == [] then []
    else (if schedule[0].Call? then [schedule[0].command] else []) + Calls(schedule[1..])
  }

  /** No call is forgotten. */
  lemma {:induction false} SentAreTheCalls(s: State, schedule: seq<Action>, s': State)
    requires Run(s, schedule) == Some(s')
    ensures s'.sent == s.sent + Calls(schedule)
    decreases |schedule|
  {
    hide Frame;
    if schedule != [] {
      SentAreTheCalls(Step(s, schedule[0]).value, schedule[1..], s');
      if schedule[0].Call? {
        var c := schedule[0].command;
        assert s.sent + [c] + Calls(schedule[1..]) == s.sent + ([c] + Calls(schedule[1..]));
      }
    }
  }

  // ----- a failed write

  function Turns(n: nat): seq<Action> {
    seq(n, _ => RunTask)
  }

  /** Once the write has failed, the tasks that are posted up to the close run without a byte being written. */
  lemma {:induction false} TasksRunOut(s: State, s': State)
    requires Stopped(s) && s.health != Open && Run(s, Turns(|s.tasks|)) == Some(s')
    ensures s'.tasks == [] && s'.writes == [] && s'.queue == [] && s'.health == Closed && s'.wire == s.wire
    decreases |s.tasks|
  {
    if s.tasks != [] {
      StoppedKeeps(s, RunTask);
      var s1 := Step(s, RunTask).value;
      assert Turns(|s.tasks|)[1..] == Turns(|s1.tasks|);
      TasksRunOut(s1, s');
    }
  }

  /** A write that fails, and the tasks posted by then: the connection is closed, its queue is empty, and nothing
      more has been written. */
  lemma FailureCloses(s: State)
    requires Inv(s) && s.health.Open? && s.writes != []
    ensures var schedule := [Fail(0)] + Turns(|s.tasks| + 1);
            Run(s, schedule).Some? &&
            var s' := Run(s, schedule).value;
            s'.health == Closed && s'.tasks == [] && s'.writes == [] && s'.queue == [] && s'.wire == s.wire
  {
    FailStops(s);
    hide Inv, Stopped, Step, Frame, Frames;
    var s1 := Step(s, Fail(0)).value;
    RunKeepsInv(s1, Turns(|s1.tasks|));
    var schedule := [Fail(0)] + Turns(|s.tasks| + 1);
    assert schedule[1..] == Turns(|s1.tasks|);
    TasksRunOut(s1, Run(s1, Turns(|s1.tasks|)).value);
  }

  lemma FailStops(s: State)
    requires Inv(s) && s.health.Open? && s.writes != []
    ensures Step(s, Fail(0)).Some? &&
            var s1 := Step(s, Fail(0)).value;
            Inv(s1) && Stopped(s1) && s1.health == Failing && |s1.tasks| == |s.tasks| + 1 && s1.wire == s.wire
  {
    FailKeeps(s, 0);
  }

  // ----- progress

  /** How many actions are left, if nobody calls `send` again and the socket takes a byte at a time. */
  ghost function Work(s: State): int {
    |Frames(s.sent)| - |s.wire| + 4 * |PendingSends(s.tasks)| + 3 * |s.queue| - PendingNexts(s.tasks)
  }

  /** The actions that can be taken next, apart from another call and from a failure. */
  ghost predicate Enabled(s: State, a: Action) {
    match a
    case Call(_) => false
    case Fail(_) => false
    case RunTask => s.tasks != []
    case Transfer(i, n) => i < |s.writes| && 0 < n && s.writes[i].done + n <= |s.writes[i].data|
    case Complete(i) => i < |s.writes| && s.writes[i].done == |s.writes[i].data|
  }

  /** While there are tasks or a write there is something to do. */
  lemma NeverStuck(s: State) returns (a: Action)
    requires Inv(s)
    ensures s.tasks != [] || s.writes != [] ==> Enabled(s, a)
  {
    if s.tasks != [] {
      a := RunTask;
    } else if s.writes == [] || s.writes[0].done == |s.writes[0].data| {
      a := Complete(0);
    } else {
      a := Transfer(0, |s.writes[0].data| - s.writes[0].done);
    }
  }

  lemma WorkIsNatural(s: State)
    requires Inv(s)
    ensures Work(s) >= 0
  {
    WireIsPrefix(s);
  }

  /** No such action changes what was sent, or fails. */
  lemma EnabledKeeps(s: State, a: Action)
    requires Inv(s) && Enabled(s, a)
    ensures Step(s, a).Some? && Step(s, a).value.sent == s.sent
    ensures s.health.Open? ==> Step(s, a).value.health.Open?
  {
    StepKeepsInv(s, a);
    if s.health.Open? {
      NoClose(s);
    }
  }

  lemma WorkUsed(s: State, a: Action, s': State)
    requires Enabled(s, a) && Step(s, a) == Some(s')
    requires a.RunTask? && s.tasks[0].Close? ==> s.queue != []
    ensures Work(s') < Work(s)
  {
    hide Frame, Frames;
    if a.Complete? {
      PendingSnoc(s.tasks, SendNext);
    }
  }

  /** And doing it uses up work, of which there is a finite amount. */
  lemma WorkDecreases(s: State, a: Action)
    requires Inv(s) && Enabled(s, a)
    ensures Step(s, a).Some? && 0 <= Work(Step(s, a).value) < Work(s)
  {
    StepKeepsInv(s, a);
    hide Work, Step;
    WorkIsNatural(Step(s, a).value);
    WorkUsed(s, a, Step(s, a).value);
  }
}
