/** A sending and a receiving connection with a byte stream between them. */
module Delivery {
  import opened Wrappers
  import opened Memory
  import opened Protocol
  import opened Connection
  import SendQueue

  /** `arrived` counts the bytes of the sender's wire that the receiver has read; `receiver` is what
      its object has become. */
  datatype System = System(sender: SendQueue.State, arrived: nat, receiver: Outcome)

  datatype Event = Sender(action: SendQueue.Action) | Arrive(n: nat)

  const INITIAL: System := System(SendQueue.INITIAL, 0, Outcome([], Waiting([])))

  /** The receiver asks for at most what its buffer has room for, and no more once it is closing. */
  ghost predicate CanArrive(s: System, n: nat) {
    s.receiver.status.Waiting? && s.arrived + n <= |s.sender.wire| && |s.receiver.status.rest| + n <= BUFFER_SIZE
  }

  ghost function Step(role: Role, s: System, e: Event): Option<System> {
    match e
    case Sender(a) =>
      (match SendQueue.Step(s.sender, a)
       case None => None
       case Some(sender) => Some(s.(sender := sender)))
    case Arrive(n) =>
      if !CanArrive(s, n) then Some(s)
      else Some(s.(arrived := s.arrived + n,
          receiver := Feed(role, s.receiver, s.sender.wire[s.arrived..s.arrived + n])))
  }

  ghost function Run(role: Role, s: System, schedule: seq<Event>): Option<System>
    decreases |schedule|
  {
    if schedule == [] then Some(s)
    else
      match Step(role, s, schedule[0])
      case None => None
      case Some(s') => Run(role, s', schedule[1..])
  }

  ghost predicate Inv(role: Role, s: System) {
    && SendQueue.Inv(s.sender)
    && s.arrived <= |s.sender.wire|
    && s.receiver == Interpret(role, s.sender.wire[..s.arrived])
  }

  lemma WireGrows(s: SendQueue.State, a: SendQueue.Action, s': SendQueue.State)
    requires SendQueue.Step(s, a) == Some(s')
    ensures |s.wire| <= |s'.wire| && s'.wire[..|s.wire|] == s.wire
  {
  }

  lemma StepKeepsInv(role: Role, s: System, e: Event)
    requires Inv(role, s)
    ensures Step(role, s, e).Some? && Inv(role, Step(role, s, e).value)
  {
    hide Interpret, SendQueue.Inv;
    var wire := s.sender.wire;
    match e
    case Sender(a) =>
      SendQueue.StepKeepsInv(s.sender, a);
      var wire' := SendQueue.Step(s.sender, a).value.wire;
      WireGrows(s.sender, a, SendQueue.Step(s.sender, a).value);
      assert wire'[..s.arrived] == wire'[..|wire|][..s.arrived];
    case Arrive(n) =>
      if CanArrive(s, n) {
        InterpretInTwo(role, wire[..s.arrived], wire[s.arrived..s.arrived + n], s.receiver);
        assert wire[..s.arrived] + wire[s.arrived..s.arrived + n] == wire[..s.arrived + n];
      }
  }

  lemma {:induction false} RunKeepsInv(role: Role, s: System, schedule: seq<Event>)
    requires Inv(role, s)
    ensures Run(role, s, schedule).Some? && Inv(role, Run(role, s, schedule).value)
    decreases |schedule|
  {
    if schedule != [] {
      StepKeepsInv(role, s, schedule[0]);
      RunKeepsInv(role, Step(role, s, schedule[0]).value, schedule[1..]);
    }
  }

  lemma InitialInv(role: Role)
    ensures Inv(role, INITIAL)
  {
  }

  ghost predicate AllArrived(s: System) {
    s.sender.health.Open? && s.sender.tasks == [] && s.sender.writes == [] && s.arrived == |s.sender.wire|
  }

  ghost predicate SmallEnough(cs: seq<Command>) {
    forall i :: 0 <= i < |cs| ==> cs[i].SerializedSize() <= 0xFFFF_FFFF
  }

  ghost predicate IsPrefix<T(!new)>(a: seq<T>, b: seq<T>) {
    |a| <= |b| && a == b[..|a|]
  }

  lemma FeedExtends(role: Role, o: Outcome, more: seq<Octet>)
    ensures IsPrefix(o.dispatched, Feed(role, o, more).dispatched)
    ensures o.status.Closing? ==> Feed(role, o, more) == o
  {
  }

  lemma PrefixOfStream(stream: seq<Octet>, wire: seq<Octet>, n: nat)
    requires |wire| <= |stream| && wire == stream[..|wire|] && n <= |wire|
    ensures wire[..n] + stream[n..] == stream
  {
  }

  /** The receiver against the whole stream of frames. */
  lemma AgainstTheStream(role: Role, s: System, stream: seq<Octet>, all: Outcome)
    requires Inv(role, s) && stream == Frames(s.sender.sent) && all == Interpret(role, stream)
    ensures IsPrefix(s.receiver.dispatched, all.dispatched)
    ensures s.receiver.status.Closing? || AllArrived(s) ==> s.receiver == all
  {
    SendQueue.WireIsPrefix(s.sender);
    hide Interpret, SendQueue.Inv, IsPrefix, Feed, Frames;
    var wire := s.sender.wire;
    PrefixOfStream(stream, wire, s.arrived);
    InterpretInTwo(role, wire[..s.arrived], stream[s.arrived..], s.receiver);
    FeedExtends(role, s.receiver, stream[s.arrived..]);
    if AllArrived(s) {
      assert wire[..s.arrived] == stream;
    }
  }

  /** Whatever the schedule and the fragmentation: the commands dispatched are the first of the sent
      ones, in order and unaltered; once everything has arrived they are those before the first command
      the receiver does not take; the connection closes because of such a command only. */
  lemma DeliveredInOrder(role: Role, schedule: seq<Event>)
    ensures Run(role, INITIAL, schedule).Some?
    ensures var s := Run(role, INITIAL, schedule).value;
            SmallEnough(s.sender.sent) ==>
              && IsPrefix(s.receiver.dispatched, Accepted(role, s.sender.sent))
              && IsPrefix(Accepted(role, s.sender.sent), s.sender.sent)
              && (AllArrived(s) || s.receiver.status.Closing? ==>
                 s.receiver.dispatched == Accepted(role, s.sender.sent))
              && (s.receiver.status.Closing? ==> !AllSendable(role, s.sender.sent))
  {
    InitialInv(role);
    RunKeepsInv(role, INITIAL, schedule);
    var s := Run(role, INITIAL, schedule).value;
    if SmallEnough(s.sender.sent) {
      var stream := Frames(s.sender.sent);
      StreamOfFrames(role, s.sender.sent, stream);
      AgainstTheStream(role, s, stream, Interpret(role, stream));
      AcceptedIs(role, s.sender.sent, Accepted(role, s.sender.sent));
    }
  }

  /** The actions of the sender in a schedule. */
  function Senders(schedule: seq<Event>): seq<SendQueue.Action>
    decreases |schedule|
  {
    if schedule == [] then []
    else (if schedule[0].Sender? then [schedule[0].action] else []) + Senders(schedule[1..])
  }

  /** The sender's part of a run is a run of the sender. */
  lemma {:induction false} SenderRuns(role: Role, s: System, schedule: seq<Event>, s': System)
    requires Run(role, s, schedule) == Some(s')
    ensures SendQueue.Run(s.sender, Senders(schedule)) == Some(s'.sender)
    decreases |schedule|
  {
    hide SendQueue.Step, Feed;
    if schedule != [] {
      SenderRuns(role, Step(role, s, schedule[0]).value, schedule[1..], s');
      if schedule[0].Sender? {
        assert Senders(schedule)[0] == schedule[0].action && Senders(schedule)[1..] == Senders(schedule[1..]);
      } else {
        assert Senders(schedule) == Senders(schedule[1..]);
      }
    }
  }

  /** The commands of which `DeliveredInOrder` speaks are those that `send` was called with. */
  lemma SentAreTheCalls(role: Role, schedule: seq<Event>)
    ensures Run(role, INITIAL, schedule).Some?
    ensures Run(role, INITIAL, schedule).value.sender.sent == SendQueue.Calls(Senders(schedule))
  {
    hide Inv, Run, SendQueue.Run, SendQueue.Inv;
    InitialInv(role);
    RunKeepsInv(role, INITIAL, schedule);
    var s := Run(role, INITIAL, schedule).value;
    SenderRuns(role, INITIAL, schedule, s);
    SendQueue.SentAreTheCalls(SendQueue.INITIAL, Senders(schedule), s.sender);
  }

  /** Everything is delivered exactly when every command is one the receiver takes. */
  lemma AllDelivered(role: Role, schedule: seq<Event>)
    requires Run(role, INITIAL, schedule).Some? && AllArrived(Run(role, INITIAL, schedule).value)
    ensures var s := Run(role, INITIAL, schedule).value;
            s.receiver.dispatched == s.sender.sent <==> AllSendable(role, s.sender.sent)
  {
    InitialInv(role);
    RunKeepsInv(role, INITIAL, schedule);
    var s := Run(role, INITIAL, schedule).value;
    Conserved(role, s.sender.wire[..s.arrived], s.receiver);
    if AllSendable(role, s.sender.sent) {
      DeliveredInOrder(role, schedule);
      AcceptedIs(role, s.sender.sent, Accepted(role, s.sender.sent));
    }
  }

  // ----- progress

  /** The events that can happen next, apart from another call and from a failure. */
  ghost predicate Enabled(s: System, e: Event) {
    match e
    case Sender(a) => SendQueue.Enabled(s.sender, a)
    case Arrive(n) => n > 0 && CanArrive(s, n)
  }

  /** The next read always has room, and while the receiver is waiting and not everything has arrived,
      some event other than another call or a failure can happen, unless a failed write has closed the sender. */
  lemma NeverStuck(role: Role, s: System) returns (e: Event)
    requires Inv(role, s) && s.receiver.status.Waiting?
    ensures |s.receiver.status.rest| < MAX_MESSAGE_SIZE
    ensures AllArrived(s) || (s.sender.health.Closed? && s.arrived == |s.sender.wire|) || Enabled(s, e)
  {
    Conserved(role, s.sender.wire[..s.arrived], s.receiver);
    IncompleteIsShort(role, s.receiver.status.rest);
    if s.arrived < |s.sender.wire| {
      e := Arrive(1);
    } else {
      var a := SendQueue.NeverStuck(s.sender);
      e := Sender(a);
    }
  }

  /** What the sender has left to do, and the bytes that have not arrived. */
  ghost function Work(s: System): int {
    SendQueue.Work(s.sender) + |Frames(s.sender.sent)| - s.arrived
  }

  lemma WorkIsNatural(role: Role, s: System)
    requires Inv(role, s)
    ensures Work(s) >= 0
  {
    SendQueue.WorkIsNatural(s.sender);
    SendQueue.WireIsPrefix(s.sender);
  }

  /** Every event uses up work, of which there is a finite amount, and no event but a call or a failure changes
      what is to be delivered. */
  lemma WorkDecreases(role: Role, s: System, e: Event)
    requires Inv(role, s) && Enabled(s, e)
    ensures Step(role, s, e).Some? && 0 <= Work(Step(role, s, e).value) < Work(s)
    ensures var s' := Step(role, s, e).value;
            s'.sender.sent == s.sender.sent && (s.sender.health.Open? ==> s'.sender.health.Open?)
  {
    StepKeepsInv(role, s, e);
    WorkIsNatural(role, Step(role, s, e).value);
    if e.Sender? {
      SendQueue.WorkDecreases(s.sender, e.action);
      SendQueue.EnabledKeeps(s.sender, e.action);
    }
  }

  /** Each event of the schedule is one that can happen when its turn comes. */
  ghost predicate Lively(role: Role, s: System, schedule: seq<Event>)
    decreases |schedule|
  {
    schedule == [] ||
    (Enabled(s, schedule[0]) && Step(role, s, schedule[0]).Some? &&
     Lively(role, Step(role, s, schedule[0]).value, schedule[1..]))
  }

  /** Nothing happens any more without another call. */
  ghost predicate AtRest(s: System) {
    forall e :: !Enabled(s, e)
  }

  lemma {:induction false} RunsOut(role: Role, s: System, schedule: seq<Event>)
    requires Inv(role, s) && Lively(role, s, schedule)
    ensures Run(role, s, schedule).Some? && Inv(role, Run(role, s, schedule).value)
    ensures var s' := Run(role, s, schedule).value;
            && |schedule| + Work(s') <= Work(s)
            && s'.sender.sent == s.sender.sent && (s.sender.health.Open? ==> s'.sender.health.Open?)
    decreases |schedule|
  {
    hide Inv, Work, Enabled;
    if schedule != [] {
      StepKeepsInv(role, s, schedule[0]);
      WorkDecreases(role, s, schedule[0]);
      RunsOut(role, Step(role, s, schedule[0]).value, schedule[1..]);
    }
  }

  /** At rest everything has arrived, or the receiver does not want the rest. */
  lemma RestIsArrival(role: Role, s: System)
    requires Inv(role, s) && AtRest(s) && s.sender.health.Open?
    ensures AllArrived(s) || s.receiver.status.Closing?
  {
    Conserved(role, s.sender.wire[..s.arrived], s.receiver);
    if s.receiver.status.Waiting? {
      var e := NeverStuck(role, s);
      assert !Enabled(s, e);
    }
  }

  lemma RunInTwo(role: Role, s: System, a: seq<Event>, b: seq<Event>)
    requires Run(role, s, a).Some?
    ensures Run(role, s, a + b) == Run(role, Run(role, s, a).value, b)
    decreases |a|
  {
    if a == [] {
      assert a + b == b;
    } else {
      assert (a + b)[1..] == a[1..] + b;
      RunInTwo(role, Step(role, s, a[0]).value, a[1..], b);
    }
  }

  /** After any run without a failed write: however the strand, the socket and the network go on, they come to
      rest after finitely many events, and then the commands dispatched are exactly the accepted ones. */
  lemma DeliveredInTheEnd(role: Role, past: seq<Event>, future: seq<Event>, s: System)
    requires Run(role, INITIAL, past) == Some(s) && s.sender.health.Open? && SmallEnough(s.sender.sent)
    requires Lively(role, s, future)
    ensures |future| <= Work(s) && Run(role, s, future).Some?
    ensures AtRest(Run(role, s, future).value) ==>
              Run(role, s, future).value.receiver.dispatched == Accepted(role, s.sender.sent)
  {
    hide Lively, AtRest, SmallEnough, Accepted;
    InitialInv(role);
    RunKeepsInv(role, INITIAL, past);
    RunsOut(role, s, future);
    var s' := Run(role, s, future).value;
    WorkIsNatural(role, s');
    RunInTwo(role, INITIAL, past, future);
    if AtRest(s') {
      RestIsArrival(role, s');
      DeliveredInOrder(role, past + future);
    }
  }

  /** There is such a way on from every reachable state. */
  lemma {:induction false} ComesToRest(role: Role, s: System) returns (future: seq<Event>)
    requires Inv(role, s)
    ensures Lively(role, s, future)
    ensures Run(role, s, future).Some? && AtRest(Run(role, s, future).value)
    decreases Work(s)
  {
    if e :| Enabled(s, e) {
      StepKeepsInv(role, s, e);
      WorkDecreases(role, s, e);
      var s' := Step(role, s, e).value;
      var rest := ComesToRest(role, s');
      future := [e] + rest;
      assert future[1..] == rest;
    } else {
      future := [];
    }
  }
}
