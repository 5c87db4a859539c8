/** The receiving half of a connection: frames are cut out of an arbitrarily fragmented stream. */
module Connection {
  import opened Memory
  import opened Protocol

  const MAX_MESSAGE_SIZE: nat := 1024 * 1024
  const MSG_SIZE_BYTES: nat := 4
  const BUFFER_SIZE: nat := 4 * 1024 * 1024

  // ----- what a stream means

  /** Either more bytes are awaited, these not yet making a frame; or the connection is being closed; or reading
      has come to an end by itself. */
  datatype Status = Waiting(rest: seq<Octet>) | Closing | Ended

  datatype Outcome = Outcome(dispatched: seq<Command>, status: Status)

  /** The first frame of a stream. */
  datatype Cut = Incomplete | Malformed | Message(command: Command, size: nat)

  ghost function CutFrame(role: Role, s: seq<Octet>): (cut: Cut)
    ensures cut.Message? ==> MSG_SIZE_BYTES <= cut.size <= |s|
  {
    if |s| < MSG_SIZE_BYTES then Incomplete
    else
      var size := FromLittleEndian(s[..MSG_SIZE_BYTES]);
      if size < MSG_SIZE_BYTES || size > MAX_MESSAGE_SIZE then Malformed
      else if |s| < size then Incomplete
      else
        match Parse(role, s[MSG_SIZE_BYTES..size])
        case Err(_) => Malformed
        case Ok(c) => Message(c, size)
  }

  /** All the commands of a stream, up to the first that is malformed. */
  ghost function Interpret(role: Role, s: seq<Octet>): Outcome
    decreases |s|
  {
    match CutFrame(role, s)
    case Incomplete => Outcome([], Waiting(s))
    case Malformed => Outcome([], Closing)
    case Message(c, size) => After(c, Interpret(role, s[size..]))
  }

  ghost function After(c: Command, o: Outcome): Outcome {
    Outcome([c] + o.dispatched, o.status)
  }

  /** More bytes for a connection that is waiting; a closing one reads nothing more. */
  ghost function Feed(role: Role, o: Outcome, bytes: seq<Octet>): Outcome {
    match o.status
    case Closing => o
    case Ended => o
    case Waiting(rest) =>
      var more := Interpret(role, rest + bytes);
      Outcome(o.dispatched + more.dispatched, more.status)
  }

  /** How an asynchronous read ends. */
  datatype Completion = Bytes(fragment: seq<Octet>) | Aborted | EndOfStream | ReadError

  /** The read handler: only an error other than a cancellation and the end of the stream closes the connection. */
  ghost function Complete(role: Role, o: Outcome, c: Completion): Outcome {
    match c
    case Bytes(fragment) => Feed(role, o, fragment)
    case ReadError => Outcome(o.dispatched, Closing)
    case _ => Outcome(o.dispatched, Ended)
  }

  /** What the bytes of a stream say: the first four are the size of the first frame, lowest byte first, themselves
      included. It is refused below four and above 2^20; awaited while there are fewer bytes; else its command is
      dispatched before those of the rest, or it is refused. */
  lemma FirstFrame(role: Role, s: seq<Octet>)
    ensures |s| < 4 ==> Interpret(role, s) == Outcome([], Waiting(s))
    ensures |s| >= 4 ==>
              var size := s[0] as int + 256 * (s[1] as int) + 65536 * (s[2] as int) + 16777216 * (s[3] as int);
              if size < 4 || size > 1048576 then Interpret(role, s) == Outcome([], Closing)
              else if |s| < size then Interpret(role, s) == Outcome([], Waiting(s))
              else
                match Parse(role, s[4..size])
                case Err(_) => Interpret(role, s) == Outcome([], Closing)
                case Ok(c) =>
                  var later := Interpret(role, s[size..]);
                  Interpret(role, s) == Outcome([c] + later.dispatched, later.status)
  {
    hide Parse;
    if |s| >= 4 {
      NumberFromFour(s[..4]);
    }
  }

  // ----- fragmentation does not matter

  lemma CutStable(role: Role, s: seq<Octet>, more: seq<Octet>)
    requires !CutFrame(role, s).Incomplete?
    ensures CutFrame(role, s + more) == CutFrame(role, s)
  {
    assert (s + more)[..MSG_SIZE_BYTES] == s[..MSG_SIZE_BYTES];
    var size := FromLittleEndian(s[..MSG_SIZE_BYTES]);
    if MSG_SIZE_BYTES <= size <= MAX_MESSAGE_SIZE {
      assert (s + more)[MSG_SIZE_BYTES..size] == s[MSG_SIZE_BYTES..size];
    }
  }

  lemma {:induction false} InterpretInTwo(role: Role, s: seq<Octet>, more: seq<Octet>, o: Outcome)
    requires o == Interpret(role, s)
    ensures Interpret(role, s + more) == Feed(role, o, more)
    decreases |s|
  {
    hide CutFrame;
    var cut := CutFrame(role, s);
    if !cut.Incomplete? {
      CutStable(role, s, more);
    }
    if cut.Message? {
      var rest := Interpret(role, s[cut.size..]);
      InterpretInTwo(role, s[cut.size..], more, rest);
      assert (s + more)[cut.size..] == s[cut.size..] + more;
      FeedAfter(role, cut.command, rest, more);
    } else {
      var all := Interpret(role, s + more);
      assert [] + all.dispatched == all.dispatched;
    }
  }

  lemma FeedAfter(role: Role, c: Command, o: Outcome, more: seq<Octet>)
    ensures Feed(role, After(c, o), more) == After(c, Feed(role, o, more))
  {
    if o.status.Waiting? {
      var d := Interpret(role, o.status.rest + more).dispatched;
      assert [c] + o.dispatched + d == [c] + (o.dispatched + d);
    }
  }

  function Concat(parts: seq<seq<Octet>>): seq<Octet> {
    if parts == [] then [] else parts[0] + Concat(parts[1..])
  }

  /** A connection that receives fragment after fragment. */
  ghost function FeedAll(role: Role, o: Outcome, parts: seq<seq<Octet>>): Outcome
    decreases |parts|
  {
    if parts == [] then o else FeedAll(role, Feed(role, o, parts[0]), parts[1..])
  }

  lemma {:induction false} FragmentsFrom(
    role: Role, s: seq<Octet>, parts: seq<seq<Octet>>, o: Outcome, bytes: seq<Octet>)
    requires o == Interpret(role, s) && bytes == Concat(parts)
    ensures FeedAll(role, o, parts) == Interpret(role, s + bytes)
    decreases |parts|
  {
    if parts == [] {
      assert s + bytes == s;
    } else {
      InterpretInTwo(role, s, parts[0], o);
      FragmentsFrom(role, s + parts[0], parts[1..], Feed(role, o, parts[0]), Concat(parts[1..]));
      assert s + parts[0] + Concat(parts[1..]) == s + bytes;
    }
  }

  /** However a stream is cut, the same commands are dispatched and the same decision is taken. */
  lemma FragmentationIrrelevant(role: Role, parts: seq<seq<Octet>>, bytes: seq<Octet>)
    requires bytes == Concat(parts)
    ensures FeedAll(role, Outcome([], Waiting([])), parts) == Interpret(role, bytes)
  {
    FragmentsFrom(role, [], parts, Outcome([], Waiting([])), bytes);
    assert [] + bytes == bytes;
  }

  // ----- frames on the stream

  /** What the receiver of a given role takes. */
  predicate Sendable(role: Role, c: Command) {
    c.Writable() && c.Identified() && role.Accepts(c.Type()) && c.SerializedSize() <= MAX_MESSAGE_SIZE
  }

  /** Each side's commands, with an identifier where there is one, strings of less than 2^32 bytes, and a frame of
      at most 2^20. */
  lemma SendableMeans(role: Role, c: Command)
    ensures Sendable(role, c) <==>
            && |c.key| <= 0xFFFF_FFFF
            && match c
               case Get(key, id) => role.Server? && id != 0 && 11 + |key| <= 1048576
               case Set(key, value) => role.Server? && |value| <= 0xFFFF_FFFF && 13 + |key| + |value| <= 1048576
               case GetResponse(key, id, _, _, value) =>
                 role.Client? && id != 0 && |value| <= 0xFFFF_FFFF && 31 + |key| + |value| <= 1048576
  {
  }

  ghost predicate AllWritable(cs: seq<Command>) {
    forall i :: 0 <= i < |cs| ==> cs[i].Writable()
  }

  ghost predicate AllSendable(role: Role, cs: seq<Command>) {
    forall i :: 0 <= i < |cs| ==> Sendable(role, cs[i])
  }

  ghost function Frames(cs: seq<Command>): seq<Octet>
    requires AllWritable(cs)
  {
    if cs == [] then [] else Frame(cs[0]) + Frames(cs[1..])
  }

  /** A frame that is cut out of a stream is the frame of the command it is read as. */
  lemma FrameCutOut(role: Role, s: seq<Octet>, c: Command, size: nat)
    requires CutFrame(role, s) == Message(c, size)
    ensures Sendable(role, c) && c.Writable() && s[..size] == Frame(c) && size == c.SerializedSize()
  {
    hide Parse, Body;
    Rewritten(role, s[MSG_SIZE_BYTES..size], c);
    BodyLength(c);
    BytesRewritten(s[..MSG_SIZE_BYTES], size);
    assert s[..size] == s[..MSG_SIZE_BYTES] + s[MSG_SIZE_BYTES..size];
  }

  /** The frame of a command is cut out again, or refused. */
  lemma FrameRecognised(role: Role, c: Command, rest: seq<Octet>)
    requires c.Writable() && c.SerializedSize() <= 0xFFFF_FFFF
    ensures CutFrame(role, Frame(c) + rest) == if Sendable(role, c) then Message(c, c.SerializedSize()) else Malformed
  {
    hide Parse, Body;
    LengthField(c);
    ReadBack(role, c);
    var s, size := Frame(c) + rest, c.SerializedSize();
    assert s[..MSG_SIZE_BYTES] == Frame(c)[..MSG_SIZE_BYTES];
    assert s[MSG_SIZE_BYTES..size] == Body(c);
  }

  /** The commands before the first one that is not sendable. */
  ghost function Accepted(role: Role, cs: seq<Command>): seq<Command> {
    if cs == [] || !Sendable(role, cs[0]) then [] else [cs[0]] + Accepted(role, cs[1..])
  }

  lemma {:induction false} AcceptedIs(role: Role, cs: seq<Command>, some: seq<Command>)
    requires some == Accepted(role, cs)
    ensures |some| <= |cs| && some == cs[..|some|] && AllSendable(role, some)
    ensures |some| < |cs| ==> !Sendable(role, cs[|some|])
  {
    if cs != [] && Sendable(role, cs[0]) {
      AcceptedIs(role, cs[1..], some[1..]);
    }
  }

  /** A stream of whole frames dispatches the commands up to the first that is not sendable. */
  lemma {:induction false} StreamOfFrames(role: Role, cs: seq<Command>, s: seq<Octet>)
    requires AllWritable(cs) && (forall i :: 0 <= i < |cs| ==> cs[i].SerializedSize() <= 0xFFFF_FFFF) && s == Frames(cs)
    ensures Interpret(role, s) == Outcome(Accepted(role, cs), if AllSendable(role, cs) then Waiting([]) else Closing)
    decreases |cs|
  {
    if cs != [] {
      var rest := Frames(cs[1..]);
      FrameRecognised(role, cs[0], rest);
      LengthField(cs[0]);
      if Sendable(role, cs[0]) {
        StreamOfFrames(role, cs[1..], rest);
        assert s[cs[0].SerializedSize()..] == rest;
      }
    }
  }

  lemma FramesCons(c: Command, cs: seq<Command>)
    requires c.Writable() && AllWritable(cs)
    ensures AllWritable([c] + cs) && Frames([c] + cs) == Frame(c) + Frames(cs)
  {
    assert ([c] + cs)[1..] == cs;
  }

  lemma SendableCons(role: Role, c: Command, cs: seq<Command>)
    requires Sendable(role, c) && AllSendable(role, cs)
    ensures AllSendable(role, [c] + cs)
  {
  }

  /** Only sendable commands are dispatched; while the connection waits, the stream is the frames
      of what was dispatched followed by less than one frame. */
  lemma {:induction false} Conserved(role: Role, s: seq<Octet>, o: Outcome)
    requires o == Interpret(role, s)
    ensures AllSendable(role, o.dispatched) && AllWritable(o.dispatched)
    ensures match o.status
            case Closing => true
            case Ended => false
            case Waiting(rest) => s == Frames(o.dispatched) + rest && CutFrame(role, rest).Incomplete?
    decreases |s|
  {
    hide CutFrame, Sendable, Frame, Frames, AllSendable, AllWritable;
    var cut := CutFrame(role, s);
    if cut.Message? {
      var c, later := cut.command, Interpret(role, s[cut.size..]);
      FrameCutOut(role, s, c, cut.size);
      Conserved(role, s[cut.size..], later);
      SendableCons(role, c, later.dispatched);
      FramesCons(c, later.dispatched);
      if later.status.Waiting? {
        Glued(s, cut.size, Frame(c), Frames(later.dispatched), later.status.rest);
      }
    } else {
      NoFrames(role, s);
    }
  }

  lemma IncompleteIsShort(role: Role, s: seq<Octet>)
    requires CutFrame(role, s).Incomplete?
    ensures |s| < MAX_MESSAGE_SIZE
  {
  }

  /** Between two reads the buffer holds exactly the bytes that no dispatched frame has used, less than
      a frame and less than the largest one. */
  lemma BetweenReads(role: Role, parts: seq<seq<Octet>>, bytes: seq<Octet>, o: Outcome)
    requires bytes == Concat(parts) && o == FeedAll(role, Outcome([], Waiting([])), parts) && o.status.Waiting?
    ensures AllSendable(role, o.dispatched) && AllWritable(o.dispatched)
    ensures bytes == Frames(o.dispatched) + o.status.rest
    ensures CutFrame(role, o.status.rest).Incomplete? && |o.status.rest| < MAX_MESSAGE_SIZE
  {
    FragmentationIrrelevant(role, parts, bytes);
    Conserved(role, bytes, o);
    IncompleteIsShort(role, o.status.rest);
  }

  lemma NoFrames(role: Role, s: seq<Octet>)
    ensures AllSendable(role, []) && AllWritable([]) && Frames([]) + s == s
  {
  }

  lemma Glued(s: seq<Octet>, n: nat, a: seq<Octet>, b: seq<Octet>, c: seq<Octet>)
    requires n <= |s| && s[..n] == a && s[n..] == b + c
    ensures s == a + b + c
  {
  }

  /** What a handler still has to do: from `offset` on, after dispatching `before`. */
  ghost predicate Remains(role: Role, s: seq<Octet>, offset: nat, before: seq<Command>, o: Outcome) {
    offset <= |s| &&
    var later := Interpret(role, s[offset..]);
    o == Outcome(before + later.dispatched, later.status)
  }

  /** One turn of the handler's loop. */
  lemma Turn(role: Role, s: seq<Octet>, offset: nat, size: nat, before: seq<Command>, o: Outcome)
    requires Remains(role, s, offset, before, o) && offset + MSG_SIZE_BYTES <= |s|
    requires size == FromLittleEndian(s[offset..offset + MSG_SIZE_BYTES])
    ensures if size < MSG_SIZE_BYTES || size > MAX_MESSAGE_SIZE then o == Outcome(before, Closing)
            else if |s| - offset < size then CutFrame(role, s[offset..]).Incomplete?
            else
              match Parse(role, s[offset + MSG_SIZE_BYTES..offset + size])
              case Err(_) => o == Outcome(before, Closing)
              case Ok(c) => Remains(role, s, offset + size, before + [c], o)
  {
    hide Parse;
    assert before + [] == before;
    assert s[offset..][..MSG_SIZE_BYTES] == s[offset..offset + MSG_SIZE_BYTES];
    if MSG_SIZE_BYTES <= size <= |s| - offset {
      assert s[offset..][MSG_SIZE_BYTES..size] == s[offset + MSG_SIZE_BYTES..offset + size];
      assert s[offset..][size..] == s[offset + size..];
    }
  }

  lemma AtStart(role: Role, s: seq<Octet>, before: seq<Command>) returns (o: Outcome)
    ensures Remains(role, s, 0, before, o)
    ensures o == Outcome(before + Interpret(role, s).dispatched, Interpret(role, s).status)
  {
    assert s[0..] == s;
    o := Outcome(before + Interpret(role, s).dispatched, Interpret(role, s).status);
  }

  lemma NoMoreTurns(role: Role, s: seq<Octet>, offset: nat, before: seq<Command>, o: Outcome)
    requires Remains(role, s, offset, before, o) && CutFrame(role, s[offset..]).Incomplete?
    ensures |s| - offset < MAX_MESSAGE_SIZE && o == Outcome(before, Waiting(s[offset..]))
  {
    assert before + [] == before;
  }

  lemma SliceOfSlice(a: seq<Octet>, s: seq<Octet>, i: nat, j: nat)
    requires |s| <= |a| && s == a[..|s|] && i <= j <= |s|
    ensures s[i..j] == a[i..j]
  {
  }

  // ----- the connection object

  /** `memmove` to the front. */
  method MoveDown(a: array<Octet>, from: nat, n: nat)
    requires from <= n <= a.Length
    modifies a
    ensures a[..n - from] == old(a[from..n])
  {
    for i := 0 to n - from
      invariant a[..i] == old(a[from..from + i])
      invariant forall k :: from + i <= k < n ==> a[k] == old(a[k])
    {
      a[i] := a[from + i];
    }
  }

  /** Whether the next asynchronous read has been started, a close is posted, or neither. */
  datatype Mode = Reading | ClosePosted | Over

  class Receiver {
    const role: Role
    const buffer: array<Octet>
    const ids: RequestIds
    var unparsed: nat
    var dispatched: seq<Command>
    var mode: Mode

    /** Before every read: the next one has room. */
    ghost predicate Valid()
      reads this
    {
      buffer.Length == BUFFER_SIZE && (mode.Reading? ==> unparsed < MAX_MESSAGE_SIZE)
    }

    ghost function State(): Outcome
      requires Valid()
      reads this, buffer
    {
      match mode
      case Reading => Outcome(dispatched, Waiting(buffer[..unparsed]))
      case ClosePosted => Outcome(dispatched, Closing)
      case Over => Outcome(dispatched, Ended)
    }

    constructor (role: Role, ids: RequestIds)
      ensures Valid() && fresh(buffer) && this.role == role && this.ids == ids && State() == Outcome([], Waiting([]))
    {
      this.role, this.ids := role, ids;
      buffer := new Octet[BUFFER_SIZE](_ => 0);
      unparsed, dispatched, mode := 0, [], Reading;
    }

    /** The socket puts a fragment behind the unparsed bytes. */
    method Fill(fragment: seq<Octet>)
      requires Valid() && mode.Reading? && |fragment| <= buffer.Length - unparsed
      modifies buffer
      ensures buffer[..unparsed + |fragment|] == old(buffer[..unparsed]) + fragment
    {
      for i := 0 to |fragment|
        invariant buffer[..unparsed + i] == old(buffer[..unparsed]) + fragment[..i]
      {
        buffer[unparsed + i] := fragment[i];
      }
    }

    /** The read handler, told that `n` bytes came in. */
    method OnRead(n: nat)
      requires Valid() && mode.Reading? && unparsed + n <= buffer.Length
      modifies this, buffer, ids
      ensures Valid()
      ensures var o := Interpret(role, old(buffer[..unparsed + n]));
              State() == Outcome(old(dispatched) + o.dispatched, o.status)
    {
      hide Interpret, Remains, Parse;
      var offset := 0;
      var total := n + unparsed;
      ghost var s := buffer[..][..total];
      ghost var o := AtStart(role, s, dispatched);
      while total - offset >= MSG_SIZE_BYTES
        invariant offset <= total <= buffer.Length && s == buffer[..][..total] && mode.Reading?
        invariant unparsed == old(unparsed)
        invariant Remains(role, s, offset, dispatched, o)
        decreases total - offset
      {
        var size := FromLittleEndian(buffer[offset..offset + MSG_SIZE_BYTES]);
        SliceOfSlice(buffer[..], s, offset, offset + MSG_SIZE_BYTES);
        Turn(role, s, offset, size, dispatched, o);
        if size < MSG_SIZE_BYTES || size > MAX_MESSAGE_SIZE {
          mode := ClosePosted;
          return;
        }
        if total - offset < size {
          break;
        }
        SliceOfSlice(buffer[..], s, offset + MSG_SIZE_BYTES, offset + size);
        var message := Read(role, buffer[offset + MSG_SIZE_BYTES..offset + size], ids);
        if message.Err? {
          mode := ClosePosted;
          return;
        }
        dispatched := dispatched + [message.value];
        offset := offset + size;
      }
      NoMoreTurns(role, s, offset, dispatched, o);
      if offset < total {
        MoveDown(buffer, offset, total);
        unparsed := total - offset;
      } else {
        unparsed := 0;
      }
    }

    /** One asynchronous read from start to finish. */
    method Receive(fragment: seq<Octet>)
      requires Valid() && mode.Reading? && |fragment| <= buffer.Length - unparsed
      modifies this, buffer, ids
      ensures Valid() && State() == Feed(role, old(State()), fragment)
    {
      Fill(fragment);
      OnRead(|fragment|);
    }

    /** The completion handler, with its error branches. */
    method Completed(c: Completion)
      requires Valid() && mode.Reading? && (c.Bytes? ==> |c.fragment| <= buffer.Length - unparsed)
      modifies this, buffer, ids
      ensures Valid() && State() == Complete(role, old(State()), c)
      ensures c.ReadError? ==> mode == ClosePosted && dispatched == old(dispatched)
      ensures c.Aborted? || c.EndOfStream? ==> mode == Over && dispatched == old(dispatched)
      ensures c.Bytes? && mode.Reading? ==>
                var all := Interpret(role, old(buffer[..unparsed]) + c.fragment);
                dispatched == old(dispatched) + all.dispatched && all.status == Waiting(buffer[..unparsed])
    {
      match c
      case Bytes(fragment) => Receive(fragment);
      case ReadError => mode := ClosePosted;
      case _ => mode := Over;
    }
  }
}
