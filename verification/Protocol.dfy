/** The commands, their frames, and the two dispatching readers. */
module Protocol {
  import opened Wrappers
  import opened Arithmetic
  import opened Memory

  type Uint16 = x: int | 0 <= x < 0x1_0000
  type Uint64 = x: int | 0 <= x < 0x1_0000_0000_0000_0000

  const GET: Octet := 0
  const SET: Octet := 1
  const GET_RESPONSE: Octet := 2

  datatype Command =
    | Get(key: Text, requestId: Uint16)
    | Set(key: Text, value: Text)
    | GetResponse(key: Text, requestId: Uint16, readCount: Uint64, writeCount: Uint64, value: Text)
  {
    function Type(): Octet {
      match this
      case Get(_, _) => GET
      case Set(_, _) => SET
      case GetResponse(_, _, _, _, _) => GET_RESPONSE
    }

    /** The virtual `get_serialized_size` of the three classes. */
    function SerializedSize(): nat {
      var command := 4 + 1 + 4 + |key|;
      match this
      case Get(_, _) => command + 2
      case Set(_, value) => command + 4 + |value|
      case GetResponse(_, _, _, _, value) => command + 2 + 8 + 8 + 4 + |value|
    }

    /** The fields after the type byte, in the order they are sent. */
    ghost function Fields(): seq<Field> {
      match this
      case Get(key, id) => [Str(key), Num(id)]
      case Set(key, value) => [Str(key), Str(value)]
      case GetResponse(key, id, readCount, writeCount, value) => [Str(key), Num(id), Num(readCount),
          Num(writeCount), Str(value)]
    }

    /** Both strings have a length that four bytes can hold. */
    predicate Writable() {
      |key| <= MAX_TEXT && (Get? || |value| <= MAX_TEXT)
    }

    /** A reader accepts only request identifiers other than zero. */
    predicate Identified() {
      Set? || requestId != 0
    }
  }

  ghost function Kinds(kind: Octet): (ks: seq<Kind>)
    ensures |ks| >= 2
  {
    if kind == GET then [Characters, Number(2)]
    else if kind == SET then [Characters, Characters]
    else [Characters, Number(2), Number(8), Number(8), Characters]
  }

  ghost function Body(c: Command): seq<Octet>
    requires c.Writable()
  {
    FieldsFit(c);
    [c.Type()] + EncodeFields(c.Fields(), Kinds(c.Type()))
  }

  ghost function Frame(c: Command): seq<Octet>
    requires c.Writable()
  {
    LittleEndian(c.SerializedSize(), 4) + Body(c)
  }

  lemma Ranges()
    ensures Range(2) == 0x1_0000 && Range(8) == 0x1_0000_0000_0000_0000
  {
    FourBytes();
    assert Range(1) == 256;
    assert Range(5) == 256 * Range(4) && Range(6) == 256 * Range(5) && Range(7) == 256 * Range(6);
  }

  lemma FieldsFit(c: Command)
    requires c.Writable()
    ensures AllFit(c.Fields(), Kinds(c.Type()))
  {
    Ranges();
  }

  /** The command that a record of fields stands for. */
  ghost function FromFields(kind: Octet, fs: seq<Field>): Command
    requires kind <= 2 && AllFit(fs, Kinds(kind))
  {
    Ranges();
    assert forall i :: 0 <= i < |fs| ==> fs[i].Fits(Kinds(kind)[i]);
    if kind == GET then Get(fs[0].chars, fs[1].n)
    else if kind == SET then Set(fs[0].chars, fs[1].chars)
    else GetResponse(fs[0].chars, fs[1].n, fs[2].n, fs[3].n, fs[4].chars)
  }

  // ----- what each side accepts

  datatype Role = Server | Client {
    predicate Accepts(kind: Octet) {
      match this
      case Server => kind == GET || kind == SET
      case Client => kind == GET_RESPONSE
    }

    function Refusal(): Error {
      match this
      case Server => UnknownType
      case Client => ExpectedResponse
    }
  }

  /** The fields of one command, before anything after them is looked at. */
  ghost function ParseFields(kind: Octet, b: seq<Octet>): Result<(Command, seq<Octet>), Error>
    requires kind <= 2
  {
    match TakeFields(b, Kinds(kind))
    case None => Err(OutOfBounds)
    case Some((fs, rest)) =>
      FieldsRewritten(b, Kinds(kind), fs, rest);
      var c := FromFields(kind, fs);
      if c.Identified() then Ok((c, rest)) else Err(ZeroRequestId)
  }

  ghost function Parse(role: Role, b: seq<Octet>): Result<Command, Error> {
    if b == [] then Err(OutOfBounds)
    else if !role.Accepts(b[0]) then Err(role.Refusal())
    else
      match ParseFields(b[0], b[1..])
      case Err(e) => Err(e)
      case Ok((c, rest)) => if rest == [] then Ok(c) else Err(TruncatedBuffer)
  }

  // ----- the codec is a bijection

  lemma FromFieldsOf(c: Command)
    requires c.Writable()
    ensures AllFit(c.Fields(), Kinds(c.Type())) && FromFields(c.Type(), c.Fields()) == c
  {
    FieldsFit(c);
  }

  lemma FieldsOfFrom(kind: Octet, fs: seq<Field>, c: Command)
    requires kind <= 2 && AllFit(fs, Kinds(kind)) && c == FromFields(kind, fs)
    ensures c.Writable() && c.Type() == kind && c.Fields() == fs
  {
    assert forall i :: 0 <= i < |fs| ==> fs[i].Fits(Kinds(kind)[i]);
  }

  /** Reading back what was written, whatever follows it. */
  lemma ParseFieldsOfBody(c: Command, rest: seq<Octet>)
    requires c.Writable()
    ensures ParseFields(c.Type(), Body(c)[1..] + rest) == if c.Identified() then Ok((c, rest)) else Err(ZeroRequestId)
  {
    FieldsFit(c);
    FieldsReadBack(c.Fields(), Kinds(c.Type()), rest);
    FromFieldsOf(c);
    assert Body(c)[1..] == EncodeFields(c.Fields(), Kinds(c.Type()));
  }

  /** A written body is read as the command it was written for, exactly when the command has
      a request identifier or needs none and the side takes its type. */
  lemma ReadBack(role: Role, c: Command)
    requires c.Writable()
    ensures Parse(role, Body(c)) == Ok(c) <==> role.Accepts(c.Type()) && c.Identified()
    ensures Parse(role, Body(c)).Ok? ==> Parse(role, Body(c)) == Ok(c)
  {
    ParseFieldsOfBody(c, []);
    assert Body(c)[1..] + [] == Body(c)[1..];
  }

  /** Whatever is accepted is exactly what the accepted command would be written as. */
  lemma Rewritten(role: Role, b: seq<Octet>, c: Command)
    requires Parse(role, b) == Ok(c)
    ensures c.Writable() && c.Identified() && role.Accepts(c.Type()) && Body(c) == b
  {
    var (fs, rest) := TakeFields(b[1..], Kinds(b[0])).value;
    FieldsRewritten(b[1..], Kinds(b[0]), fs, rest);
    FieldsOfFrom(b[0], fs, c);
    assert rest == [] && b == [b[0]] + b[1..];
  }

  lemma BodyStart(c: Command)
    requires c.Writable()
    ensures |Body(c)| > 0 && Body(c)[0] == c.Type()
  {
  }

  /** The type byte of a body. */
  lemma FirstByte(c: Command)
    requires c.Writable()
    ensures |Body(c)| > 0
    ensures Body(c)[0] == match c
              case Get(_, _) => 0
              case Set(_, _) => 1
              case GetResponse(_, _, _, _, _) => 2
  {
  }

  /** The server takes every set and every get with an identifier, and nothing else. */
  lemma ServerTakes(c: Command)
    requires c.Writable()
    ensures Parse(Server, Body(c)) == match c
              case Set(_, _) => Ok(c)
              case Get(_, id) => if id != 0 then Ok(c) else Err(ZeroRequestId)
              case GetResponse(_, _, _, _, _) => Err(UnknownType)
  {
    ReadBack(Server, c);
    ParseFieldsOfBody(c, []);
    assert Body(c)[1..] + [] == Body(c)[1..];
  }

  /** The client takes every response with an identifier, and nothing else. */
  lemma ClientTakes(c: Command)
    requires c.Writable()
    ensures Parse(Client, Body(c)) == match c
              case GetResponse(_, id, _, _, _) => if id != 0 then Ok(c) else Err(ZeroRequestId)
              case _ => Err(ExpectedResponse)
  {
    ReadBack(Client, c);
    ParseFieldsOfBody(c, []);
    assert Body(c)[1..] + [] == Body(c)[1..];
  }

  /** An empty buffer, and one of another type, whatever follows. */
  lemma OthersRefused(kind: Octet, rest: seq<Octet>)
    ensures Parse(Server, []) == Parse(Client, []) == Err(OutOfBounds)
    ensures kind > 1 ==> Parse(Server, [kind] + rest) == Err(UnknownType)
    ensures kind != 2 ==> Parse(Client, [kind] + rest) == Err(ExpectedResponse)
  {
  }

  /** Anything after an accepted body is noticed. */
  lemma SurplusRejected(role: Role, b: seq<Octet>, more: seq<Octet>)
    requires Parse(role, b).Ok? && more != []
    ensures Parse(role, b + more) == Err(TruncatedBuffer)
  {
    hide ParseFields, Body;
    var c := Parse(role, b).value;
    Rewritten(role, b, c);
    BodyStart(c);
    ParseFieldsOfBody(c, more);
    assert (b + more)[1..] == b[1..] + more;
  }

  /** No accepted body is the beginning of another one. */
  lemma StrictPrefixRejected(role: Role, b: seq<Octet>, n: nat)
    requires Parse(role, b).Ok? && n < |b|
    ensures Parse(role, b[..n]) == Err(OutOfBounds)
  {
    if n > 0 {
      assert TakeFields(b[1..], Kinds(b[0])).Some? && TakeFields(b[1..], Kinds(b[0])).value.1 == [];
      hide TakeFields, Kinds;
      assert b[1..] == b[..n][1..] + b[n..];
      UsedUp(b[..n][1..], b[n..], Kinds(b[0]));
    }
  }

  /** Fields that need all the bytes are not there in fewer. */
  lemma UsedUp(prefix: seq<Octet>, more: seq<Octet>, kinds: seq<Kind>)
    requires more != []
    requires TakeFields(prefix + more, kinds).Some? && TakeFields(prefix + more, kinds).value.1 == []
    ensures TakeFields(prefix, kinds).None?
  {
    if TakeFields(prefix, kinds).Some? {
      var fs, rest := TakeFields(prefix, kinds).value.0, TakeFields(prefix, kinds).value.1;
      FieldsRewritten(prefix, kinds, fs, rest);
      hide TakeFields, EncodeFields, AllFit;
      FieldsReadBack(fs, kinds, rest + more);
      Associative(EncodeFields(fs, kinds), rest, more);
    }
  }

  // ----- the length field

  lemma EncodeCons(f: Field, fs: seq<Field>, kind: Kind, kinds: seq<Kind>)
    requires f.Fits(kind) && AllFit(fs, kinds)
    ensures AllFit([f] + fs, [kind] + kinds)
    ensures EncodeFields([f] + fs, [kind] + kinds) == EncodeField(f, kind) + EncodeFields(fs, kinds)
  {
    assert ([f] + fs)[1..] == fs && ([kind] + kinds)[1..] == kinds;
  }

  /** What follows the key. */
  ghost function AfterKey(c: Command): seq<Octet>
    requires c.Writable()
  {
    match c
    case Get(_, id) => LittleEndian(id, 2)
    case Set(_, value) => EncodeField(Str(value), Characters)
    case GetResponse(_, id, readCount, writeCount, value) =>
      LittleEndian(id, 2) + LittleEndian(readCount, 8) + LittleEndian(writeCount, 8) +
        EncodeField(Str(value), Characters)
  }

  /** Adds one more field in front of what is already spelled out. */
  lemma Prepend(f: Field, fs: seq<Field>, kind: Kind, kinds: seq<Kind>, bytes: seq<Octet>)
    returns (fs': seq<Field>, kinds': seq<Kind>)
    requires f.Fits(kind) && AllFit(fs, kinds) && EncodeFields(fs, kinds) == bytes
    ensures fs' == [f] + fs && kinds' == [kind] + kinds
    ensures AllFit(fs', kinds') && EncodeFields(fs', kinds') == EncodeField(f, kind) + bytes
  {
    EncodeCons(f, fs, kind, kinds);
    fs', kinds' := [f] + fs, [kind] + kinds;
  }

  lemma FieldsSpelledOut(c: Command)
    requires c.Writable()
    ensures AllFit(c.Fields(), Kinds(c.Type()))
    ensures EncodeFields(c.Fields(), Kinds(c.Type())) == EncodeField(Str(c.key), Characters) + AfterKey(c)
  {
    hide EncodeFields, LittleEndian, AllFit;
    Ranges();
    NoFields();
    match c
    case Get(key, id) =>
      var fs, ks := Prepend(Num(id), [], Number(2), [], []);
      assert EncodeField(Num(id), Number(2)) + [] == AfterKey(c);
      fs, ks := Prepend(Str(key), fs, Characters, ks, AfterKey(c));
      assert fs == c.Fields() && ks == Kinds(GET);
    case Set(key, value) =>
      var fs, ks := Prepend(Str(value), [], Characters, [], []);
      assert EncodeField(Str(value), Characters) + [] == AfterKey(c);
      fs, ks := Prepend(Str(key), fs, Characters, ks, AfterKey(c));
      assert fs == c.Fields() && ks == Kinds(SET);
    case GetResponse(key, id, readCount, writeCount, value) =>
      ResponseSpelledOut(c);
      var fs, ks := Prepend(Str(key), c.Fields()[1..], Characters, Kinds(GET_RESPONSE)[1..], AfterKey(c));
      assert fs == c.Fields() && ks == Kinds(GET_RESPONSE);
  }

  lemma ResponseSpelledOut(c: Command)
    requires c.Writable() && c.GetResponse?
    ensures AllFit(c.Fields()[1..], Kinds(GET_RESPONSE)[1..])
    ensures EncodeFields(c.Fields()[1..], Kinds(GET_RESPONSE)[1..]) == AfterKey(c)
  {
    hide EncodeFields, LittleEndian, AllFit;
    Ranges();
    NoFields();
    var b1, b2, b3 := LittleEndian(c.requestId, 2), LittleEndian(c.readCount, 8), LittleEndian(c.writeCount, 8);
    var b4 := EncodeField(Str(c.value), Characters);
    var fs, ks := Prepend(Str(c.value), [], Characters, [], []);
    assert b4 + [] == b4;
    fs, ks := Prepend(Num(c.writeCount), fs, Number(8), ks, b4);
    fs, ks := Prepend(Num(c.readCount), fs, Number(8), ks, b3 + b4);
    fs, ks := Prepend(Num(c.requestId), fs, Number(2), ks, b2 + (b3 + b4));
    Nested(b1, b2, b3, b4);
    assert fs == c.Fields()[1..] && ks == Kinds(GET_RESPONSE)[1..];
  }

  lemma Nested(a: seq<Octet>, b: seq<Octet>, c: seq<Octet>, d: seq<Octet>)
    ensures a + (b + (c + d)) == a + b + c + d
  {
  }

  lemma NoFields()
    ensures AllFit([], []) && EncodeFields([], []) == []
  {
  }

  lemma BodySpelledOut(c: Command)
    requires c.Writable()
    ensures Body(c) == [c.Type()] + EncodeField(Str(c.key), Characters) + AfterKey(c)
  {
    hide EncodeFields, LittleEndian;
    FieldsSpelledOut(c);
  }

  /** The bytes of each kind of body: the type, the length of the key and the key, and what the command has besides
      in the order of its declaration. */
  lemma WireFormat(c: Command)
    requires c.Writable()
    ensures match c
            case Get(key, id) => Body(c) == [0] + LittleEndian(|key|, 4) + key + LittleEndian(id, 2)
            case Set(key, value) =>
              Body(c) == [1] + LittleEndian(|key|, 4) + key + LittleEndian(|value|, 4) + value
            case GetResponse(key, id, readCount, writeCount, value) =>
              Body(c) == [2] + LittleEndian(|key|, 4) + key + LittleEndian(id, 2) + LittleEndian(readCount, 8) +
                         LittleEndian(writeCount, 8) + LittleEndian(|value|, 4) + value
  {
    hide LittleEndian, Body;
    BodySpelledOut(c);
    var n, m := LittleEndian(|c.key|, 4), if c.Get? then [] else LittleEndian(|c.value|, 4);
    match c
    case Get(key, id) => Ungrouped([0], n, key, LittleEndian(id, 2), [], [], [], []);
    case Set(key, value) => Ungrouped([1], n, key, [], [], [], m, value);
    case GetResponse(key, id, readCount, writeCount, value) =>
      Ungrouped([2], n, key, LittleEndian(id, 2), LittleEndian(readCount, 8), LittleEndian(writeCount, 8), m, value);
  }

  lemma Ungrouped(a: seq<Octet>, b: seq<Octet>, c: seq<Octet>, d: seq<Octet>, e: seq<Octet>, f: seq<Octet>,
                  g: seq<Octet>, h: seq<Octet>)
    ensures a + (b + c) + (d + e + f + (g + h)) == a + b + c + d + e + f + g + h
    ensures a + b + c + d + [] + [] + [] + [] == a + b + c + d
    ensures a + (b + c) + (g + h) == a + b + c + g + h
    ensures d + [] + [] + ([] + []) == d
  {
  }

  lemma BodyLength(c: Command)
    requires c.Writable()
    ensures 4 + |Body(c)| == c.SerializedSize()
  {
    BodySpelledOut(c);
  }

  /** The predicted size is the size of the buffer; the length field says so unless the size needs
      more than four bytes. */
  lemma LengthField(c: Command)
    requires c.Writable()
    ensures |Frame(c)| == c.SerializedSize()
    ensures FromLittleEndian(Frame(c)[..4]) == |Frame(c)| <==> c.SerializedSize() <= 0xFFFF_FFFF
    ensures Frame(c)[4..] == Body(c)
  {
    BodyLength(c);
    FourBytes();
    var field := LittleEndian(c.SerializedSize(), 4);
    NumberReadBack(c.SerializedSize(), 4, field);
    assert Frame(c)[..4] == field;
  }

  // ----- writing

  /** The part every command starts with. */
  method SerializeBase(c: Command) returns (writer: MemoryWriter)
    ensures fresh(writer) && writer.buffer == LittleEndian(c.SerializedSize(), 4) + [c.Type()]
  {
    writer := new MemoryWriter();
    var size := c.SerializedSize() % 0x1_0000_0000;
    writer.WriteNumber(size, 4);
    writer.WriteNumber(c.Type(), 1);
    LowBytes(c.SerializedSize(), 4);
    FourBytes();
  }

  lemma {:induction false} LowBytes(x: nat, width: nat)
    ensures LittleEndian(x % Range(width), width) == LittleEndian(x, width)
    decreases width
  {
    if width > 0 {
      LowBytes(x / 256, width - 1);
      ModDigits(x, Range(width - 1));
    }
  }

  lemma ModDigits(x: nat, m: nat)
    requires m > 0
    ensures (x % (256 * m)) % 256 == x % 256 && (x % (256 * m)) / 256 == (x / 256) % m
  {
    SlotAndRest(x, m, 256, 256 * m);
  }

  method SerializeCommand(c: Command) returns (r: Result<MemoryWriter, Error>)
    ensures r.Ok? <==> |c.key| <= MAX_TEXT
    ensures r.Err? ==> r.error == StringTooLong
    ensures r.Ok? ==> fresh(r.value)
    ensures r.Ok? ==>
              r.value.buffer == LittleEndian(c.SerializedSize(), 4) + [c.Type()] + EncodeField(Str(c.key), Characters)
  {
    var base := SerializeBase(c);
    var writer := new MemoryWriter.From(base.buffer);
    var w := writer.WriteString(c.key);
    r := if w.Err? then Err(w.error) else Ok(writer);
  }

  /** A command is written as its frame, or refused when one of its strings is too long. */
  method Serialize(c: Command) returns (r: Result<seq<Octet>, Error>)
    ensures r == if c.Writable() then Ok(Frame(c)) else Err(StringTooLong)
  {
    hide LittleEndian, EncodeField;
    var w := SerializeCommand(c);
    if w.Err? {
      return Err(w.error);
    }
    var writer := new MemoryWriter.From(w.value.buffer);
    var last: Result<(), Error> := Ok(());
    match c {
      case Get(_, id) =>
        writer.WriteNumber(id, 2);
      case Set(_, value) =>
        last := writer.WriteString(value);
      case GetResponse(_, id, readCount, writeCount, value) =>
        writer.WriteNumber(id, 2);
        writer.WriteNumber(readCount, 8);
        writer.WriteNumber(writeCount, 8);
        last := writer.WriteString(value);
    }
    if last.Err? {
      return Err(last.error);
    }
    assert writer.buffer == w.value.buffer + AfterKey(c);
    BodySpelledOut(c);
    Joined(LittleEndian(c.SerializedSize(), 4), [c.Type()], EncodeField(Str(c.key), Characters), AfterKey(c));
    r := Ok(writer.buffer);
  }

  lemma Joined(a: seq<Octet>, b: seq<Octet>, c: seq<Octet>, d: seq<Octet>)
    ensures a + b + c + d == a + (b + c + d)
  {
  }

  // ----- reading

  /** `get_command::read`. */
  method ReadGet(reader: MemoryReader) returns (r: Result<Command, Error>)
    requires reader.Valid()
    modifies reader
    ensures reader.Valid()
    ensures match ParseFields(GET, old(reader.Rest()))
            case Err(e) => r == Err(e)
            case Ok((c, rest)) => r == Ok(c) && reader.Rest() == rest
  {
    hide TakeFields, TakeField, Behind;
    ghost var ks := Kinds(GET);
    ghost var total := Begin(reader.Rest(), ks);
    NextField(total, reader.Rest(), ks, 0, []);
    var key := reader.ReadString();
    if key.Err? {
      return Err(key.error);
    }
    NextField(total, reader.Rest(), ks, 1, [] + [Str(key.value)]);
    var id := reader.ReadNumber(2);
    if id.Err? {
      return Err(id.error);
    }
    LastField(total, reader.Rest(), ks, [] + [Str(key.value)] + [Num(id.value)]);
    if id.value == 0 {
      return Err(ZeroRequestId);
    }
    Ranges();
    r := Ok(Get(key.value, id.value));
  }

  /** `set_command::read`. */
  method ReadSet(reader: MemoryReader) returns (r: Result<Command, Error>)
    requires reader.Valid()
    modifies reader
    ensures reader.Valid()
    ensures match ParseFields(SET, old(reader.Rest()))
            case Err(e) => r == Err(e)
            case Ok((c, rest)) => r == Ok(c) && reader.Rest() == rest
  {
    hide TakeFields, TakeField, Behind;
    ghost var ks := Kinds(SET);
    ghost var total := Begin(reader.Rest(), ks);
    NextField(total, reader.Rest(), ks, 0, []);
    var key := reader.ReadString();
    if key.Err? {
      return Err(key.error);
    }
    NextField(total, reader.Rest(), ks, 1, [] + [Str(key.value)]);
    var value := reader.ReadString();
    if value.Err? {
      return Err(value.error);
    }
    LastField(total, reader.Rest(), ks, [] + [Str(key.value)] + [Str(value.value)]);
    r := Ok(Set(key.value, value.value));
  }

  /** `get_command_response::read`. */
  method ReadGetResponse(reader: MemoryReader) returns (r: Result<Command, Error>)
    requires reader.Valid()
    modifies reader
    ensures reader.Valid()
    ensures match ParseFields(GET_RESPONSE, old(reader.Rest()))
            case Err(e) => r == Err(e)
            case Ok((c, rest)) => r == Ok(c) && reader.Rest() == rest
  {
    hide TakeFields, TakeField, Behind;
    ghost var ks := Kinds(GET_RESPONSE);
    ghost var total := Begin(reader.Rest(), ks);
    ghost var fs := [];
    NextField(total, reader.Rest(), ks, 0, fs);
    var key := reader.ReadString();
    if key.Err? {
      return Err(key.error);
    }
    fs := fs + [Str(key.value)];
    NextField(total, reader.Rest(), ks, 1, fs);
    var id := reader.ReadNumber(2);
    if id.Err? {
      return Err(id.error);
    }
    fs := fs + [Num(id.value)];
    NextField(total, reader.Rest(), ks, 2, fs);
    var readCount := reader.ReadNumber(8);
    if readCount.Err? {
      return Err(readCount.error);
    }
    fs := fs + [Num(readCount.value)];
    NextField(total, reader.Rest(), ks, 3, fs);
    var writeCount := reader.ReadNumber(8);
    if writeCount.Err? {
      return Err(writeCount.error);
    }
    fs := fs + [Num(writeCount.value)];
    NextField(total, reader.Rest(), ks, 4, fs);
    var value := reader.ReadString();
    if value.Err? {
      return Err(value.error);
    }
    fs := fs + [Str(value.value)];
    LastField(total, reader.Rest(), ks, fs);
    if id.value == 0 {
      return Err(ZeroRequestId);
    }
    Ranges();
    r := Ok(GetResponse(key.value, id.value, readCount.value, writeCount.value, value.value));
  }

  lemma Begin(b: seq<Octet>, kinds: seq<Kind>) returns (total: Option<(seq<Field>, seq<Octet>)>)
    ensures total == TakeFields(b, kinds) == Behind([], TakeFields(b, kinds[0..]))
  {
    FirstField(b, kinds);
    total := TakeFields(b, kinds);
  }

  /** The two dispatching `read` functions: what the dispatcher is given, or the exception thrown. A request that
      is read is constructed first, which draws an identifier that the one in the buffer replaces. */
  method Read(role: Role, buf: seq<Octet>, ids: RequestIds) returns (r: Result<Command, Error>)
    modifies ids
    ensures r == Parse(role, buf)
    ensures ids.id == if buf != [] && buf[0] == GET && role.Server? then Following(old(ids.id)) else old(ids.id)
  {
    var reader := new MemoryReader(buf);
    var kind := reader.ReadNumber(1);
    if kind.Err? {
      return Err(kind.error);
    }
    OneByte(buf);
    if !role.Accepts(kind.value) {
      return Err(role.Refusal());
    }
    if kind.value == GET {
      var drawn := ids.Next();
      r := ReadGet(reader);
    } else if kind.value == SET {
      r := ReadSet(reader);
    } else {
      r := ReadGetResponse(reader);
    }
    if r.Ok? {
      var end := reader.IsEnd();
      if !end {
        return Err(TruncatedBuffer);
      }
    }
  }

  lemma OneByte(b: seq<Octet>)
    requires b != []
    ensures FromLittleEndian(b[..1]) == b[0]
  {
  }

  // ----- request identifiers

  class RequestIds {
    var id: Uint16

    constructor ()
      ensures id == Drawn(0)
    {
      id := 0;
    }

    /** `get_command::next_request_id`: zero is skipped when the counter wraps. */
    method Next() returns (r: Uint16)
      modifies this
      ensures r == id == Following(old(id))
    {
      id := if id == 0xFFFF then 0 else id + 1;
      if id == 0 {
        id := 1;
      }
      r := id;
    }
  }

  function Following(id: Uint16): Uint16 {
    if id == 0xFFFF then 1 else id + 1
  }

  /** The counter after `n` draws. */
  function Drawn(n: nat): Uint16 {
    if n == 0 then 0 else Following(Drawn(n - 1))
  }

  lemma {:induction false} DrawnIs(n: nat)
    requires n > 0
    ensures Drawn(n) == (n - 1) % 0xFFFF + 1
  {
    if n > 1 {
      DrawnIs(n - 1);
      assert (n - 1) % 0xFFFF == if (n - 2) % 0xFFFF == 0xFFFE then 0 else (n - 2) % 0xFFFF + 1;
    }
  }

  /** No identifier is zero, and two draws agree only 65535 draws apart. */
  lemma IdentifiersRepeat(i: nat, j: nat)
    requires 0 < i <= j
    ensures Drawn(i) != 0
    ensures Drawn(i) == Drawn(j) <==> (j - i) % 0xFFFF == 0
  {
    DrawnIs(i);
    DrawnIs(j);
  }
}
