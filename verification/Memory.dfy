/** Byte buffers as the commands are written to them and read from them. */
module Memory {
  import opened Wrappers
  import opened Arithmetic

  type Octet = x: int | 0 <= x < 256
  type Text = seq<Octet>

  datatype Error = StringTooLong | OutOfBounds | ZeroRequestId | TruncatedBuffer | UnknownType | ExpectedResponse

  const MAX_TEXT: nat := 0xFFFF_FFFF

  // ----- numbers in memory order

  /** What `width` bytes can hold. */
  function Range(width: nat): (n: nat)
    ensures n > 0
  {
    if width == 0 then 1 else 256 * Range(width - 1)
  }

  /** The `width` low bytes of a number, least significant first. */
  function LittleEndian(x: nat, width: nat): (b: seq<Octet>)
    ensures |b| == width
  {
    if width == 0 then [] else [x % 256] + LittleEndian(x / 256, width - 1)
  }

  function FromLittleEndian(b: seq<Octet>): (x: nat)
    ensures x < Range(|b|)
  {
    if b == [] then 0 else b[0] + 256 * FromLittleEndian(b[1..])
  }

  lemma DivideTwice(x: nat, m: nat)
    requires m > 0
    ensures x / 256 / m == x / (256 * m)
  {
    var q, r := Decompose(x / 256, m);
    DivModUnique(x / 256, m, q, r);
    DivModUnique(x, 256 * m, q, 256 * r + x % 256);
  }

  /** Byte `i` of a number in memory is its digit to the base 256 at that place. */
  lemma {:induction false} ByteIsDigit(x: nat, width: nat, i: nat)
    requires i < width
    ensures LittleEndian(x, width)[i] == x / Range(i) % 256
    decreases width
  {
    if i > 0 {
      ByteIsDigit(x / 256, width - 1, i - 1);
      DivideTwice(x, Range(i - 1));
    }
  }

  /** The bytes of a length, and the length from its bytes. */
  lemma FourBytesOf(x: nat)
    requires x <= MAX_TEXT
    ensures var b := LittleEndian(x, 4);
            b[0] == x % 256 && b[1] == x / 256 % 256 && b[2] == x / 65536 % 256 && b[3] == x / 16777216
  {
    FourBytes();
    forall i | 0 <= i < 4 ensures LittleEndian(x, 4)[i] == x / Range(i) % 256 {
      ByteIsDigit(x, 4, i);
    }
  }

  lemma NumberFromFour(b: seq<Octet>)
    requires |b| == 4
    ensures FromLittleEndian(b) == b[0] as int + 256 * (b[1] as int) + 65536 * (b[2] as int) + 16777216 * (b[3] as int)
  {
    var b1, b2, b3 := b[1..], b[2..], b[3..];
    assert b1[1..] == b2 && b2[1..] == b3 && b3[1..] == [];
    assert FromLittleEndian(b3) == b[3] as int;
    assert FromLittleEndian(b2) == b[2] as int + 256 * FromLittleEndian(b3);
    assert FromLittleEndian(b1) == b[1] as int + 256 * FromLittleEndian(b2);
  }

  /** Writing a number keeps exactly what fits. */
  lemma {:induction false} NumberTruncated(x: nat, width: nat, b: seq<Octet>) returns (over: nat)
    requires b == LittleEndian(x, width)
    ensures x == FromLittleEndian(b) + over * Range(width)
    decreases width
  {
    if width == 0 {
      over := x;
    } else {
      over := NumberTruncated(x / 256, width - 1, b[1..]);
      MulAssociative(256, over, Range(width - 1));
    }
  }

  lemma MulAssociative(a: nat, b: nat, c: nat)
    ensures a * (b * c) == b * (a * c)
  {
  }

  lemma NumberReadBack(x: nat, width: nat, b: seq<Octet>)
    requires b == LittleEndian(x, width)
    ensures FromLittleEndian(b) == x <==> x < Range(width)
  {
    var over := NumberTruncated(x, width, b);
    if over > 0 {
      assert over * Range(width) == (over - 1) * Range(width) + Range(width);
    }
  }

  lemma {:induction false} BytesRewritten(b: seq<Octet>, x: nat)
    requires x == FromLittleEndian(b)
    ensures LittleEndian(x, |b|) == b
    decreases |b|
  {
    if b != [] {
      BytesRewritten(b[1..], FromLittleEndian(b[1..]));
    }
  }

  // ----- one field

  /** What a reader expects next. */
  datatype Kind = Number(width: nat) | Characters

  datatype Field = Num(n: nat) | Str(chars: Text) {
    /** The field can be written as `kind` without loss. */
    predicate Fits(kind: Kind) {
      match kind
      case Number(width) => Num? && n < Range(width)
      case Characters => Str? && |chars| <= MAX_TEXT
    }
  }

  function EncodeField(f: Field, kind: Kind): seq<Octet>
    requires f.Fits(kind)
  {
    match f
    case Num(n) => LittleEndian(n, kind.width)
    case Str(chars) => LittleEndian(|chars|, 4) + chars
  }

  /** The next field and the bytes after it. */
  function TakeField(b: seq<Octet>, kind: Kind): Option<(Field, seq<Octet>)> {
    match kind
    case Number(width) => if width > |b| then None else Some((Num(FromLittleEndian(b[..width])), b[width..]))
    case Characters =>
      if 4 > |b| then None
      else
        var len := FromLittleEndian(b[..4]);
        if 4 + len > |b| then None else Some((Str(b[4..4 + len]), b[4 + len..]))
  }

  lemma FourBytes()
    ensures Range(0) == 1 && Range(1) == 256 && Range(2) == 0x1_0000 && Range(3) == 0x100_0000
    ensures Range(4) == MAX_TEXT + 1
  {
    assert Range(1) == 256 && Range(2) == 0x1_0000 && Range(3) == 0x100_0000;
  }

  lemma FieldReadBack(f: Field, kind: Kind, rest: seq<Octet>)
    requires f.Fits(kind)
    ensures TakeField(EncodeField(f, kind) + rest, kind) == Some((f, rest))
  {
    FourBytes();
    var b := EncodeField(f, kind) + rest;
    match f
    case Num(n) =>
      NumberReadBack(n, kind.width, LittleEndian(n, kind.width));
      assert b[..kind.width] == LittleEndian(n, kind.width);
    case Str(chars) =>
      NumberReadBack(|chars|, 4, LittleEndian(|chars|, 4));
      assert b[..4] == LittleEndian(|chars|, 4);
      assert b[4..4 + |chars|] == chars;
  }

  lemma FieldRewritten(b: seq<Octet>, kind: Kind, f: Field, rest: seq<Octet>)
    requires TakeField(b, kind) == Some((f, rest))
    ensures f.Fits(kind) && b == EncodeField(f, kind) + rest
  {
    FourBytes();
    match kind
    case Number(width) =>
      BytesRewritten(b[..width], f.n);
    case Characters =>
      BytesRewritten(b[..4], |f.chars|);
  }

  // ----- records of fields

  ghost predicate AllFit(fs: seq<Field>, kinds: seq<Kind>) {
    |fs| == |kinds| && forall i :: 0 <= i < |fs| ==> fs[i].Fits(kinds[i])
  }

  ghost function EncodeFields(fs: seq<Field>, kinds: seq<Kind>): seq<Octet>
    requires AllFit(fs, kinds)
  {
    if fs == [] then [] else EncodeField(fs[0], kinds[0]) + EncodeFields(fs[1..], kinds[1..])
  }

  ghost function TakeFields(b: seq<Octet>, kinds: seq<Kind>): Option<(seq<Field>, seq<Octet>)>
    decreases |kinds|
  {
    if kinds == [] then Some(([], b))
    else
      match TakeField(b, kinds[0])
      case None => None
      case Some((f, rest)) =>
        match TakeFields(rest, kinds[1..])
        case None => None
        case Some((fs, end)) => Some(([f] + fs, end))
  }

  lemma FieldsCons(fs: seq<Field>, kinds: seq<Kind>)
    requires fs != [] && |fs| == |kinds| && fs[0].Fits(kinds[0]) && AllFit(fs[1..], kinds[1..])
    ensures AllFit(fs, kinds)
    ensures EncodeFields(fs, kinds) == EncodeField(fs[0], kinds[0]) + EncodeFields(fs[1..], kinds[1..])
  {
    forall i | 0 <= i < |fs| ensures fs[i].Fits(kinds[i]) {
      if i > 0 {
        assert fs[1..][i - 1].Fits(kinds[1..][i - 1]);
      }
    }
  }

  lemma FieldsOfNone(fs: seq<Field>, kinds: seq<Kind>, rest: seq<Octet>)
    requires fs == [] && kinds == []
    ensures AllFit(fs, kinds) && EncodeFields(fs, kinds) + rest == rest && TakeFields(rest, kinds) == Some(([], rest))
  {
  }

  lemma Associative(a: seq<Octet>, b: seq<Octet>, c: seq<Octet>)
    ensures a + b + c == a + (b + c)
  {
  }

  lemma {:induction false} FieldsReadBack(fs: seq<Field>, kinds: seq<Kind>, rest: seq<Octet>)
    requires AllFit(fs, kinds)
    ensures TakeFields(EncodeFields(fs, kinds) + rest, kinds) == Some((fs, rest))
    decreases |fs|
  {
    if fs != [] {
      FieldsCons(fs, kinds);
      hide AllFit, EncodeField, EncodeFields, TakeField;
      var head, tail := EncodeField(fs[0], kinds[0]), EncodeFields(fs[1..], kinds[1..]);
      Associative(head, tail, rest);
      FieldReadBack(fs[0], kinds[0], tail + rest);
      FieldsReadBack(fs[1..], kinds[1..], rest);
      assert [fs[0]] + fs[1..] == fs;
    } else {
      FieldsOfNone(fs, kinds, rest);
    }
  }

  /** The first field that was taken, and the others. */
  lemma FirstTaken(b: seq<Octet>, kinds: seq<Kind>, fs: seq<Field>, rest: seq<Octet>)
    returns (f: Field, after: seq<Octet>)
    requires kinds != [] && TakeFields(b, kinds) == Some((fs, rest))
    ensures fs != [] && f == fs[0] && TakeField(b, kinds[0]) == Some((f, after))
    ensures TakeFields(after, kinds[1..]) == Some((fs[1..], rest))
  {
    hide TakeField;
    var t := TakeField(b, kinds[0]).value;
    f, after := t.0, t.1;
    var more := TakeFields(after, kinds[1..]).value.0;
    assert fs == [f] + more && fs[1..] == more;
  }

  lemma {:induction false} FieldsRewritten(b: seq<Octet>, kinds: seq<Kind>, fs: seq<Field>, rest: seq<Octet>)
    requires TakeFields(b, kinds) == Some((fs, rest))
    ensures AllFit(fs, kinds) && b == EncodeFields(fs, kinds) + rest
    decreases |kinds|
  {
    if kinds != [] {
      hide AllFit, EncodeField, EncodeFields, TakeField, TakeFields;
      var f, after := FirstTaken(b, kinds, fs, rest);
      FieldRewritten(b, kinds[0], f, after);
      FieldsRewritten(after, kinds[1..], fs[1..], rest);
      FitCount(fs[1..], kinds[1..]);
      FieldsCons(fs, kinds);
      Associative(EncodeField(f, kinds[0]), EncodeFields(fs[1..], kinds[1..]), rest);
    } else {
      FieldsOfNone(fs, kinds, rest);
    }
  }

  lemma FitCount(fs: seq<Field>, kinds: seq<Kind>)
    requires AllFit(fs, kinds)
    ensures |fs| == |kinds|
  {
  }

  /** What reading one field after the other has come to: `fs` so far, and the rest of the record. */
  ghost function Behind(fs: seq<Field>, rest: Option<(seq<Field>, seq<Octet>)>): Option<(seq<Field>, seq<Octet>)> {
    match rest
    case None => None
    case Some((more, end)) => Some((fs + more, end))
  }

  lemma NextField(total: Option<(seq<Field>, seq<Octet>)>, b: seq<Octet>, kinds: seq<Kind>, i: nat, fs: seq<Field>)
    requires i < |kinds| && total == Behind(fs, TakeFields(b, kinds[i..]))
    ensures match TakeField(b, kinds[i])
            case None => total == None
            case Some((f, rest)) => total == Behind(fs + [f], TakeFields(rest, kinds[i + 1..]))
  {
    assert kinds[i..][1..] == kinds[i + 1..];
    match TakeField(b, kinds[i])
    case None =>
    case Some((f, rest)) =>
      match TakeFields(rest, kinds[i + 1..])
      case None =>
      case Some((more, end)) => assert fs + ([f] + more) == fs + [f] + more;
  }

  lemma LastField(total: Option<(seq<Field>, seq<Octet>)>, b: seq<Octet>, kinds: seq<Kind>, fs: seq<Field>)
    requires total == Behind(fs, TakeFields(b, kinds[|kinds|..]))
    ensures total == Some((fs, b))
  {
    assert fs + [] == fs;
  }

  lemma FirstField(b: seq<Octet>, kinds: seq<Kind>)
    ensures TakeFields(b, kinds) == Behind([], TakeFields(b, kinds[0..]))
  {
    assert kinds[0..] == kinds;
    match TakeFields(b, kinds)
    case None =>
    case Some((fs, rest)) => assert [] + fs == fs;
  }

  // ----- the writer and the reader

  class MemoryWriter {
    var buffer: seq<Octet>

    constructor ()
      ensures buffer == []
    {
      buffer := [];
    }

    constructor From(buffer: seq<Octet>)
      ensures this.buffer == buffer
    {
      this.buffer := buffer;
    }

    /** A number of a given width, in the machine's byte order. */
    method WriteNumber(value: nat, width: nat)
      modifies this
      ensures buffer == old(buffer) + LittleEndian(value, width)
    {
      buffer := buffer + LittleEndian(value, width);
    }

    method WriteString(str: Text) returns (r: Result<(), Error>)
      modifies this
      ensures r == if |str| > MAX_TEXT then Err(StringTooLong) else Ok(())
      ensures r.Ok? ==> buffer == old(buffer) + EncodeField(Str(str), Characters)
      ensures r.Err? ==> buffer == old(buffer)
    {
      if |str| > MAX_TEXT {
        return Err(StringTooLong);
      }
      WriteNumber(|str|, 4);
      buffer := buffer + str;
      r := Ok(());
    }
  }

  class MemoryReader {
    const buffer: seq<Octet>
    var offset: nat

    ghost predicate Valid()
      reads this
    {
      offset <= |buffer|
    }

    /** What is still to be read. */
    ghost function Rest(): seq<Octet>
      requires Valid()
      reads this
    {
      buffer[offset..]
    }

    constructor (buffer: seq<Octet>)
      ensures Valid() && this.buffer == buffer && Rest() == buffer
    {
      this.buffer := buffer;
      offset := 0;
    }

    method ReadNumber(width: nat) returns (r: Result<nat, Error>)
      requires Valid()
      modifies this
      ensures Valid()
      ensures match TakeField(old(Rest()), Number(width))
              case None => r == Err(OutOfBounds) && offset == old(offset)
              case Some((f, rest)) => r.Ok? && f == Num(r.value) && r.value < Range(width) && Rest() == rest
    {
      if offset + width > |buffer| {
        return Err(OutOfBounds);
      }
      assert Rest()[..width] == buffer[offset..offset + width];
      r := Ok(FromLittleEndian(buffer[offset..offset + width]));
      offset := offset + width;
    }

    /** A length that points past the end fails after the length itself was consumed. */
    method ReadString() returns (r: Result<Text, Error>)
      requires Valid()
      modifies this
      ensures Valid()
      ensures match TakeField(old(Rest()), Characters)
              case None => r == Err(OutOfBounds) && offset == old(offset) + if |old(Rest())| < 4 then 0 else 4
              case Some((f, rest)) => r.Ok? && f == Str(r.value) && Rest() == rest
    {
      ghost var was := buffer[offset..];
      var len := ReadNumber(4);
      if len.Err? {
        return Err(len.error);
      }
      if offset + len.value > |buffer| {
        return Err(OutOfBounds);
      }
      r := Ok(buffer[offset..offset + len.value]);
      assert Rest() == was[4..] && offset == old(offset) + 4;
      assert r.value == was[4..4 + len.value];
      offset := offset + len.value;
      assert Rest() == was[4 + len.value..];
    }

    method IsEnd() returns (end: bool)
      requires Valid()
      ensures end <==> Rest() == []
    {
      end := offset >= |buffer|;
    }
  }
}
