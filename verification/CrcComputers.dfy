/** The two checksum computers and the free functions built on the drivers. */
module CrcComputers {
  import opened Bits
  import opened CrcDivision
  import opened CrcPolynomial
  import opened CrcDrivers

  /** The Rocksoft parameters: Width, Poly, Init, XorOut, RefIn and RefOut. */
  datatype Params = Params(bits: nat, poly: Word, init: Word, finalXor: Word, reflectIn: bool, reflectRem: bool) {
    ghost predicate Valid() {
      0 < bits <= 64 && |poly| == |init| == |finalXor| == Width()
    }

    function Width(): nat {
      RegisterWidth(bits)
    }

    /** What the model prescribes for the register after a message. */
    ghost function Register(message: seq<Byte>): (r: Word)
      requires Valid()
      ensures |r| == bits
    {
      Steps(init[..bits], MessageBits(message, reflectIn), poly[..bits])
    }

    ghost function Checksum(message: seq<Byte>): (c: Word)
      requires Valid()
      ensures |c| == bits
    {
      Output(Register(message))
    }

    /** The output processing of a remainder. */
    ghost function Output(r: Word): (c: Word)
      requires Valid() && |r| == bits
      ensures |c| == bits
    {
      Xor(MirrorIf(reflectRem, r), finalXor[..bits])
    }

    /** A reflected register wider than a byte brings in what stands above its significant bits. */
    ghost predicate Wide() {
      reflectIn && bits > 8
    }

    /** What the table-driven computer has in its register after a message. */
    ghost function FastRegister(message: seq<Byte>): (r: Word)
      requires Valid()
      ensures |r| == bits
    {
      if Wide() then WideSteps(init[..bits], init[bits..], message, poly[..bits]).0 else Register(message)
    }

    ghost function FastChecksum(message: seq<Byte>): (c: Word)
      requires Valid()
      ensures |c| == bits
    {
      Output(FastRegister(message))
    }
  }

  /** Bits of a register value above the low `bits` are zero. */
  ghost predicate InRange(w: Word, bits: nat) {
    bits <= |w| && w == Mask(w, bits)
  }

  class CrcBasic {
    const bits: nat
    var rem: Word
    var poly: Word
    var init: Word
    var finalXor: Word
    var reflectIn: bool
    var reflectRem: bool

    ghost predicate Valid()
      reads this
    {
      0 < bits <= 64 && |rem| == |poly| == |init| == |finalXor| == RegisterWidth(bits)
    }

    /** The significant bits of the register. */
    ghost function Remainder(): (r: Word)
      requires Valid()
      reads this
    {
      rem[..bits]
    }

    constructor (p: Params)
      requires p.Valid()
      ensures Valid() && bits == p.bits && rem == p.init
      ensures poly == p.poly && init == p.init && finalXor == p.finalXor
      ensures reflectIn == p.reflectIn && reflectRem == p.reflectRem
    {
      bits := p.bits;
      rem, poly, init, finalXor := p.init, p.poly, p.init, p.finalXor;
      reflectIn, reflectRem := p.reflectIn, p.reflectRem;
    }

    method GetInterimRemainder() returns (r: Word)
      requires Valid()
      ensures r == Widen(Remainder(), |rem|)
    {
      r := Mask(rem, bits);
    }

    method Reset(newRem: Word)
      requires Valid() && |newRem| == |rem|
      modifies `rem
      ensures Valid() && rem == newRem
    {
      rem := newRem;
    }

    method ProcessBit(bit: bool)
      requires Valid()
      modifies `rem
      ensures Valid() && Remainder() == Step(old(Remainder()), bit, poly[..bits])
    {
      ghost var next := Step(rem[..bits], bit, poly[..bits]);
      assert [bit][..1] == [bit] && Mirror([bit]) == [bit];
      assert Steps(rem[..bits], [bit], poly[..bits]) == next;
      rem := CrcModuloWordUpdate(bits, rem, [bit], poly, 1, false);
      assert rem[..bits] == next;
    }

    /** The lowest `bitLength` bits of a byte, the highest of them first. */
    method ProcessBits(input: Word, bitLength: nat)
      requires Valid() && |input| == 8 && 0 < bitLength <= 8
      modifies `rem
      ensures Valid() && Remainder() == Steps(old(Remainder()), Mirror(input[..bitLength]), poly[..bits])
    {
      ghost var rest := Mirror(input[..bitLength]);
      ghost var goal := Steps(rem[..bits], rest, poly[..bits]);
      var b := Shl(input, 8 - bitLength);
      var i := bitLength;
      while i > 0
        invariant Valid() && 0 <= i <= bitLength && |b| == 8 && |rest| == i
        invariant forall k :: 0 <= k < i ==> b[7 - k] == rest[k]
        invariant goal == Steps(rem[..bits], rest, poly[..bits])
      {
        ProcessBit(b[7]);
        b := Shl(b, 1);
        rest := rest[1..];
        i := i - 1;
      }
    }

    method ProcessByte(byte: Byte)
      requires Valid()
      modifies `rem
      ensures Valid() && Remainder() == Steps(old(Remainder()), ReadingOrder(BitsOf(8, byte), reflectIn), poly[..bits])
    {
      var input := BitsOf(8, byte);
      if reflectIn {
        input := ReflectByte(input);
      }
      MirrorInvolution(BitsOf(8, byte));
      assert input[..8] == input;
      ProcessBits(input, 8);
    }

    method ProcessBytes(message: seq<Byte>)
      requires Valid()
      modifies `rem
      ensures Valid() && Remainder() == Steps(old(Remainder()), MessageBits(message, reflectIn), poly[..bits])
    {
      ghost var goal := Steps(rem[..bits], MessageBits(message, reflectIn), poly[..bits]);
      assert message[0..] == message;
      var i := 0;
      while i < |message|
        invariant Valid() && 0 <= i <= |message|
        invariant goal == Steps(rem[..bits], MessageBits(message[i..], reflectIn), poly[..bits])
      {
        ghost var next := Steps(rem[..bits], ReadingOrder(BitsOf(8, message[i]), reflectIn), poly[..bits]);
        NextByte(rem[..bits], message, i, reflectIn, poly[..bits], next);
        ProcessByte(message[i]);
        i := i + 1;
      }
      assert message[i..] == [];
    }

    method Checksum() returns (c: Word)
      requires Valid()
      ensures c == Widen(Xor(MirrorIf(reflectRem, Remainder()), finalXor[..bits]), |rem|)
    {
      var r := ReflectOptionally(rem, reflectRem, bits);
      c := Mask(Xor(r, finalXor), bits);
      assert r[..bits] == MirrorIf(reflectRem, Remainder());
      assert Xor(r, finalXor)[..bits] == Xor(r[..bits], finalXor[..bits]);
    }
  }

  /** `possible_reflector`: reflect a register, through the byte table when it is narrow. */
  method ReflectQ(x: Word, bits: nat, doIt: bool) returns (y: Word)
    requires 0 < bits <= 64 && |x| == RegisterWidth(bits)
    ensures |y| == |x| && y[..bits] == MirrorIf(doIt, x[..bits])
    ensures bits > 8 ==> y[bits..] == x[bits..]
  {
    if !doIt {
      y := x;
    } else if bits > 8 {
      y := ReflectUnsigned(x, bits);
    } else {
      y := ReflectSubByte(x, bits);
    }
  }

  class CrcOptimal {
    const p: Params
    var rem: Word

    ghost predicate Valid()
      reads this
    {
      p.Valid() && |rem| == p.Width()
    }

    /** The un-mirrored significant bits of the register. */
    ghost function Remainder(): (r: Word)
      requires Valid()
      reads this
    {
      MirrorIf(p.reflectIn, rem[..p.bits])
    }

    /** What the register holds above them. */
    ghost function Above(): Word
      requires Valid()
      reads this
    {
      rem[p.bits..]
    }

    constructor (p: Params, initRem: Word)
      requires p.Valid() && |initRem| == p.Width()
      ensures Valid() && this.p == p && Remainder() == initRem[..p.bits]
      ensures p.Wide() ==> Above() == initRem[p.bits..]
    {
      this.p := p;
      rem := initRem;
      new;
      MirrorInvolution(initRem[..p.bits]);
      rem := ReflectQ(initRem, p.bits, p.reflectIn);
    }

    method Reset(newRem: Word)
      requires Valid() && |newRem| == p.Width()
      modifies this
      ensures Valid() && Remainder() == newRem[..p.bits] && (p.Wide() ==> Above() == newRem[p.bits..])
    {
      MirrorInvolution(newRem[..p.bits]);
      rem := ReflectQ(newRem, p.bits, p.reflectIn);
    }

    method GetInterimRemainder() returns (r: Word)
      requires Valid()
      ensures r == Widen(Remainder(), p.Width())
    {
      r := ReflectQ(rem, p.bits, p.reflectIn);
      r := Mask(r, p.bits);
    }

    method ProcessBytes(message: seq<Byte>)
      requires Valid()
      modifies this
      ensures Valid()
      ensures if p.Wide() then (Remainder(), Above()) ==
              WideSteps(old(Remainder()), old(Above()), message, p.poly[..p.bits])
              else Remainder() == Steps(old(Remainder()), MessageBits(message, p.reflectIn), p.poly[..p.bits])
    {
      if p.bits < 8 {
        ghost var goal := Steps(Remainder(), MessageBits(message, p.reflectIn), p.poly[..p.bits]);
        rem := SubByteCrcUpdate(p.bits, p.poly, rem, message, p.reflectIn);
        MirrorInvolution(goal);
      } else if p.reflectIn {
        ghost var w := WideSteps(Remainder(), Above(), message, p.poly[..p.bits]);
        ghost var s, above := Remainder(), Above();
        rem := ReflectedCrcUpdate(p.bits, p.poly, rem, message);
        MirrorInvolution(w.0);
        assert rem[..p.bits] == Mirror(w.0) && rem[p.bits..] == w.1;
        if p.bits == 8 {
          CleanWideSteps(s, above, message, p.poly[..p.bits]);
        }
      } else {
        rem := DirectCrcUpdate(p.bits, p.poly, rem, message);
      }
    }

    /** The register is already mirrored when the input is, so it is reflected only when
        input and output reflection differ. */
    method Checksum() returns (c: Word)
      requires Valid()
      ensures c == Widen(p.Output(Remainder()), p.Width())
    {
      var r := ReflectQ(rem, p.bits, p.reflectRem != p.reflectIn);
      c := Mask(Xor(r, p.finalXor), p.bits);
      MirrorInvolution(rem[..p.bits]);
      assert r[..p.bits] == MirrorIf(p.reflectRem, Remainder());
      assert Xor(r, p.finalXor)[..p.bits] == Xor(r[..p.bits], p.finalXor[..p.bits]);
    }
  }

  /** The one-call form of the table-driven computer. */
  method Crc(p: Params, message: seq<Byte>) returns (c: Word)
    requires p.Valid()
    ensures c == Widen(p.FastChecksum(message), p.Width())
    ensures (p.Wide() ==> InRange(p.init, p.bits)) ==> c == Widen(p.Checksum(message), p.Width())
  {
    var computer := new CrcOptimal(p, p.init);
    computer.ProcessBytes(message);
    c := computer.Checksum();
    if p.Wide() ==> InRange(p.init, p.bits) {
      CleanRegister(p, message);
    }
  }

  lemma CleanRegister(p: Params, message: seq<Byte>)
    requires p.Valid() && (p.Wide() ==> InRange(p.init, p.bits))
    ensures p.FastRegister(message) == p.Register(message)
  {
    if p.Wide() {
      NothingAbove(p.init, p.bits);
      CleanWideSteps(p.init[..p.bits], p.init[p.bits..], message, p.poly[..p.bits]);
    }
  }

  lemma NothingAbove(w: Word, bits: nat)
    requires bits <= |w|
    ensures InRange(w, bits) <==> w[bits..] == Zeros(|w| - bits)
  {
    assert Mask(w, bits)[bits..] == Zeros(|w| - bits);
    assert w == w[..bits] + w[bits..];
  }

  /** Bit-wise and table-driven computers give the checksums that are defined for them, however the message
      is split between calls; they are the same when nothing stands above a reflected initial remainder. */
  method RunBothComputers(p: Params, first: seq<Byte>, second: seq<Byte>) returns (simple: Word, fast: Word)
    requires p.Valid()
    ensures simple == Widen(p.Checksum(first + second), p.Width())
    ensures fast == Widen(p.FastChecksum(first + second), p.Width())
    ensures (p.Wide() ==> InRange(p.init, p.bits)) ==> fast == simple
  {
    hide Steps, MessageBits, WideSteps;
    simple := RunBasic(p, first, second);
    fast := RunOptimal(p, first, second);
    if p.Wide() ==> InRange(p.init, p.bits) {
      CleanRegister(p, first + second);
    }
  }

  method RunBasic(p: Params, first: seq<Byte>, second: seq<Byte>) returns (c: Word)
    requires p.Valid()
    ensures c == Widen(p.Checksum(first + second), p.Width())
  {
    MessageBitsConcat(first, second, p.reflectIn);
    StepsConcat(p.init[..p.bits], MessageBits(first, p.reflectIn), MessageBits(second, p.reflectIn), p.poly[..p.bits]);
    hide Steps, MessageBits;
    var basic := new CrcBasic(p);
    basic.ProcessBytes(first);
    basic.ProcessBytes(second);
    c := basic.Checksum();
  }

  method RunOptimal(p: Params, first: seq<Byte>, second: seq<Byte>) returns (c: Word)
    requires p.Valid()
    ensures c == Widen(p.FastChecksum(first + second), p.Width())
  {
    var poly := p.poly[..p.bits];
    MessageBitsConcat(first, second, p.reflectIn);
    StepsConcat(p.init[..p.bits], MessageBits(first, p.reflectIn), MessageBits(second, p.reflectIn), poly);
    var w := WideSteps(p.init[..p.bits], p.init[p.bits..], first, poly);
    WideStepsConcat(p.init[..p.bits], p.init[p.bits..], first, second, poly, w);
    hide Steps, MessageBits, WideSteps;
    var optimal := new CrcOptimal(p, p.init);
    optimal.ProcessBytes(first);
    optimal.ProcessBytes(second);
    c := optimal.Checksum();
  }

  /** The two computers agree on every message exactly when a reflected initial remainder wider than a byte
      has nothing above its significant bits. */
  lemma ComputersAgree(p: Params)
    requires p.Valid()
    ensures (forall message :: p.FastChecksum(message) == p.Checksum(message)) <==>
            (p.Wide() ==> InRange(p.init, p.bits))
  {
    hide Steps, MessageBits, WideSteps;
    if p.Wide() && !InRange(p.init, p.bits) {
      var message := Disagreement(p);
      assert p.FastChecksum(message) != p.Checksum(message);
    } else {
      forall message ensures p.FastChecksum(message) == p.Checksum(message) {
        CleanRegister(p, message);
      }
    }
  }

  lemma FirstSet(w: Word) returns (j: nat)
    requires w != Zeros(|w|)
    ensures j < |w| && w[j] && forall i :: 0 <= i < j ==> !w[i]
  {
    if w[0] {
      j := 0;
    } else {
      assert w[1..] != Zeros(|w| - 1) by {
        assert Zeros(|w|)[1..] == Zeros(|w| - 1) && w == [w[0]] + w[1..] && Zeros(|w|) == [false] + Zeros(|w| - 1);
      }
      j := FirstSet(w[1..]);
      j := j + 1;
    }
  }

  lemma Disagreement(p: Params) returns (message: seq<Byte>)
    requires p.Valid() && p.Wide() && !InRange(p.init, p.bits)
    ensures p.FastChecksum(message) != p.Checksum(message)
  {
    hide Steps, MessageBits, WideSteps;
    NothingAbove(p.init, p.bits);
    var j := FirstSet(p.init[p.bits..]);
    message := AboveShows(p.init[..p.bits], p.init[p.bits..], j, p.poly[..p.bits]);
    if p.FastChecksum(message) == p.Checksum(message) {
      OutputInjective(p, p.FastRegister(message), p.Register(message));
    }
  }

  lemma OutputInjective(p: Params, a: Word, b: Word)
    requires p.Valid() && |a| == |b| == p.bits && p.Output(a) == p.Output(b)
    ensures a == b
  {
    var x, y, f := MirrorIf(p.reflectRem, a), MirrorIf(p.reflectRem, b), p.finalXor[..p.bits];
    forall i | 0 <= i < p.bits ensures x[i] == y[i] {
      assert Xor(x, f)[i] == Xor(y, f)[i];
    }
    MirrorInvolution(a);
    MirrorInvolution(b);
    assert x == y;
  }

  /** Before output processing, the prescribed register is the remainder of the message
      polynomial, whatever the parameters. */
  lemma PrescribedRegisterIsTheRemainder(p: Params, message: seq<Byte>, r: Word)
    requires p.Valid()
    ensures r == p.Register(message)
       <==> IsRemainder(Dividend(p.init[..p.bits], MessageBits(message, p.reflectIn)), p.poly[..p.bits], r)
  {
    RegisterIsTheRemainder(p.init[..p.bits], MessageBits(message, p.reflectIn), p.poly[..p.bits], r);
  }

  /** The message polynomial, from the arithmetic of the bytes: coefficient `j` of message * x^n + init * x^k. */
  lemma MessageCoefficient(init: Word, message: seq<Byte>, reflect: bool, j: nat)
    requires j < |init| + 8 * |message|
    ensures var n, k := |init|, 8 * |message|;
            var i := n + k - 1 - j;
            Dividend(init, MessageBits(message, reflect))[j] ==
              ((j >= n && message[i / 8] / Pow2(if reflect then i % 8 else 7 - i % 8) % 2 == 1) !=
               (j >= k && init[j - k]))
  {
    if j >= |init| {
      MessageBit(message, reflect, |init| + 8 * |message| - 1 - j);
    }
  }

  /** The checksum, bit by bit: the register, in reverse order if asked, with the final value's bits flipped. */
  lemma ChecksumBit(p: Params, message: seq<Byte>, i: nat)
    requires p.Valid() && i < p.bits
    ensures p.Checksum(message)[i] ==
            (p.Register(message)[if p.reflectRem then p.bits - 1 - i else i] != p.finalXor[i])
  {
  }

  lemma {:induction false} MessageBitsConcat(a: seq<Byte>, b: seq<Byte>, reflect: bool)
    ensures MessageBits(a + b, reflect) == MessageBits(a, reflect) + MessageBits(b, reflect)
  {
    if a == [] {
      assert a + b == b;
    } else {
      assert (a + b)[1..] == a[1..] + b;
      MessageBitsConcat(a[1..], b, reflect);
    }
  }

  /** Reflecting the input is reading bytes whose bits are in reverse order. */
  lemma {:induction false} ReflectedInputIsMirroredBytes(message: seq<Byte>, mirrored: seq<Byte>)
    requires |mirrored| == |message|
    requires forall i :: 0 <= i < |message| ==> BitsOf(8, mirrored[i]) == Mirror(BitsOf(8, message[i]))
    ensures MessageBits(message, true) == MessageBits(mirrored, false)
  {
    if message != [] {
      MirrorInvolution(BitsOf(8, message[0]));
      ReflectedInputIsMirroredBytes(message[1..], mirrored[1..]);
    }
  }

  // ----- augmented messages

  method AugmentedCrc(bits: nat, truncPoly: Word, message: seq<Byte>, initialRemainder: Word) returns (c: Word)
    requires 8 <= bits <= 64 && |truncPoly| == |initialRemainder| == RegisterWidth(bits)
    ensures c == Widen(AugSteps(initialRemainder[..bits], MessageBits(message, false), truncPoly[..bits]),
              RegisterWidth(bits))
  {
    c := DirectAugmentedCrcUpdate(bits, truncPoly, initialRemainder, message);
    c := Mask(c, bits);
  }

  lemma {:induction false} MessageBitsOfZeros(n: nat)
    ensures MessageBits(seq(n, i => 0), false) == Zeros(8 * n)
  {
    if n > 0 {
      MessageBitsOfZeros(n - 1);
      assert seq(n, i => 0)[1..] == seq(n - 1, i => 0);
      ZeroBits(8);
      assert Mirror(Zeros(8)) + Zeros(8 * (n - 1)) == Zeros(8 * n);
    }
  }

  lemma {:induction false} ZeroBits(w: nat)
    ensures BitsOf(w, 0) == Zeros(w)
  {
    if w > 0 {
      ZeroBits(w - 1);
    }
  }

  /** A register value as bytes, most significant first. */
  function BigEndian(c: Word): (bytes: seq<Byte>)
    requires |c| % 8 == 0
    ensures |bytes| * 8 == |c|
    decreases |c|
  {
    if c == [] then [] else
      assert Pow2(8) == 256;
      [ToNat(c[|c| - 8..])] + BigEndian(c[..|c| - 8])
  }

  lemma MirrorSlices(c: Word, n: nat)
    requires n <= |c|
    ensures Mirror(c) == Mirror(c[n..]) + Mirror(c[..n])
  {
  }

  lemma FirstByte(c: Word)
    requires |c| % 8 == 0 && c != []
    ensures BigEndian(c)[0] == ToNat(c[|c| - 8..]) && BigEndian(c)[1..] == BigEndian(c[..|c| - 8])
  {
  }

  lemma {:induction false} BigEndianBits(c: Word)
    requires |c| % 8 == 0
    ensures MessageBits(BigEndian(c), false) == Mirror(c)
    decreases |c|
  {
    if c != [] {
      hide Mirror, BigEndian;
      BitsOfToNat(c[|c| - 8..]);
      BigEndianBits(c[..|c| - 8]);
      MirrorSlices(c, |c| - 8);
      FirstByte(c);
    }
  }

  lemma WidenedAgree(a: Word, b: Word, w: nat)
    requires |a| == |b| <= w
    ensures Widen(a, w) == Widen(b, w) <==> a == b
    ensures Widen(a, w) == Zeros(w) <==> a == Zeros(|a|)
  {
    LowOfWidened(a, w);
    LowOfWidened(b, w);
    LowOfZeros(|a|, w);
    assert Widen(Zeros(|a|), w) == Zeros(w);
  }

  /** The two appended messages on bit sequences: `c` with zeros appended, `r` with the candidate. */
  lemma AppendedMessages(init: Word, message: seq<Byte>, candidate: Word, poly: Word, zeros: seq<Byte>)
    returns (c: Word, r: Word)
    requires |init| == |candidate| == |poly| > 0 && |poly| % 8 == 0
    requires zeros == seq(|poly| / 8, i => 0)
    ensures c == AugSteps(init, MessageBits(message + zeros, false), poly)
    ensures r == AugSteps(init, MessageBits(message + BigEndian(candidate), false), poly)
    ensures r == Zeros(|poly|) <==> candidate == c
    ensures init == Zeros(|poly|) ==> c == Steps(init, MessageBits(message, false), poly)
  {
    var m := MessageBits(message, false);
    MessageBitsConcat(message, zeros, false);
    MessageBitsOfZeros(|poly| / 8);
    MessageBitsConcat(message, BigEndian(candidate), false);
    BigEndianBits(candidate);
    c, r := AugSteps(init, m + Zeros(|poly|), poly), AugSteps(init, m + Mirror(candidate), poly);
    CheckByAppending(init, m, candidate, poly);
    AugmentedFromZero(m, poly);
  }

  /** The documented use of `augmented_crc`: append Bits/8 zero bytes to get the checksum, which is the augmented
      division of the longer message; appending a candidate checksum instead gives zero exactly when it is
      right; and from a zero initial remainder the checksum is the unaugmented one. */
  method CheckAugmented(bits: nat, truncPoly: Word, message: seq<Byte>, init: Word, candidate: Word)
    returns (checksum: Word, residue: Word)
    requires 8 <= bits <= 64 && bits % 8 == 0
    requires |truncPoly| == |init| == RegisterWidth(bits) && |candidate| == bits
    ensures checksum == Widen(
              AugSteps(init[..bits], MessageBits(message + seq(bits / 8, i => 0), false), truncPoly[..bits]),
              RegisterWidth(bits))
    ensures residue == Widen(
              AugSteps(init[..bits], MessageBits(message + BigEndian(candidate), false), truncPoly[..bits]),
              RegisterWidth(bits))
    ensures residue == Zeros(RegisterWidth(bits)) <==> checksum == Widen(candidate, RegisterWidth(bits))
    ensures init[..bits] == Zeros(bits) ==>
      checksum == Widen(Steps(Zeros(bits), MessageBits(message, false), truncPoly[..bits]), RegisterWidth(bits))
  {
    var zeros: seq<Byte> := seq(bits / 8, i => 0);
    checksum := AugmentedCrc(bits, truncPoly, message + zeros, init);
    residue := AugmentedCrc(bits, truncPoly, message + BigEndian(candidate), init);
    ghost var c, r := AppendedMessages(init[..bits], message, candidate, truncPoly[..bits], zeros);
    WidenedAgree(c, candidate, RegisterWidth(bits));
    WidenedAgree(r, r, RegisterWidth(bits));
  }
}
