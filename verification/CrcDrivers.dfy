/** The update routines: bit by bit, through a table, reflected and not. */
module CrcDrivers {
  import opened Bits
  import opened CrcDivision

  /** The width of the type `uint_t<bits>::fast`. */
  function RegisterWidth(bits: nat): nat {
    if bits <= 8 then 8 else if bits <= 16 then 16 else if bits <= 32 then 32 else 64
  }

  /** A word of dividend bits in reading order. */
  function ReadingOrder(word: Word, reflect: bool): Word {
    MirrorIf(!reflect, word)
  }

  /** All the bits of a message in reading order. */
  function MessageBits(message: seq<Byte>, reflect: bool): (bits: Word)
    ensures |bits| == 8 * |message|
  {
    if message == [] then []
    else ReadingOrder(BitsOf(8, message[0]), reflect) + MessageBits(message[1..], reflect)
  }

  /** Bit `k` of byte `i` of a message, in reading order. */
  lemma {:induction false} BitOfByte(message: seq<Byte>, reflect: bool, i: nat, k: nat)
    requires i < |message| && k < 8
    ensures MessageBits(message, reflect)[8 * i + k] <==>
            message[i] / Pow2(if reflect then k else 7 - k) % 2 == 1
    decreases i
  {
    hide Pow2, BitsOf;
    if i == 0 {
      BitIsDigit(8, message[0], if reflect then k else 7 - k);
    } else {
      BitOfByte(message[1..], reflect, i - 1, k);
    }
  }

  /** Bit `j` of a message: the bytes in order, each from its highest bit down, or from its lowest up when they
      are reflected. */
  lemma MessageBit(message: seq<Byte>, reflect: bool, j: nat)
    requires j < 8 * |message|
    ensures MessageBits(message, reflect)[j] <==>
            message[j / 8] / Pow2(if reflect then j % 8 else 7 - j % 8) % 2 == 1
  {
    hide MessageBits, Pow2;
    BitOfByte(message, reflect, j / 8, j % 8);
  }

  lemma NextByte(r: Word, message: seq<Byte>, i: nat, reflect: bool, poly: Word, next: Word)
    requires |r| == |poly| > 0 && i < |message|
    requires next == Steps(r, ReadingOrder(BitsOf(8, message[i]), reflect), poly)
    ensures Steps(r, MessageBits(message[i..], reflect), poly) ==
            Steps(next, MessageBits(message[i + 1..], reflect), poly)
  {
    StepsConcat(r, ReadingOrder(BitsOf(8, message[i]), reflect), MessageBits(message[i + 1..], reflect), poly);
    assert message[i..][1..] == message[i + 1..];
  }

  lemma AugNextByte(r: Word, message: seq<Byte>, i: nat, reflect: bool, poly: Word, next: Word)
    requires |r| == |poly| > 0 && i < |message|
    requires next == AugSteps(r, ReadingOrder(BitsOf(8, message[i]), reflect), poly)
    ensures AugSteps(r, MessageBits(message[i..], reflect), poly) ==
            AugSteps(next, MessageBits(message[i + 1..], reflect), poly)
  {
    AugStepsConcat(r, ReadingOrder(BitsOf(8, message[i]), reflect), MessageBits(message[i + 1..], reflect), poly);
    assert message[i..][1..] == message[i + 1..];
  }

  /** The ends of the loop over a message's bytes. */
  lemma LoopEnds(r: Word, message: seq<Byte>, reflect: bool, poly: Word)
    requires |r| == |poly| > 0
    ensures message[0..] == message
    ensures Steps(r, MessageBits(message[|message|..], reflect), poly) == r
    ensures AugSteps(r, MessageBits(message[|message|..], reflect), poly) == r
  {
  }

  // ----- bit-wise division of one word

  method ReflectOptionally(x: Word, reflect: bool, wordLength: nat) returns (y: Word)
    requires 0 < wordLength <= |x|
    ensures y == if reflect then Reflect(x, wordLength) else x
  {
    if reflect {
      y := ReflectUnsigned(x, wordLength);
    } else {
      y := x;
    }
  }

  /** The shifts and masks of one iteration, seen through the low `n` bits. */
  lemma StepInWideRegister(n: nat, r: Word, bit: bool, divisor: Word) returns (next: Word)
    requires 0 < n <= |r| == |divisor|
    ensures next == Step(r[..n], bit, divisor[..n])
    ensures var t := XorIf(r, bit, OneBit(|r|, n - 1));
            XorIf(Shl(t, 1), t[n - 1], divisor)[..n] == next
  {
    next := Step(r[..n], bit, divisor[..n]);
  }

  lemma DropBit(bits: Word, i: nat)
    requires 0 < i <= |bits|
    ensures Shr(bits, 1)[..i - 1] == bits[..i][1..]
  {
  }

  lemma AugStepInWideRegister(n: nat, r: Word, bit: bool, divisor: Word) returns (next: Word)
    requires 0 < n <= |r| == |divisor|
    ensures next == AugStep(r[..n], bit, divisor[..n])
    ensures XorIf(Or(Shl(r, 1), Widen([bit], |r|)), r[n - 1], divisor)[..n] == next
  {
    OrVacated(r, [bit]);
    next := AugStep(r[..n], bit, divisor[..n]);
  }

  method CrcModuloWordUpdate(registerLength: nat, remainder: Word, newDividendBits: Word,
                             truncatedDivisor: Word, wordLength: nat, reflect: bool)
    returns (r: Word)
    requires 0 < registerLength <= |remainder| == |truncatedDivisor|
    requires 0 < wordLength <= |newDividendBits|
    ensures r == Widen(Steps(remainder[..registerLength], ReadingOrder(newDividendBits[..wordLength], reflect),
                             truncatedDivisor[..registerLength]), |remainder|)
  {
    var n := registerLength;
    var highBitMask := OneBit(|remainder|, n - 1);
    var bits := ReflectOptionally(newDividendBits, !reflect, wordLength);
    ghost var rest := ReadingOrder(newDividendBits[..wordLength], reflect);
    assert bits[..wordLength] == rest;
    ghost var goal := Steps(remainder[..n], rest, truncatedDivisor[..n]);
    r := remainder;
    var i := wordLength;
    while i > 0
      invariant 0 <= i <= wordLength && |r| == |remainder| && |bits| == |newDividendBits| && bits[..i] == rest
      invariant goal == Steps(r[..n], rest, truncatedDivisor[..n])
    {
      ghost var next := StepInWideRegister(n, r, bits[0], truncatedDivisor);
      r := XorIf(r, bits[0], highBitMask);
      var quotient := r[n - 1];
      r := Shl(r, 1);
      r := XorIf(r, quotient, truncatedDivisor);
      DropBit(bits, i);
      bits := Shr(bits, 1);
      rest := rest[1..];
      i := i - 1;
    }
    r := Mask(r, n);
  }

  /** The augmented variant leaves whatever the shifts push above the register. */
  method AugmentedCrcModuloWordUpdate(registerLength: nat, remainder: Word, newDividendBits: Word,
                                      truncatedDivisor: Word, wordLength: nat, reflect: bool)
    returns (r: Word)
    requires 0 < registerLength <= |remainder| == |truncatedDivisor|
    requires 0 < wordLength <= |newDividendBits|
    ensures |r| == |remainder|
    ensures r[..registerLength]
         == AugSteps(remainder[..registerLength], ReadingOrder(newDividendBits[..wordLength], reflect),
                     truncatedDivisor[..registerLength])
  {
    var n := registerLength;
    var bits := ReflectOptionally(newDividendBits, !reflect, wordLength);
    ghost var rest := ReadingOrder(newDividendBits[..wordLength], reflect);
    assert bits[..wordLength] == rest;
    ghost var goal := AugSteps(remainder[..n], rest, truncatedDivisor[..n]);
    r := remainder;
    var i := wordLength;
    while i > 0
      invariant 0 <= i <= wordLength && |r| == |remainder| && |bits| == |newDividendBits| && bits[..i] == rest
      invariant goal == AugSteps(r[..n], rest, truncatedDivisor[..n])
    {
      ghost var next := AugStepInWideRegister(n, r, bits[0], truncatedDivisor);
      var quotient := r[n - 1];
      r := Shl(r, 1);
      r := Or(r, Widen([bits[0]], |r|));
      r := XorIf(r, quotient, truncatedDivisor);
      DropBit(bits, i);
      bits := Shr(bits, 1);
      rest := rest[1..];
      i := i - 1;
    }
  }

  // ----- the table

  /** Entry `i`: what the bits of `i` do to a zero register, mirrored when reflecting. */
  function TableEntry(subOrder: nat, poly: Word, reflect: bool, i: nat): (entry: Word)
    requires |poly| > 0
    ensures |entry| == |poly|
  {
    MirrorIf(reflect, Steps(Zeros(|poly|), ReadingOrder(BitsOf(subOrder, i), reflect), poly))
  }

  ghost predicate IsTable(table: seq<Word>, subOrder: nat, width: nat, poly: Word, reflect: bool) {
    && 0 < |poly| <= width
    && |table| == Pow2(subOrder)
    && forall i :: 0 <= i < |table| ==> table[i] == Widen(TableEntry(subOrder, poly, reflect, i), width)
  }

  /** The slot that holds the effect of `dividend`: its own, or that of its mirror image. */
  function Slot(subOrder: nat, reflect: bool, dividend: nat): (slot: nat)
    ensures slot < Pow2(subOrder)
  {
    ToNat(MirrorIf(reflect, BitsOf(subOrder, dividend)))
  }

  lemma SlotBits(subOrder: nat, reflect: bool, dividend: nat)
    requires dividend < Pow2(subOrder)
    ensures BitsOf(subOrder, Slot(subOrder, reflect, dividend)) == MirrorIf(reflect, BitsOf(subOrder, dividend))
    ensures Slot(subOrder, reflect, Slot(subOrder, reflect, dividend)) == dividend
  {
    var w := BitsOf(subOrder, dividend);
    BitsOfToNat(MirrorIf(reflect, w));
    MirrorInvolution(w);
    ToNatBitsOf(subOrder, dividend);
  }

  /** `reflect_optionally(dividend, reflect, subOrder)` is the slot. */
  lemma SlotOfReflected(subOrder: nat, reflect: bool, dividend: nat)
    requires dividend < Pow2(subOrder)
    ensures var wide := BitsOf(subOrder + 1, dividend);
            ToNat(if reflect then Reflect(wide, subOrder) else wide) == Slot(subOrder, reflect, dividend)
  {
    var w, wide := BitsOf(subOrder, dividend), BitsOf(subOrder + 1, dividend);
    BitsOfWiden(subOrder, subOrder + 1, dividend);
    ToNatWiden(MirrorIf(reflect, w), subOrder + 1);
    assert wide[..subOrder] == w;
    assert wide[subOrder..] == Zeros(1);
  }

  lemma OnlySlot(subOrder: nat, reflect: bool, dividend: nat, place: nat)
    requires dividend < Pow2(subOrder) && place == Slot(subOrder, reflect, dividend)
    ensures forall i :: 0 <= i < Pow2(subOrder) && Slot(subOrder, reflect, i) == dividend ==> i == place
  {
    forall i | 0 <= i < Pow2(subOrder) && Slot(subOrder, reflect, i) == dividend ensures i == place {
      SlotBits(subOrder, reflect, i);
    }
  }

  method MakePartialXorProductsTable(subOrder: nat, registerLength: nat, truncatedDivisor: Word, reflect: bool)
    returns (result: array<Word>)
    requires 0 < subOrder && 0 < registerLength <= |truncatedDivisor|
    ensures fresh(result)
    ensures IsTable(result[..], subOrder, |truncatedDivisor|, truncatedDivisor[..registerLength], reflect)
  {
    hide Steps, TableEntry;
    var n, width := registerLength, |truncatedDivisor|;
    ghost var poly := truncatedDivisor[..n];
    result := new Word[Pow2(subOrder)](_ => Zeros(width));
    var dividend := 0;
    while dividend < result.Length
      invariant 0 <= dividend <= result.Length
      invariant forall i | 0 <= i < result.Length && Slot(subOrder, reflect, i) < dividend ::
                  result[i] == Widen(TableEntry(subOrder, poly, reflect, i), width)
    {
      var bits := BitsOf(subOrder + 1, dividend);
      var remainder := CrcModuloWordUpdate(n, Zeros(width), bits, truncatedDivisor, subOrder, false);
      var place := ReflectOptionally(bits, reflect, subOrder);
      SlotOfReflected(subOrder, reflect, dividend);
      var entry := ReflectOptionally(remainder, reflect, n);
      TableStep(subOrder, width, poly, reflect, dividend, remainder, entry);
      result[ToNat(place)] := entry;
      OnlySlot(subOrder, reflect, dividend, ToNat(place));
      dividend := dividend + 1;
    }
  }

  lemma TableStep(subOrder: nat, width: nat, poly: Word, reflect: bool, dividend: nat, remainder: Word, entry: Word)
    requires 0 < |poly| <= width && dividend < Pow2(subOrder)
    requires remainder == Widen(Steps(Zeros(width)[..|poly|], Mirror(BitsOf(subOrder + 1, dividend)[..subOrder]),
               poly), width)
    requires entry == if reflect then Reflect(remainder, |poly|) else remainder
    ensures entry == Widen(TableEntry(subOrder, poly, reflect, Slot(subOrder, reflect, dividend)), width)
  {
    var w := BitsOf(subOrder, dividend);
    SlotBits(subOrder, reflect, dividend);
    BitsOfWiden(subOrder, subOrder + 1, dividend);
    LowOfWidened(w, subOrder + 1);
    LowOfZeros(|poly|, width);
    assert ReadingOrder(MirrorIf(reflect, w), reflect) == Mirror(w);
    ReflectWidened(Steps(Zeros(|poly|), Mirror(w), poly), width);
  }

  // ----- direct, table driven

  /** The `k` bits at the top of an `n`-bit register, whatever lies above bit `n`. */
  lemma LeadingBits(rem: Word, n: nat, k: nat)
    requires k <= n <= |rem|
    ensures Mirror(Shr(rem, n - k)[..k]) == Top(rem[..n], k)
  {
  }

  lemma TableLookup(bits: Word, table: seq<Word>, width: nat, poly: Word, reflect: bool) returns (entry: Word)
    requires IsTable(table, |bits|, width, poly, reflect)
    ensures entry == Steps(Zeros(|poly|), ReadingOrder(bits, reflect), poly)
    ensures ToNat(bits) < |table| && table[ToNat(bits)] == Widen(MirrorIf(reflect, entry), width)
  {
    entry := Steps(Zeros(|poly|), ReadingOrder(bits, reflect), poly);
    BitsOfToNat(bits);
  }

  lemma DirectIndex(rem: Word, n: nat, byte: Word)
    requires |byte| <= n <= |rem|
    ensures Mirror(Xor(Shr(rem, n - |byte|)[..|byte|], byte)) == Xor(Top(rem[..n], |byte|), Mirror(byte))
  {
  }

  lemma XorShifted(rem: Word, n: nat, k: nat, entry: Word, next: Word)
    requires k <= n == |entry| <= |rem| && next == Xor(Shl(rem[..n], k), entry)
    ensures Xor(Shl(rem, k), Widen(entry, |rem|))[..n] == next
  {
  }

  lemma DirectEntry(rem: Word, r: Word, poly: Word, bits: Word, index: Word, entry: Word, next: Word)
    requires |bits| <= |poly| == |r| <= |rem| && |poly| > 0
    requires r == rem[..|r|] && index == Xor(Top(r, |bits|), bits)
    requires entry == Steps(Zeros(|poly|), index, poly) && next == Steps(r, bits, poly)
    ensures Xor(Shl(rem, |bits|), Widen(entry, |rem|))[..|poly|] == next
  {
    StepsByTable(r, bits, poly);
    XorShifted(rem, |poly|, |bits|, entry, next);
  }

  lemma DirectByte(rem: Word, poly: Word, byte: Word, table: seq<Word>) returns (next: Word)
    requires |byte| <= |poly| <= |rem| && IsTable(table, |byte|, |rem|, poly, false)
    ensures next == Steps(rem[..|poly|], Mirror(byte), poly)
    ensures var index := ToNat(Xor(Shr(rem, |poly| - |byte|)[..|byte|], byte));
            index < |table| && Xor(Shl(rem, |byte|), table[index])[..|poly|] == next
  {
    var bits := Xor(Shr(rem, |poly| - |byte|)[..|byte|], byte);
    next := Steps(rem[..|poly|], Mirror(byte), poly);
    var entry := TableLookup(bits, table, |rem|, poly, false);
    DirectIndex(rem, |poly|, byte);
    DirectEntry(rem, rem[..|poly|], poly, Mirror(byte), Mirror(bits), entry, next);
  }

  /** One iteration: what remains of the goal after the byte's table step. */
  lemma DirectIteration(r: Word, poly: Word, message: seq<Byte>, i: nat, table: seq<Word>, goal: Word)
    returns (r': Word)
    requires 8 <= |poly| <= |r| && i < |message| && IsTable(table, 8, |r|, poly, false)
    requires goal == Steps(r[..|poly|], MessageBits(message[i..], false), poly)
    ensures var index := ToNat(Xor(Shr(r, |poly| - 8)[..8], BitsOf(8, message[i])));
            index < |table| && r' == Xor(Shl(r, 8), table[index])
    ensures |r'| == |r| && goal == Steps(r'[..|poly|], MessageBits(message[i + 1..], false), poly)
  {
    hide Steps, MessageBits;
    var next := DirectByte(r, poly, BitsOf(8, message[i]), table);
    NextByte(r[..|poly|], message, i, false, poly, next);
    r' := Xor(Shl(r, 8), table[ToNat(Xor(Shr(r, |poly| - 8)[..8], BitsOf(8, message[i])))]);
  }

  method DirectCrcUpdate(order: nat, poly: Word, remainder: Word, message: seq<Byte>) returns (r: Word)
    requires 8 <= order <= |remainder| == |poly|
    ensures |r| == |remainder|
    ensures r[..order] == Steps(remainder[..order], MessageBits(message, false), poly[..order])
  {
    hide Steps, AugSteps, MessageBits;
    var table := MakePartialXorProductsTable(8, order, poly, false);
    ghost var masks := table[..];
    ghost var goal := Steps(remainder[..order], MessageBits(message, false), poly[..order]);
    LoopEnds(remainder[..order], message, false, poly[..order]);
    r := remainder;
    var i := 0;
    while i < |message|
      invariant 0 <= i <= |message| && |r| == |remainder| && table[..] == masks
      invariant goal == Steps(r[..order], MessageBits(message[i..], false), poly[..order])
    {
      ghost var r' := DirectIteration(r, poly[..order], message, i, masks, goal);
      var index := ToNat(Xor(Shr(r, order - 8)[..8], BitsOf(8, message[i])));
      r := Shl(r, 8);
      r := Xor(r, table[index]);
      i := i + 1;
    }
    LoopEnds(r[..order], message, false, poly[..order]);
  }

  lemma XorShiftedIn(rem: Word, n: nat, byte: Word, entry: Word, next: Word)
    requires |byte| <= n == |entry| <= |rem| && next == Xor(byte + rem[..n][..n - |byte|], entry)
    ensures Xor(byte + rem[..|rem| - |byte|], Widen(entry, |rem|))[..n] == next
  {
  }

  lemma DirectAugEntry(rem: Word, r: Word, poly: Word, byte: Word, index: Word, entry: Word, next: Word)
    requires |byte| <= |poly| == |r| <= |rem| && |poly| > 0
    requires r == rem[..|r|] && index == Top(r, |byte|)
    requires entry == Steps(Zeros(|poly|), index, poly) && next == AugSteps(r, Mirror(byte), poly)
    ensures Xor(Or(Shl(rem, |byte|), Widen(byte, |rem|)), Widen(entry, |rem|))[..|poly|] == next
  {
    AugStepsByTable(r, Mirror(byte), poly);
    MirrorInvolution(byte);
    OrVacated(rem, byte);
    XorShiftedIn(rem, |poly|, byte, entry, next);
  }

  lemma DirectAugByte(rem: Word, poly: Word, byte: Word, table: seq<Word>) returns (next: Word)
    requires |byte| <= |poly| <= |rem| && IsTable(table, |byte|, |rem|, poly, false)
    ensures next == AugSteps(rem[..|poly|], Mirror(byte), poly)
    ensures var index := ToNat(Shr(rem, |poly| - |byte|)[..|byte|]);
            index < |table| && Xor(Or(Shl(rem, |byte|), Widen(byte, |rem|)), table[index])[..|poly|] == next
  {
    var bits := Shr(rem, |poly| - |byte|)[..|byte|];
    next := AugSteps(rem[..|poly|], Mirror(byte), poly);
    var entry := TableLookup(bits, table, |rem|, poly, false);
    LeadingBits(rem, |poly|, |byte|);
    DirectAugEntry(rem, rem[..|poly|], poly, byte, Mirror(bits), entry, next);
  }

  lemma DirectAugIteration(r: Word, poly: Word, message: seq<Byte>, i: nat, table: seq<Word>, goal: Word)
    returns (r': Word)
    requires 8 <= |poly| <= |r| && i < |message| && IsTable(table, 8, |r|, poly, false)
    requires goal == AugSteps(r[..|poly|], MessageBits(message[i..], false), poly)
    ensures var index := ToNat(Shr(r, |poly| - 8)[..8]);
            index < |table| && r' == Xor(Or(Shl(r, 8), Widen(BitsOf(8, message[i]), |r|)), table[index])
    ensures |r'| == |r| && goal == AugSteps(r'[..|poly|], MessageBits(message[i + 1..], false), poly)
  {
    hide AugSteps, MessageBits;
    var byte := BitsOf(8, message[i]);
    var next := DirectAugByte(r, poly, byte, table);
    AugNextByte(r[..|poly|], message, i, false, poly, next);
    r' := Xor(Or(Shl(r, 8), Widen(byte, |r|)), table[ToNat(Shr(r, |poly| - 8)[..8])]);
  }

  method DirectAugmentedCrcUpdate(order: nat, poly: Word, remainder: Word, message: seq<Byte>) returns (r: Word)
    requires 8 <= order <= |remainder| == |poly|
    ensures |r| == |remainder|
    ensures r[..order] == AugSteps(remainder[..order], MessageBits(message, false), poly[..order])
  {
    hide Steps, AugSteps, MessageBits;
    var table := MakePartialXorProductsTable(8, order, poly, false);
    ghost var masks := table[..];
    ghost var goal := AugSteps(remainder[..order], MessageBits(message, false), poly[..order]);
    LoopEnds(remainder[..order], message, false, poly[..order]);
    r := remainder;
    var i := 0;
    while i < |message|
      invariant 0 <= i <= |message| && |r| == |remainder| && table[..] == masks
      invariant goal == AugSteps(r[..order], MessageBits(message[i..], false), poly[..order])
    {
      var byte := BitsOf(8, message[i]);
      ghost var r' := DirectAugIteration(r, poly[..order], message, i, masks, goal);
      var index := ToNat(Shr(r, order - 8)[..8]);
      r := Shl(r, 8);
      r := Or(r, Widen(byte, |r|));
      r := Xor(r, table[index]);
      i := i + 1;
    }
    LoopEnds(r[..order], message, false, poly[..order]);
  }

  // ----- reflected, table driven

  /** The lowest `k` of the bits above a reflected register, as they come in when it is shifted. */
  function Incoming(above: Word, n: nat, k: nat): (w: Word)
    ensures |w| == n
  {
    seq(n, i requires 0 <= i < n => i < k && k - 1 - i < |above| && above[k - 1 - i])
  }

  /** A reflected update of the remainder `s` in a register that holds `above` beyond it. */
  function WideSteps(s: Word, above: Word, message: seq<Byte>, poly: Word): (w: (Word, Word))
    requires |s| == |poly| > 0
    ensures |w.0| == |s| && |w.1| == |above|
    decreases |message|
  {
    if message == [] then (s, above)
    else WideSteps(WideStep(s, above, message[0], poly), Shr(above, 8), message[1..], poly)
  }

  function WideStep(s: Word, above: Word, byte: Byte, poly: Word): (s': Word)
    requires |s| == |poly| > 0
    ensures |s'| == |s|
  {
    Xor(Steps(s, BitsOf(8, byte), poly), Incoming(above, |s|, 8))
  }

  /** The same with augmented division, where the incoming bits are merged into the byte. */
  function AugWideSteps(s: Word, above: Word, message: seq<Byte>, poly: Word): (w: (Word, Word))
    requires |s| == |poly| > 0
    ensures |w.0| == |s| && |w.1| == |above|
    decreases |message|
  {
    if message == [] then (s, above)
    else AugWideSteps(AugSteps(s, Merged(BitsOf(8, message[0]), above), poly), Shr(above, 8), message[1..], poly)
  }

  function Merged(byte: Word, above: Word): (m: Word)
    ensures |m| == |byte|
  {
    seq(|byte|, i requires 0 <= i < |byte| => byte[i] || (i < |above| && above[i]))
  }

  lemma ReflectedByte(rem: Word, r: Word, above: Word, poly: Word, byte: Word, table: seq<Word>) returns (next: Word)
    requires |byte| <= |poly| == |r| && |rem| == |r| + |above| && IsTable(table, |byte|, |rem|, poly, true)
    requires rem == Mirror(r) + above
    ensures next == Xor(Steps(r, byte, poly), Incoming(above, |r|, |byte|))
    ensures var index := ToNat(Xor(rem[..|byte|], byte));
            index < |table| && Xor(Shr(rem, |byte|), table[index]) == Mirror(next) + Shr(above, |byte|)
  {
    next := Xor(Steps(r, byte, poly), Incoming(above, |r|, |byte|));
    var entry := TableLookup(Xor(rem[..|byte|], byte), table, |rem|, poly, true);
    assert rem[..|byte|] == Top(r, |byte|);
    StepsByTable(r, byte, poly);
    ReflectedShift(rem, r, above, |byte|, entry);
  }

  lemma ReflectedShift(rem: Word, r: Word, above: Word, k: nat, s: Word)
    requires k <= |s| == |r| && rem == Mirror(r) + above
    ensures Xor(Shr(rem, k), Widen(Mirror(s), |rem|))
         == Mirror(Xor(Xor(Shl(r, k), s), Incoming(above, |r|, k))) + Shr(above, k)
  {
  }

  /** A reflected register holds the mirror of the remainder. Whatever stands above it is shifted in. */
  method ReflectedCrcUpdate(order: nat, poly: Word, remainder: Word, message: seq<Byte>) returns (r: Word)
    requires 8 <= order <= |remainder| == |poly|
    ensures var w := WideSteps(Mirror(remainder[..order]), remainder[order..], message, poly[..order]);
            r == Mirror(w.0) + w.1
  {
    hide Steps, WideStep, Incoming;
    var table := MakePartialXorProductsTable(8, order, poly, true);
    ghost var masks := table[..];
    ghost var s, above := Mirror(remainder[..order]), remainder[order..];
    ghost var goal := WideSteps(s, above, message, poly[..order]);
    r := remainder;
    MirrorInvolution(remainder[..order]);
    assert message[0..] == message;
    var i := 0;
    while i < |message|
      invariant 0 <= i <= |message| && table[..] == masks
      invariant |s| == order && |s| + |above| == |poly| && r == Mirror(s) + above
      invariant goal == WideSteps(s, above, message[i..], poly[..order])
    {
      ghost var next := ReflectedIteration(r, s, above, poly[..order], message, i, masks, goal);
      var index := ToNat(Xor(r[..8], BitsOf(8, message[i])));
      r := Shr(r, 8);
      r := Xor(r, table[index]);
      s, above := next, Shr(above, 8);
      i := i + 1;
    }
    assert message[i..] == [];
  }

  lemma ReflectedIteration(
    rem: Word, s: Word, above: Word, poly: Word, message: seq<Byte>, i: nat, table: seq<Word>, goal: (Word, Word))
    returns (next: Word)
    requires 8 <= |poly| == |s| && |rem| == |s| + |above| && i < |message| && IsTable(table, 8, |rem|, poly, true)
    requires rem == Mirror(s) + above && goal == WideSteps(s, above, message[i..], poly)
    ensures |next| == |s| && goal == WideSteps(next, Shr(above, 8), message[i + 1..], poly)
    ensures var index := ToNat(Xor(rem[..8], BitsOf(8, message[i])));
            index < |table| && Xor(Shr(rem, 8), table[index]) == Mirror(next) + Shr(above, 8)
  {
    hide Steps;
    next := ReflectedByte(rem, s, above, poly, BitsOf(8, message[i]), table);
    assert message[i..][1..] == message[i + 1..];
  }

  lemma ReflectedShiftIn(rem: Word, r: Word, above: Word, byte: Word, entry: Word, next: Word)
    requires |byte| <= |entry| == |r| && rem == Mirror(r) + above
    requires next == Xor(Mirror(Merged(byte, above)) + r[..|r| - |byte|], entry)
    ensures Xor(Or(Shr(rem, |byte|), Shl(Widen(byte, |rem|), |r| - |byte|)), Widen(Mirror(entry), |rem|))
         == Mirror(next) + Shr(above, |byte|)
  {
  }

  lemma ReflectedAugByte(rem: Word, r: Word, above: Word, poly: Word, byte: Word, table: seq<Word>) returns (next: Word)
    requires |byte| <= |poly| == |r| && |rem| == |r| + |above| && IsTable(table, |byte|, |rem|, poly, true)
    requires rem == Mirror(r) + above
    ensures next == AugSteps(r, Merged(byte, above), poly)
    ensures var index := ToNat(rem[..|byte|]);
            index < |table| &&
            Xor(Or(Shr(rem, |byte|), Shl(Widen(byte, |rem|), |r| - |byte|)), table[index])
              == Mirror(next) + Shr(above, |byte|)
  {
    next := AugSteps(r, Merged(byte, above), poly);
    var entry := TableLookup(rem[..|byte|], table, |rem|, poly, true);
    assert rem[..|byte|] == Top(r, |byte|);
    AugStepsByTable(r, Merged(byte, above), poly);
    ReflectedShiftIn(rem, r, above, byte, entry, next);
  }

  lemma ReflectedAugIteration(
    rem: Word, s: Word, above: Word, poly: Word, message: seq<Byte>, i: nat, table: seq<Word>, goal: (Word, Word))
    returns (next: Word)
    requires 8 <= |poly| == |s| && |rem| == |s| + |above| && i < |message| && IsTable(table, 8, |rem|, poly, true)
    requires rem == Mirror(s) + above && goal == AugWideSteps(s, above, message[i..], poly)
    ensures |next| == |s| && goal == AugWideSteps(next, Shr(above, 8), message[i + 1..], poly)
    ensures var index, byte := ToNat(rem[..8]), BitsOf(8, message[i]);
            index < |table| &&
            Xor(Or(Shr(rem, 8), Shl(Widen(byte, |rem|), |s| - 8)), table[index]) == Mirror(next) + Shr(above, 8)
  {
    hide AugSteps;
    next := ReflectedAugByte(rem, s, above, poly, BitsOf(8, message[i]), table);
    assert message[i..][1..] == message[i + 1..];
  }

  method ReflectedAugmentedCrcUpdate(order: nat, poly: Word, remainder: Word, message: seq<Byte>) returns (r: Word)
    requires 8 <= order <= |remainder| == |poly|
    ensures var w := AugWideSteps(Mirror(remainder[..order]), remainder[order..], message, poly[..order]);
            r == Mirror(w.0) + w.1
  {
    hide AugSteps, Merged;
    var table := MakePartialXorProductsTable(8, order, poly, true);
    ghost var masks := table[..];
    ghost var s, above := Mirror(remainder[..order]), remainder[order..];
    ghost var goal := AugWideSteps(s, above, message, poly[..order]);
    r := remainder;
    MirrorInvolution(remainder[..order]);
    assert message[0..] == message;
    var i := 0;
    while i < |message|
      invariant 0 <= i <= |message| && table[..] == masks
      invariant |s| == order && |s| + |above| == |poly| && r == Mirror(s) + above
      invariant goal == AugWideSteps(s, above, message[i..], poly[..order])
    {
      var byte := BitsOf(8, message[i]);
      ghost var next := ReflectedAugIteration(r, s, above, poly[..order], message, i, masks, goal);
      var index := ToNat(r[..8]);
      r := Shr(r, 8);
      r := Or(r, Shl(Widen(byte, |r|), order - 8));
      r := Xor(r, table[index]);
      s, above := next, Shr(above, 8);
      i := i + 1;
    }
    assert message[i..] == [];
  }

  // ----- what stands above a reflected register

  lemma NothingIncoming(above: Word, n: nat, k: nat)
    requires above == Zeros(|above|)
    ensures Incoming(above, n, k) == Zeros(n) && Shr(above, k) == Zeros(|above|)
  {
  }

  lemma XorZeros(w: Word)
    ensures Xor(w, Zeros(|w|)) == w
  {
  }

  /** With nothing above it, the reflected register goes through the division of the message. */
  lemma {:induction false} CleanWideSteps(s: Word, above: Word, message: seq<Byte>, poly: Word)
    requires |s| == |poly| > 0 && above == Zeros(|above|)
    ensures WideSteps(s, above, message, poly) == (Steps(s, MessageBits(message, true), poly), above)
    decreases |message|
  {
    hide Steps;
    if message == [] {
      LoopEnds(s, message, true, poly);
      assert message[|message|..] == message;
    } else {
      var next := Steps(s, BitsOf(8, message[0]), poly);
      NothingIncoming(above, |s|, 8);
      XorZeros(next);
      CleanWideSteps(next, above, message[1..], poly);
      NextByte(s, message, 0, true, poly, next);
      assert message[0..] == message;
    }
  }

  lemma CleanMerged(byte: Word, above: Word)
    requires above == Zeros(|above|)
    ensures Merged(byte, above) == byte && Shr(above, 8) == above
  {
  }

  lemma {:induction false} CleanAugWideSteps(s: Word, above: Word, message: seq<Byte>, poly: Word)
    requires |s| == |poly| > 0 && above == Zeros(|above|)
    ensures AugWideSteps(s, above, message, poly) == (AugSteps(s, MessageBits(message, true), poly), above)
    decreases |message|
  {
    hide AugSteps;
    if message == [] {
      LoopEnds(s, message, true, poly);
      assert message[|message|..] == message;
    } else {
      var next := AugSteps(s, BitsOf(8, message[0]), poly);
      CleanMerged(BitsOf(8, message[0]), above);
      CleanAugWideSteps(next, above, message[1..], poly);
      AugNextByte(s, message, 0, true, poly, next);
      assert message[0..] == message;
    }
  }

  lemma {:induction false} WideStepsConcat(
    s: Word, above: Word, a: seq<Byte>, b: seq<Byte>, poly: Word, w: (Word, Word))
    requires |s| == |poly| > 0 && w == WideSteps(s, above, a, poly)
    ensures WideSteps(s, above, a + b, poly) == WideSteps(w.0, w.1, b, poly)
    decreases |a|
  {
    hide WideStep;
    if a == [] {
      assert a + b == b;
    } else {
      assert (a + b)[1..] == a[1..] + b;
      WideStepsConcat(WideStep(s, above, a[0], poly), Shr(above, 8), a[1..], b, poly, w);
    }
  }

  /** A bit that comes in changes the remainder at once. */
  lemma IncomingShows(r: Word, above: Word, j: nat)
    requires j < 8 <= |r| && j < |above| && above[j]
    ensures Xor(r, Incoming(above, |r|, 8)) != r
  {
    assert Xor(r, Incoming(above, |r|, 8))[7 - j] != r[7 - j];
  }

  lemma NoneIncoming(above: Word, n: nat, k: nat)
    requires forall i :: 0 <= i < k && i < |above| ==> !above[i]
    ensures Incoming(above, n, k) == Zeros(n)
  {
  }

  /** Zero bytes bring any bit above the register in, and then the remainder is another one. */
  lemma {:induction false} AboveShows(s: Word, above: Word, j: nat, poly: Word) returns (message: seq<Byte>)
    requires 8 <= |s| == |poly| && j < |above| && above[j] && forall i :: 0 <= i < j ==> !above[i]
    ensures WideSteps(s, above, message, poly).0 != Steps(s, MessageBits(message, true), poly)
    decreases j
  {
    hide Steps, MessageBits;
    var next := Steps(s, BitsOf(8, 0), poly);
    if j < 8 {
      message := [0];
      IncomingShows(next, above, j);
      OneZeroByte(s, poly, next);
      assert WideSteps(s, above, message, poly).0 == WideStep(s, above, 0, poly);
    } else {
      NoneIncoming(above, |s|, 8);
      XorZeros(next);
      var rest := AboveShows(next, Shr(above, 8), j - 8, poly);
      message := [0] + rest;
      NextByte(s, message, 0, true, poly, next);
      assert message[0..] == message && message[1..] == rest;
    }
  }

  lemma OneZeroByte(s: Word, poly: Word, next: Word)
    requires |s| == |poly| > 0 && next == Steps(s, BitsOf(8, 0), poly)
    ensures Steps(s, MessageBits([0], true), poly) == next
  {
    var message: seq<Byte> := [0];
    assert message[1..] == [];
    assert BitsOf(8, 0) + [] == BitsOf(8, 0);
  }

  // ----- narrower than a byte

  /** Without a table, each byte is divided explicitly. */
  method SubByteCrcUpdate(order: nat, poly: Word, remainder: Word, message: seq<Byte>, reflect: bool) returns (r: Word)
    requires 0 < order < 8 && |remainder| == |poly| == 8
    ensures |r| == 8
    ensures r[..order] == MirrorIf(reflect,
              Steps(MirrorIf(reflect, remainder[..order]), MessageBits(message, reflect), poly[..order]))
    ensures reflect ==> r == Mask(r, order)
  {
    ghost var goal := Steps(MirrorIf(reflect, remainder[..order]), MessageBits(message, reflect), poly[..order]);
    r := remainder;
    if reflect {
      r := ReflectSubByte(r, order);
    }
    assert r[..order] == MirrorIf(reflect, remainder[..order]);
    var i := 0;
    while i < |message|
      invariant 0 <= i <= |message| && |r| == 8
      invariant goal == Steps(r[..order], MessageBits(message[i..], reflect), poly[..order])
    {
      var byte := BitsOf(8, message[i]);
      ghost var next := Steps(r[..order], ReadingOrder(byte, reflect), poly[..order]);
      NextByte(r[..order], message, i, reflect, poly[..order], next);
      assert byte[..8] == byte;
      r := CrcModuloWordUpdate(order, r, byte, poly, 8, reflect);
      i := i + 1;
    }
    assert message[i..] == [];
    if reflect {
      r := ReflectSubByte(r, order);
    }
  }

  method SubByteAugmentedCrcUpdate(order: nat, poly: Word, remainder: Word, message: seq<Byte>, reflect: bool)
    returns (r: Word)
    requires 0 < order < 8 && |remainder| == |poly| == 8
    ensures |r| == 8
    ensures r[..order] == MirrorIf(reflect,
              AugSteps(MirrorIf(reflect, remainder[..order]), MessageBits(message, reflect), poly[..order]))
  {
    ghost var goal := AugSteps(MirrorIf(reflect, remainder[..order]), MessageBits(message, reflect), poly[..order]);
    r := remainder;
    if reflect {
      r := ReflectSubByte(r, order);
    }
    assert r[..order] == MirrorIf(reflect, remainder[..order]);
    var i := 0;
    while i < |message|
      invariant 0 <= i <= |message| && |r| == 8
      invariant goal == AugSteps(r[..order], MessageBits(message[i..], reflect), poly[..order])
    {
      var byte := BitsOf(8, message[i]);
      ghost var next := AugSteps(r[..order], ReadingOrder(byte, reflect), poly[..order]);
      AugNextByte(r[..order], message, i, reflect, poly[..order], next);
      assert byte[..8] == byte;
      r := AugmentedCrcModuloWordUpdate(order, r, byte, poly, 8, reflect);
      i := i + 1;
    }
    assert message[i..] == [];
    if reflect {
      r := ReflectSubByte(r, order);
    }
  }
}
