/** Unsigned machine words as sequences of bits.
    Bit i of a word is the coefficient of x^i; the length of the sequence is the
    width of the C++ type, so a left shift drops the bits that leave the top. */
module Bits {
  import opened Arithmetic

  type Word = seq<bool>
  type Byte = b: nat | b < 256

  function Zeros(n: nat): (z: Word)
    ensures |z| == n
  {
    seq(n, i => false)
  }

  /** The word of width `w` whose only set bit is bit `k`. */
  function OneBit(w: nat, k: nat): (o: Word)
    ensures |o| == w
  {
    seq(w, i => i == k)
  }

  function Xor(a: Word, b: Word): (x: Word)
    requires |a| == |b|
    ensures |x| == |a|
  {
    seq(|a|, i requires 0 <= i < |a| => a[i] != b[i])
  }

  function XorIf(a: Word, c: bool, b: Word): Word
    requires |a| == |b|
  {
    if c then Xor(a, b) else a
  }

  function Or(a: Word, b: Word): (o: Word)
    requires |a| == |b|
    ensures |o| == |a|
  {
    seq(|a|, i requires 0 <= i < |a| => a[i] || b[i])
  }

  function Shl(a: Word, k: nat): (s: Word)
    ensures |s| == |a|
  {
    seq(|a|, i requires 0 <= i < |a| => i >= k && a[i - k])
  }

  function Shr(a: Word, k: nat): (s: Word)
    ensures |s| == |a|
  {
    seq(|a|, i requires 0 <= i < |a| => i + k < |a| && a[i + k])
  }

  /** `a` zero-extended to width `w`. */
  function Widen(a: Word, w: nat): Word
    requires |a| <= w
  {
    a + Zeros(w - |a|)
  }

  /** `a` with every bit above the low `n` cleared. */
  function Mask(a: Word, n: nat): Word
    requires n <= |a|
  {
    Widen(a[..n], |a|)
  }

  /** All bits in reverse order. */
  function Mirror(a: Word): (m: Word)
    ensures |m| == |a|
  {
    seq(|a|, i requires 0 <= i < |a| => a[|a| - 1 - i])
  }

  function MirrorIf(c: bool, a: Word): Word {
    if c then Mirror(a) else a
  }

  /** The low `n` bits in reverse order, the others as they are. */
  function Reflect(a: Word, n: nat): Word
    requires n <= |a|
  {
    Mirror(a[..n]) + a[n..]
  }

  lemma MirrorInvolution(a: Word)
    ensures Mirror(Mirror(a)) == a
  {
  }

  lemma ReflectInvolution(a: Word, n: nat)
    requires n <= |a|
    ensures Reflect(Reflect(a, n), n) == a
  {
    assert Reflect(a, n)[..n] == Mirror(a[..n]);
    assert Reflect(a, n)[n..] == a[n..];
    MirrorInvolution(a[..n]);
  }

  lemma XorAssociative(a: Word, b: Word, c: Word)
    requires |a| == |b| == |c|
    ensures Xor(Xor(a, b), c) == Xor(a, Xor(b, c))
  {
  }

  /** Or-ing a value into the places a shift has vacated. */
  lemma OrVacated(a: Word, low: Word)
    requires |low| <= |a|
    ensures Or(Shl(a, |low|), Widen(low, |a|)) == low + a[..|a| - |low|]
  {
  }

  lemma LowOfZeros(n: nat, w: nat)
    requires n <= w
    ensures Zeros(w)[..n] == Zeros(n)
  {
  }

  lemma LowOfWidened(a: Word, w: nat)
    requires |a| <= w
    ensures Widen(a, w)[..|a|] == a
  {
  }

  lemma ReflectWidened(a: Word, w: nat)
    requires |a| <= w
    ensures Reflect(Widen(a, w), |a|) == Widen(Mirror(a), w)
  {
    assert Widen(a, w)[..|a|] == a;
  }

  // ----- words and numbers

  function Pow2(n: nat): (p: nat)
    ensures p > 0
  {
    if n == 0 then 1 else 2 * Pow2(n - 1)
  }

  /** The `w` low binary digits of `n`, lowest first. */
  function BitsOf(w: nat, n: nat): (a: Word)
    ensures |a| == w
  {
    if w == 0 then [] else [n % 2 == 1] + BitsOf(w - 1, n / 2)
  }

  function ToNat(a: Word): (n: nat)
    ensures n < Pow2(|a|)
  {
    if a == [] then 0 else (if a[0] then 1 else 0) + 2 * ToNat(a[1..])
  }

  lemma {:induction false} ToNatBitsOf(w: nat, n: nat)
    requires n < Pow2(w)
    ensures ToNat(BitsOf(w, n)) == n
  {
    if w > 0 {
      ToNatBitsOf(w - 1, n / 2);
      assert BitsOf(w, n)[1..] == BitsOf(w - 1, n / 2);
    }
  }

  lemma {:induction false} BitsOfToNat(a: Word)
    ensures BitsOf(|a|, ToNat(a)) == a
  {
    if a != [] {
      BitsOfToNat(a[1..]);
      assert ToNat(a) / 2 == ToNat(a[1..]);
    }
  }

  lemma {:induction false} ToNatWiden(a: Word, w: nat)
    requires |a| <= w
    ensures ToNat(Widen(a, w)) == ToNat(a)
    decreases w
  {
    if a != [] {
      ToNatWiden(a[1..], w - 1);
      assert Widen(a, w)[1..] == Widen(a[1..], w - 1);
    } else if w > 0 {
      ToNatWiden(a, w - 1);
      assert Widen(a, w)[1..] == Widen(a, w - 1);
    }
  }

  lemma {:induction false} BitsOfWiden(v: nat, w: nat, n: nat)
    requires v <= w && n < Pow2(v)
    ensures BitsOf(w, n) == Widen(BitsOf(v, n), w)
    decreases w
  {
    if v > 0 {
      BitsOfWiden(v - 1, w - 1, n / 2);
    } else if w > 0 {
      BitsOfWiden(0, w - 1, 0);
    }
  }

  lemma HalfAndPower(n: nat, p: nat)
    requires p > 0
    ensures n / 2 / p == n / (2 * p)
  {
    var q, r := Decompose(n / 2, p);
    DivModUnique(n / 2, p, q, r);
    DivModUnique(n, 2 * p, q, 2 * r + n % 2);
  }

  /** Bit `i` of a number is its quotient by the power of two, modulo two. */
  lemma {:induction false} BitIsDigit(w: nat, n: nat, i: nat)
    requires i < w
    ensures BitsOf(w, n)[i] <==> n / Pow2(i) % 2 == 1
    decreases i
  {
    if i > 0 {
      BitIsDigit(w - 1, n / 2, i - 1);
      HalfAndPower(n, Pow2(i - 1));
    }
  }

  /** The eight bits of a byte. */
  lemma ByteBits(b: Byte)
    ensures BitsOf(8, b) == [b % 2 == 1, b / 2 % 2 == 1, b / 4 % 2 == 1, b / 8 % 2 == 1,
                             b / 16 % 2 == 1, b / 32 % 2 == 1, b / 64 % 2 == 1, b / 128 % 2 == 1]
  {
    PowersOfTwo();
    forall i | 0 <= i < 8 ensures BitsOf(8, b)[i] <==> b / Pow2(i) % 2 == 1 {
      BitIsDigit(8, b, i);
    }
  }

  lemma PowersOfTwo()
    ensures Pow2(0) == 1 && Pow2(1) == 2 && Pow2(2) == 4 && Pow2(3) == 8 && Pow2(4) == 16
    ensures Pow2(5) == 32 && Pow2(6) == 64 && Pow2(7) == 128 && Pow2(8) == 256
  {
    assert Pow2(2) == 4 && Pow2(4) == 16 && Pow2(6) == 64;
  }

  /** The number whose bits are given. */
  lemma DigitIsBit(a: Word, i: nat)
    requires i < |a|
    ensures ToNat(a) / Pow2(i) % 2 == 1 <==> a[i]
  {
    BitsOfToNat(a);
    BitIsDigit(|a|, ToNat(a), i);
  }

  // ----- reflection as the source computes it

  /** Swaps the outermost pair of bits and moves inwards, flipping both bits of a
      pair when they differ. */
  method ReflectUnsigned(x: Word, wordLength: nat) returns (y: Word)
    requires 0 < wordLength <= |x|
    ensures y == Reflect(x, wordLength)
    ensures forall i :: 0 <= i < |x| ==> y[i] == if i < wordLength then x[wordLength - 1 - i] else x[i]
  {
    hide Reflect;
    y := x;
    var l, h := 0, wordLength - 1;
    while h > l
      invariant 0 <= l <= h + 1 && l + h == wordLength - 1 && |y| == |x|
      invariant forall i :: 0 <= i < l ==> y[i] == x[wordLength - 1 - i]
      invariant forall i :: h < i < wordLength ==> y[i] == x[wordLength - 1 - i]
      invariant forall i :: l <= i <= h || wordLength <= i < |x| ==> y[i] == x[i]
    {
      if y[h] != y[l] {
        y := y[h := !y[h]][l := !y[l]];
      }
      h, l := h - 1, l + 1;
    }
    ReflectIs(x, wordLength, y);
  }

  lemma ReflectIs(x: Word, n: nat, y: Word)
    requires n <= |x| == |y|
    requires forall i :: 0 <= i < |x| ==> y[i] == if i < n then x[n - 1 - i] else x[i]
    ensures y == Reflect(x, n)
  {
    var low, high := Mirror(x[..n]), x[n..];
    forall i | 0 <= i < |x| ensures y[i] == (low + high)[i] {
      assert i < n ==> low[i] == x[..n][n - 1 - i];
    }
    assert y == low + high;
  }

  /** The map from every byte value to its reflection. */
  method MakeByteReflectionTable() returns (table: array<Byte>)
    ensures fresh(table) && table.Length == 256
    ensures forall i :: 0 <= i < 256 ==> table[i] == ToNat(Mirror(BitsOf(8, i)))
    ensures forall i, k :: 0 <= i < 256 && 0 <= k < 8 ==> (table[i] / Pow2(k) % 2 == 1 <==> i / Pow2(7 - k) % 2 == 1)
  {
    table := new Byte[256](i => 0);
    var i := 0;
    while i < 256
      invariant 0 <= i <= 256
      invariant forall k :: 0 <= k < i ==> table[k] == ToNat(Mirror(BitsOf(8, k)))
    {
      var r := ReflectUnsigned(BitsOf(8, i), 8);
      assert r == Mirror(BitsOf(8, i));
      assert Pow2(8) == 256;
      table[i] := ToNat(r);
      i := i + 1;
    }
    forall i, k | 0 <= i < 256 && 0 <= k < 8
      ensures table[i] / Pow2(k) % 2 == 1 <==> i / Pow2(7 - k) % 2 == 1
    {
      DigitIsBit(Mirror(BitsOf(8, i)), k);
      BitIsDigit(8, i, 7 - k);
    }
  }

  method ReflectByte(x: Word) returns (y: Word)
    requires |x| == 8
    ensures y == Mirror(x)
  {
    var table := MakeByteReflectionTable();
    assert Pow2(8) == 256;
    y := BitsOf(8, table[ToNat(x)]);
    BitsOfToNat(x);
    BitsOfToNat(Mirror(x));
  }

  /** Reflects the low bits of a byte and, unlike `ReflectUnsigned`, drops the rest. */
  method ReflectSubByte(x: Word, wordLength: nat) returns (y: Word)
    requires |x| == 8 && 0 < wordLength <= 8
    ensures y == Widen(Mirror(x[..wordLength]), 8)
  {
    y := ReflectByte(x);
    y := Shr(y, 8 - wordLength);
  }

  /** Its description promises the low bits reversed and the others kept. That is what it does exactly when
      there are no others. */
  lemma SubByteAsDescribed(x: Word, wordLength: nat)
    requires |x| == 8 && 0 < wordLength <= 8
    ensures Widen(Mirror(x[..wordLength]), 8) == Reflect(x, wordLength) <==> x[wordLength..] == Zeros(8 - wordLength)
  {
    var m := Mirror(x[..wordLength]);
    assert Reflect(x, wordLength)[wordLength..] == x[wordLength..];
    assert Widen(m, 8)[wordLength..] == Zeros(8 - wordLength);
  }

  /** The byte 0x80, of which three bits are reflected, loses its highest bit. */
  lemma SubByteDropsABit()
    ensures Widen(Mirror(OneBit(8, 7)[..3]), 8) == Zeros(8) && Reflect(OneBit(8, 7), 3) == OneBit(8, 7)
  {
    assert OneBit(8, 7)[..3] == Zeros(3) && Mirror(Zeros(3)) == Zeros(3);
  }
}
