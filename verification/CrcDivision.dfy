/** Division of polynomials over the two-element field, one dividend bit at a time.
    Registers here have exactly as many bits as the order of the divisor;
    dividends are listed in reading order, the highest power first. */
module CrcDivision {
  import opened Bits

  /** One step of the unaugmented ("altered") division. */
  function Step(r: Word, b: bool, poly: Word): (s: Word)
    requires |r| == |poly| > 0
    ensures |s| == |r|
  {
    XorIf(Shl(r, 1), r[|r| - 1] != b, poly)
  }

  function Steps(r: Word, bits: Word, poly: Word): (s: Word)
    requires |r| == |poly| > 0
    ensures |s| == |r|
    decreases |bits|
  {
    if bits == [] then r else Steps(Step(r, bits[0], poly), bits[1..], poly)
  }

  /** `r * x + b` cut to the width of `r`. */
  function ShiftIn(r: Word, b: bool): Word
    requires |r| > 0
  {
    [b] + r[..|r| - 1]
  }

  /** One step of the augmented (schoolbook) division. */
  function AugStep(r: Word, b: bool, poly: Word): (s: Word)
    requires |r| == |poly| > 0
    ensures |s| == |r|
  {
    XorIf(ShiftIn(r, b), r[|r| - 1], poly)
  }

  function AugSteps(r: Word, bits: Word, poly: Word): (s: Word)
    requires |r| == |poly| > 0
    ensures |s| == |r|
    decreases |bits|
  {
    if bits == [] then r else AugSteps(AugStep(r, bits[0], poly), bits[1..], poly)
  }

  // ----- concatenation of dividends

  lemma {:induction false} StepsConcat(r: Word, a: Word, b: Word, poly: Word)
    requires |r| == |poly| > 0
    ensures Steps(r, a + b, poly) == Steps(Steps(r, a, poly), b, poly)
    decreases |a|
  {
    if a == [] {
      assert a + b == b;
    } else {
      assert (a + b)[1..] == a[1..] + b;
      StepsConcat(Step(r, a[0], poly), a[1..], b, poly);
    }
  }

  lemma {:induction false} AugStepsConcat(r: Word, a: Word, b: Word, poly: Word)
    requires |r| == |poly| > 0
    ensures AugSteps(r, a + b, poly) == AugSteps(AugSteps(r, a, poly), b, poly)
    decreases |a|
  {
    if a == [] {
      assert a + b == b;
    } else {
      assert (a + b)[1..] == a[1..] + b;
      AugStepsConcat(AugStep(r, a[0], poly), a[1..], b, poly);
    }
  }

  // ----- linearity

  /** Division distributes over exclusive-or of register and dividend together. */
  lemma {:induction false} StepsLinear(r: Word, s: Word, a: Word, b: Word, poly: Word)
    requires |r| == |s| == |poly| > 0 && |a| == |b|
    ensures Steps(Xor(r, s), Xor(a, b), poly) == Xor(Steps(r, a, poly), Steps(s, b, poly))
    decreases |a|
  {
    if a != [] {
      assert Step(Xor(r, s), a[0] != b[0], poly) == Xor(Step(r, a[0], poly), Step(s, b[0], poly));
      assert Xor(a, b)[1..] == Xor(a[1..], b[1..]);
      StepsLinear(Step(r, a[0], poly), Step(s, b[0], poly), a[1..], b[1..], poly);
    }
  }

  lemma {:induction false} AugStepsLinear(r: Word, s: Word, a: Word, b: Word, poly: Word)
    requires |r| == |s| == |poly| > 0 && |a| == |b|
    ensures AugSteps(Xor(r, s), Xor(a, b), poly) == Xor(AugSteps(r, a, poly), AugSteps(s, b, poly))
    decreases |a|
  {
    if a != [] {
      assert AugStep(Xor(r, s), a[0] != b[0], poly) == Xor(AugStep(r, a[0], poly), AugStep(s, b[0], poly));
      assert Xor(a, b)[1..] == Xor(a[1..], b[1..]);
      AugStepsLinear(AugStep(r, a[0], poly), AugStep(s, b[0], poly), a[1..], b[1..], poly);
    }
  }

  // ----- several bits at once

  /** The `k` leading bits of a register, highest first. */
  function Top(r: Word, k: nat): (t: Word)
    requires k <= |r|
    ensures |t| == k
  {
    seq(k, i requires 0 <= i < k => r[|r| - 1 - i])
  }

  lemma ShlCompose(r: Word, z: Word, k: nat)
    requires |r| == |z| && k > 0
    ensures Shl(Xor(Shl(r, 1), z), k - 1) == Xor(Shl(r, k), Shl(z, k - 1))
  {
  }

  lemma TopOfStep(r: Word, z: Word, b: Word, c: Word)
    requires 0 < |b| <= |r| == |z|
    requires c == Xor(Top(r, |b|), b)
    ensures Xor(Top(Xor(Shl(r, 1), z), |b| - 1), b[1..]) == Xor(Top(z, |b| - 1), c[1..])
  {
  }

  /** What a table look-up relies on: the effect of `k` bits on a register is a plain
      shift, corrected by the effect of "leading bits xor dividend" on a zero register. */
  lemma {:induction false} StepsByTable(r: Word, b: Word, poly: Word)
    requires |r| == |poly| > 0 && |b| <= |r|
    ensures Steps(r, b, poly) == Xor(Shl(r, |b|), Steps(Zeros(|r|), Xor(Top(r, |b|), b), poly))
    decreases |b|
  {
    var n, k := |r|, |b|;
    if b == [] {
      assert Shl(r, 0) == r == Xor(r, Zeros(n));
    } else {
      var c := Xor(Top(r, k), b);
      var q := c[0];
      var r1, z1 := Step(r, b[0], poly), Step(Zeros(n), q, poly);
      assert r1 == Xor(Shl(r, 1), z1) by {
        assert Shl(Zeros(n), 1) == Zeros(n);
      }
      var u := Steps(Zeros(n), Xor(Top(z1, k - 1), c[1..]), poly);
      StepsByTable(r1, b[1..], poly);
      TopOfStep(r, z1, b, c);
      StepsByTable(z1, c[1..], poly);
      ShiftsMerge(r, r1, z1, u, k, Steps(r1, b[1..], poly), Steps(z1, c[1..], poly));
    }
  }

  /** Shifting by one, then by the rest. */
  lemma ShiftsMerge(r: Word, r1: Word, z: Word, u: Word, k: nat, result: Word, entry: Word)
    requires |r| == |r1| == |z| == |u| && 0 < k && r1 == Xor(Shl(r, 1), z)
    requires result == Xor(Shl(r1, k - 1), u) && entry == Xor(Shl(z, k - 1), u)
    ensures result == Xor(Shl(r, k), entry)
  {
    ShlCompose(r, z, k);
    XorAssociative(Shl(r, k), Shl(z, k - 1), u);
  }

  lemma ShiftInCompose(r: Word, z: Word, b: Word)
    requires 0 < |b| <= |r| == |z|
    ensures Mirror(b[1..]) + Xor(ShiftIn(r, b[0]), z)[..|r| - (|b| - 1)]
         == Xor(Mirror(b) + r[..|r| - |b|], Shl(z, |b| - 1))
  {
  }

  lemma TopOfAugStep(r: Word, z: Word, b: Word)
    requires 0 < |b| <= |r| == |z|
    ensures Top(Xor(ShiftIn(r, b[0]), z), |b| - 1) == Xor(Top(z, |b| - 1), Top(r, |b|)[1..])
  {
  }

  /** The same for the augmented division: the table entry is selected by the leading
      bits alone, and the dividend takes the places the shift vacates. */
  lemma {:induction false} AugStepsByTable(r: Word, b: Word, poly: Word)
    requires |r| == |poly| > 0 && |b| <= |r|
    ensures AugSteps(r, b, poly)
         == Xor(Mirror(b) + r[..|r| - |b|], Steps(Zeros(|r|), Top(r, |b|), poly))
    decreases |b|
  {
    var n, k := |r|, |b|;
    if b == [] {
      assert Mirror(b) + r[..n] == r == Xor(r, Zeros(n));
    } else {
      var c := Top(r, k);
      var r1, z1 := AugStep(r, b[0], poly), Step(Zeros(n), c[0], poly);
      assert r1 == Xor(ShiftIn(r, b[0]), z1) by {
        assert Shl(Zeros(n), 1) == Zeros(n);
      }
      var lead, carry := Mirror(b) + r[..n - k], Shl(z1, k - 1);
      var u := Steps(Zeros(n), Top(r1, k - 1), poly);
      calc {
        AugSteps(r, b, poly);
        AugSteps(r1, b[1..], poly);
        { AugStepsByTable(r1, b[1..], poly); }
        Xor(Mirror(b[1..]) + r1[..n - (k - 1)], u);
        { ShiftInCompose(r, z1, b); }
        Xor(Xor(lead, carry), u);
        { XorAssociative(lead, carry, u); }
        Xor(lead, Xor(carry, u));
        { TopOfAugStep(r, z1, b); StepsByTable(z1, c[1..], poly); }
        Xor(lead, Steps(z1, c[1..], poly));
        Xor(lead, Steps(Zeros(n), c, poly));
      }
    }
  }
}
