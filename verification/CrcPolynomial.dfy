/** What the registers mean: remainders of polynomial division.
    The divisor is x^n + poly; products and dividends are coefficient lists, lowest
    power first, and quotients are listed in the order division finds their bits. */
module CrcPolynomial {
  import opened Bits
  import opened CrcDivision

  /** The coefficient of x^j in the divisor x^n + poly. */
  ghost function Divisor(poly: Word, j: nat): bool {
    if j < |poly| then poly[j] else j == |poly|
  }

  /** quotient * (x^n + poly) */
  ghost function Product(quotient: Word, poly: Word): (p: Word)
    ensures |p| == |poly| + |quotient|
  {
    if quotient == [] then Zeros(|poly|)
    else Append(Product(quotient[..|quotient| - 1], poly), quotient[|quotient| - 1], poly)
  }

  /** p * x + q * (x^n + poly) */
  ghost function Append(p: Word, q: bool, poly: Word): (a: Word)
    ensures |a| == |p| + 1
  {
    seq(|p| + 1, j requires 0 <= j <= |p| => (j > 0 && p[j - 1]) != (q && Divisor(poly, j)))
  }

  /** r is a remainder of d: it has fewer coefficients than the divisor and d - r is a multiple. */
  ghost predicate IsRemainder(d: Word, poly: Word, r: Word) {
    |r| == |poly| <= |d| &&
    exists quotient: Word :: |quotient| == |d| - |poly| && d == Xor(Product(quotient, poly), Widen(r, |d|))
  }

  /** message * x^n + init * x^(message bits): what the unaugmented algorithm divides. */
  ghost function Dividend(init: Word, message: Word): (d: Word)
    ensures |d| == |init| + |message|
  {
    var n, k := |init|, |message|;
    seq(n + k, j requires 0 <= j < n + k => (j >= n && message[n + k - 1 - j]) != (j >= k && init[j - k]))
  }

  /** message + init * x^(message bits): what the augmented algorithm divides. */
  ghost function AugDividend(init: Word, message: Word): Word {
    Mirror(message) + init
  }

  lemma AppendInjective(p1: Word, b1: bool, p2: Word, b2: bool, poly: Word)
    requires |p1| == |p2| >= |poly|
    requires forall j :: |poly| <= j <= |p1| ==> Append(p1, b1, poly)[j] == Append(p2, b2, poly)[j]
    ensures forall j :: |poly| <= j < |p1| ==> p1[j] == p2[j]
    ensures (|poly| > 0 ==> p1[|poly| - 1] == p2[|poly| - 1]) ==> b1 == b2
  {
    forall j | |poly| <= j < |p1| ensures p1[j] == p2[j] {
      assert Append(p1, b1, poly)[j + 1] == Append(p2, b2, poly)[j + 1];
    }
    assert Append(p1, b1, poly)[|poly|] == Append(p2, b2, poly)[|poly|];
  }

  lemma {:induction false} ProductInjective(q1: Word, q2: Word, poly: Word)
    requires |q1| == |q2| && |poly| > 0
    requires forall j :: |poly| <= j < |poly| + |q1| ==> Product(q1, poly)[j] == Product(q2, poly)[j]
    ensures q1 == q2
    decreases |q1|
  {
    if q1 != [] {
      var k := |q1| - 1;
      var p1, p2 := Product(q1[..k], poly), Product(q2[..k], poly);
      assert Product(q1, poly) == Append(p1, q1[k], poly) && Product(q2, poly) == Append(p2, q2[k], poly);
      AppendInjective(p1, q1[k], p2, q2[k], poly);
      ProductInjective(q1[..k], q2[..k], poly);
      assert q1 == q1[..k] + [q1[k]] && q2 == q2[..k] + [q2[k]];
    }
  }

  lemma RemainderUnique(d: Word, poly: Word, r1: Word, r2: Word)
    requires |poly| > 0 && IsRemainder(d, poly, r1) && IsRemainder(d, poly, r2)
    ensures r1 == r2
  {
    var n := |poly|;
    var q1: Word :| |q1| == |d| - n && d == Xor(Product(q1, poly), Widen(r1, |d|));
    var q2: Word :| |q2| == |d| - n && d == Xor(Product(q2, poly), Widen(r2, |d|));
    forall j | n <= j < |d| ensures Product(q1, poly)[j] == Product(q2, poly)[j] {
      assert d[j] == Product(q1, poly)[j] && d[j] == Product(q2, poly)[j];
    }
    ProductInjective(q1, q2, poly);
    forall j | 0 <= j < n ensures r1[j] == r2[j] {
      assert d[j] == (Product(q1, poly)[j] != r1[j]);
      assert d[j] == (Product(q1, poly)[j] != r2[j]);
    }
  }

  lemma DividendStep(init: Word, front: Word, b: bool, p: Word, r: Word, poly: Word)
    requires |init| == |poly| == |r| > 0 && |p| == |init| + |front|
    requires Dividend(init, front) == Xor(p, Widen(r, |p|))
    ensures Dividend(init, front + [b])
         == Xor(Append(p, r[|r| - 1] != b, poly), Widen(Step(r, b, poly), |p| + 1))
  {
    var d, d0 := Dividend(init, front + [b]), Dividend(init, front);
    var s := Step(r, b, poly);
    forall j | 0 <= j <= |p|
      ensures d[j] == (Append(p, r[|r| - 1] != b, poly)[j] != Widen(s, |p| + 1)[j])
    {
      assert d[j] == ((j > 0 && d0[j - 1]) != (b && j == |r|));
      assert j > 0 ==> d0[j - 1] == (p[j - 1] != Widen(r, |p|)[j - 1]);
      if j < |r| {
        assert s[j] == ((j > 0 && r[j - 1]) != ((r[|r| - 1] != b) && poly[j]));
      }
    }
  }

  /** The register after a message, with the quotient that proves it a remainder. */
  lemma {:induction false} StepsRemainder(init: Word, message: Word, poly: Word) returns (q: Word, r: Word)
    requires |init| == |poly| > 0
    ensures r == Steps(init, message, poly)
    ensures |q| == |message| && Dividend(init, message) == Xor(Product(q, poly), Widen(r, |init| + |message|))
    decreases |message|
  {
    if message == [] {
      q, r := [], init;
      assert Dividend(init, message) == init;
      assert Xor(Product(q, poly), Widen(r, |init|)) == init;
    } else {
      var front, b := message[..|message| - 1], message[|message| - 1];
      assert message == front + [b];
      var q0, r0 := StepsRemainder(init, front, poly);
      StepsConcat(init, front, [b], poly);
      q, r := q0 + [r0[|r0| - 1] != b], Step(r0, b, poly);
      assert q[..|q0|] == q0;
      DividendStep(init, front, b, Product(q0, poly), r0, poly);
    }
  }

  lemma AugDividendStep(init: Word, front: Word, b: bool, p: Word, r: Word, poly: Word)
    requires |init| == |poly| == |r| > 0 && |p| == |init| + |front|
    requires AugDividend(init, front) == Xor(p, Widen(r, |p|))
    ensures AugDividend(init, front + [b])
         == Xor(Append(p, r[|r| - 1], poly), Widen(AugStep(r, b, poly), |p| + 1))
  {
    var d, d0 := AugDividend(init, front + [b]), AugDividend(init, front);
    var s := AugStep(r, b, poly);
    assert d == [b] + d0;
    forall j | 0 <= j <= |p|
      ensures d[j] == (Append(p, r[|r| - 1], poly)[j] != Widen(s, |p| + 1)[j])
    {
      assert j > 0 ==> d0[j - 1] == (p[j - 1] != Widen(r, |p|)[j - 1]);
      if j < |r| {
        assert s[j] == ((if j == 0 then b else r[j - 1]) != (r[|r| - 1] && poly[j]));
      }
    }
  }

  /** The register after a message, with the quotient that proves it a remainder. */
  lemma {:induction false} AugStepsRemainder(init: Word, message: Word, poly: Word) returns (q: Word, r: Word)
    requires |init| == |poly| > 0
    ensures r == AugSteps(init, message, poly)
    ensures |q| == |message| && AugDividend(init, message) == Xor(Product(q, poly), Widen(r, |init| + |message|))
    decreases |message|
  {
    if message == [] {
      q, r := [], init;
      assert AugDividend(init, message) == init;
      assert Xor(Product(q, poly), Widen(r, |init|)) == init;
    } else {
      var front, b := message[..|message| - 1], message[|message| - 1];
      assert message == front + [b];
      var q0, r0 := AugStepsRemainder(init, front, poly);
      AugStepsConcat(init, front, [b], poly);
      q, r := q0 + [r0[|r0| - 1]], AugStep(r0, b, poly);
      assert q[..|q0|] == q0;
      AugDividendStep(init, front, b, Product(q0, poly), r0, poly);
    }
  }

  /** The unaugmented register holds exactly the remainder of message * x^n + init * x^k. */
  lemma RegisterIsTheRemainder(init: Word, message: Word, poly: Word, r: Word)
    requires |init| == |poly| > 0
    ensures IsRemainder(Dividend(init, message), poly, r) <==> r == Steps(init, message, poly)
  {
    var q, s := StepsRemainder(init, message, poly);
    if IsRemainder(Dividend(init, message), poly, r) {
      RemainderUnique(Dividend(init, message), poly, r, s);
    }
  }

  lemma AugRegisterIsTheRemainder(init: Word, message: Word, poly: Word, r: Word)
    requires |init| == |poly| > 0
    ensures IsRemainder(AugDividend(init, message), poly, r) <==> r == AugSteps(init, message, poly)
  {
    var q, s := AugStepsRemainder(init, message, poly);
    if IsRemainder(AugDividend(init, message), poly, r) {
      RemainderUnique(AugDividend(init, message), poly, r, s);
    }
  }

  // ----- augmented against unaugmented division

  lemma {:induction false} AugStepsOfZeros(n: nat, k: nat, poly: Word)
    requires n == |poly| > 0
    ensures AugSteps(Zeros(n), Zeros(k), poly) == Zeros(n)
    decreases k
  {
    if k > 0 {
      assert AugStep(Zeros(n), false, poly) == Zeros(n);
      assert Zeros(k)[1..] == Zeros(k - 1);
      AugStepsOfZeros(n, k - 1, poly);
    }
  }

  lemma {:induction false} AugStepsOfOneBit(i: nat, k: nat, poly: Word)
    requires i + k < |poly|
    ensures AugSteps(OneBit(|poly|, i), Zeros(k), poly) == OneBit(|poly|, i + k)
    decreases k
  {
    if k > 0 {
      assert AugStep(OneBit(|poly|, i), false, poly) == OneBit(|poly|, i + 1);
      assert Zeros(k)[1..] == Zeros(k - 1);
      AugStepsOfOneBit(i + 1, k - 1, poly);
    }
  }

  /** x^n leaves the remainder `poly`. */
  lemma AugStepsOfOne(poly: Word)
    requires |poly| > 0
    ensures AugSteps(OneBit(|poly|, 0), Zeros(|poly|), poly) == poly
  {
    var n := |poly|;
    AugStepsOfOneBit(0, n - 1, poly);
    assert Zeros(n) == Zeros(n - 1) + [false];
    AugStepsConcat(OneBit(n, 0), Zeros(n - 1), [false], poly);
    assert AugStep(OneBit(n, n - 1), false, poly) == poly;
  }

  lemma BitCommutes(r: Word, b: bool, z: Word, poly: Word)
    requires |r| == |poly| > 0 && [b] + z == z + [b]
    ensures AugSteps(AugStep(r, b, poly), z, poly) == AugStep(AugSteps(r, z, poly), b, poly)
  {
    AugStepsConcat(r, [b], z, poly);
    AugStepsConcat(r, z, [b], poly);
  }

  lemma AugStepSplit(r: Word, b: bool, poly: Word)
    requires |r| == |poly| > 0
    ensures AugStep(r, b, poly) == Xor(AugStep(r, false, poly), if b then OneBit(|r|, 0) else Zeros(|r|))
    ensures Step(r, b, poly) == Xor(AugStep(r, false, poly), if b then poly else Zeros(|r|))
  {
  }

  lemma AugmentCommutes(r: Word, b: bool, poly: Word)
    requires |r| == |poly| > 0
    ensures AugSteps(AugStep(r, b, poly), Zeros(|r|), poly) == Step(AugSteps(r, Zeros(|r|), poly), b, poly)
  {
    var n, z := |r|, Zeros(|r|);
    var bit := if b then OneBit(n, 0) else z;
    AugStepSplit(r, b, poly);
    AugStepSplit(AugSteps(r, z, poly), b, poly);
    assert [false] + z == z + [false];
    BitCommutes(r, false, z, poly);
    AugStepsLinear(AugStep(r, false, poly), bit, z, z, poly);
    assert Xor(z, z) == z;
    AugStepsOfZeros(n, n, poly);
    AugStepsOfOne(poly);
  }

  /** Augmenting a message with n zero bits is the same as the unaugmented algorithm
      started from the converted initial remainder. */
  lemma {:induction false} AugmentedMessage(init: Word, message: Word, poly: Word)
    requires |init| == |poly| > 0
    ensures AugSteps(init, message + Zeros(|init|), poly)
         == Steps(AugSteps(init, Zeros(|init|), poly), message, poly)
    decreases |message|
  {
    var z := Zeros(|init|);
    if message == [] {
      assert message + z == z;
    } else {
      assert (message + z)[1..] == message[1..] + z;
      AugmentedMessage(AugStep(init, message[0], poly), message[1..], poly);
      AugmentCommutes(init, message[0], poly);
    }
  }

  /** With a zero initial remainder the two algorithms give the same checksum. */
  lemma AugmentedFromZero(message: Word, poly: Word)
    requires |poly| > 0
    ensures AugSteps(Zeros(|poly|), message + Zeros(|poly|), poly) == Steps(Zeros(|poly|), message, poly)
  {
    AugmentedMessage(Zeros(|poly|), message, poly);
    AugStepsOfZeros(|poly|, |poly|, poly);
  }

  lemma {:induction false} AugStepsFillRegister(w: Word, poly: Word)
    requires |w| <= |poly| && |poly| > 0
    ensures AugSteps(Zeros(|poly|), w, poly) == Widen(Mirror(w), |poly|)
    decreases |w|
  {
    var n, k := |poly|, |w|;
    if k == 0 {
      assert Widen(Mirror(w), n) == Zeros(n);
    } else {
      assert w == w[..k - 1] + [w[k - 1]];
      AugStepsConcat(Zeros(n), w[..k - 1], [w[k - 1]], poly);
      AugStepsFillRegister(w[..k - 1], poly);
      var r := Widen(Mirror(w[..k - 1]), n);
      assert !r[n - 1];
      assert ShiftIn(r, w[k - 1]) == Widen(Mirror(w), n);
    }
  }

  lemma XorIsZero(a: Word, b: Word)
    requires |a| == |b|
    ensures Xor(a, b) == Zeros(|a|) <==> a == b
  {
    if Xor(a, b) == Zeros(|a|) {
      forall i | 0 <= i < |a| ensures a[i] == b[i] {
        assert !Xor(a, b)[i];
      }
    }
  }

  lemma AugStepsSuperpose(r: Word, z: Word, w: Word, poly: Word)
    requires |r| == |poly| == |z| == |w| > 0 && z == Zeros(|poly|)
    ensures AugSteps(r, w, poly) == Xor(AugSteps(r, z, poly), AugSteps(z, w, poly))
  {
    AugStepsLinear(r, z, z, w, poly);
    assert Xor(r, z) == r;
    assert Xor(z, w) == w;
  }

  /** The receiver's test: a message followed by a candidate checksum, highest bit first,
      leaves remainder zero exactly when the candidate is the message's checksum. */
  lemma CheckByAppending(init: Word, message: Word, candidate: Word, poly: Word)
    requires |init| == |candidate| == |poly| > 0
    ensures AugSteps(init, message + Mirror(candidate), poly) == Zeros(|poly|)
       <==> candidate == AugSteps(init, message + Zeros(|poly|), poly)
  {
    var z, tail := Zeros(|poly|), Mirror(candidate);
    var r := AugSteps(init, message, poly);
    AugStepsConcat(init, message, tail, poly);
    AugStepsConcat(init, message, z, poly);
    AugStepsSuperpose(r, z, tail, poly);
    AugStepsFillRegister(tail, poly);
    MirrorInvolution(candidate);
    assert Widen(candidate, |poly|) == candidate;
    XorIsZero(AugSteps(r, z, poly), candidate);
  }
}
