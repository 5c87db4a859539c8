/** The reflected tables and updates against the direct ones, and tables by augmented division. */
module CrcMirror {
  import opened Bits
  import opened CrcDivision
  import opened CrcPolynomial
  import opened CrcDrivers
  import opened CrcComputers

  /** Dividing the augmented index gives the masks that the table is built of without augmenting. */
  lemma TableByAugmentedDivision(subOrder: nat, poly: Word, reflect: bool, i: nat, entry: Word)
    requires |poly| > 0 && entry == TableEntry(subOrder, poly, reflect, i)
    ensures entry == MirrorIf(reflect,
              AugSteps(Zeros(|poly|), ReadingOrder(BitsOf(subOrder, i), reflect) + Zeros(|poly|), poly))
  {
    AugmentedFromZero(ReadingOrder(BitsOf(subOrder, i), reflect), poly);
  }

  /** The reflected table holds the mirror images, at the mirrored indices. */
  lemma TablesMirrored(direct: seq<Word>, reflected: seq<Word>, subOrder: nat, width: nat, poly: Word, i: nat)
    requires IsTable(direct, subOrder, width, poly, false) && IsTable(reflected, subOrder, width, poly, true)
    requires i < Pow2(subOrder)
    ensures var slot := Slot(subOrder, true, i);
            |direct[i]| == width && reflected[slot] == Widen(Mirror(direct[i][..|poly|]), width)
  {
    SlotBits(subOrder, true, i);
    MirrorInvolution(BitsOf(subOrder, i));
    var entry := TableEntry(subOrder, poly, false, i);
    LowOfWidened(entry, width);
    assert TableEntry(subOrder, poly, true, Slot(subOrder, true, i)) == Mirror(entry);
  }

  /** The direct update divides the message, and on a mirrored register and mirrored bytes the reflected one
      computes the mirror image of the same division. */
  method RunBothOrientations(order: nat, poly: Word, remainder: Word, message: seq<Byte>, mirrored: seq<Byte>)
    returns (direct: Word, reflected: Word)
    requires 8 <= order <= |remainder| == |poly| && |mirrored| == |message|
    requires forall i :: 0 <= i < |message| ==> BitsOf(8, mirrored[i]) == Mirror(BitsOf(8, message[i]))
    ensures |direct| == |poly|
    ensures direct[..order] == Steps(remainder[..order], MessageBits(message, false), poly[..order])
    ensures reflected == Widen(Mirror(direct[..order]), |poly|)
  {
    hide Steps, MessageBits;
    var start := Widen(Mirror(remainder[..order]), |poly|);
    LowOfWidened(Mirror(remainder[..order]), |poly|);
    MirrorInvolution(remainder[..order]);
    direct := DirectCrcUpdate(order, poly, remainder, message);
    reflected := ReflectedCrcUpdate(order, poly, start, mirrored);
    MirrorTwice(message, mirrored);
    CleanWideSteps(remainder[..order], start[order..], mirrored, poly[..order]);
    ReflectedInputIsMirroredBytes(mirrored, message);
  }

  lemma MirrorTwice(message: seq<Byte>, mirrored: seq<Byte>)
    requires |mirrored| == |message|
    requires forall i :: 0 <= i < |message| ==> BitsOf(8, mirrored[i]) == Mirror(BitsOf(8, message[i]))
    ensures forall i :: 0 <= i < |message| ==> BitsOf(8, message[i]) == Mirror(BitsOf(8, mirrored[i]))
  {
    forall i | 0 <= i < |message| ensures BitsOf(8, message[i]) == Mirror(BitsOf(8, mirrored[i])) {
      MirrorInvolution(BitsOf(8, message[i]));
    }
  }
}
