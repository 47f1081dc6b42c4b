/** The stable frame handle `camera:epoch:sequence` (`frame_ref_for`, app/vision/ledger.py). */
module FrameRefs {
  import opened Decimals
  import opened Text

  function FrameRef(cameraId: string, epoch: int, sequence: int): string {
    cameraId + ":" + Decimal(epoch) + ":" + Decimal(sequence)
  }

  lemma ColonInside(a: string, x: string, b: string, y: string)
    requires a + ":" + x == b + ":" + y && |a| < |b|
    ensures ':' in x
  {
    var s := a + ":" + x;
    assert s[|b|] == ':' && s[|b|] == x[|b| - |a| - 1];
  }

  /** The last colon is where the last field starts. */
  lemma LastColonSplits(a: string, x: string, b: string, y: string)
    requires a + ":" + x == b + ":" + y && ':' !in x && ':' !in y
    ensures a == b && x == y
  {
    var s := a + ":" + x;
    if |a| < |b| {
      ColonInside(a, x, b, y);
      assert false;
    } else if |b| < |a| {
      ColonInside(b, y, a, x);
      assert false;
    }
    assert a == s[..|a|] && b == s[..|a|];
    assert x == s[|a| + 1..] && y == s[|a| + 1..];
  }

  /** A frame ref names one frame of one camera, even when camera ids contain colons. */
  lemma FrameRefIsInjective(c1: string, e1: int, s1: int, c2: string, e2: int, s2: int)
    requires FrameRef(c1, e1, s1) == FrameRef(c2, e2, s2)
    ensures c1 == c2 && e1 == e2 && s1 == s2
  {
    DecimalHasNoColon(e1);
    DecimalHasNoColon(e2);
    DecimalHasNoColon(s1);
    DecimalHasNoColon(s2);
    LastColonSplits(c1 + ":" + Decimal(e1), Decimal(s1), c2 + ":" + Decimal(e2), Decimal(s2));
    LastColonSplits(c1, Decimal(e1), c2, Decimal(e2));
    DecimalIsInjective(e1, e2);
    DecimalIsInjective(s1, s2);
  }

  /** A frame ref is the camera, the epoch and the sequence, in that order, between colons. */
  lemma FrameRefReads(cameraId: string, epoch: int, sequence: int)
    ensures SplitOn(FrameRef(cameraId, epoch, sequence), ':')
         == SplitOn(cameraId, ':') + [Decimal(epoch)] + [Decimal(sequence)]
  {
    DecimalHasNoColon(epoch);
    DecimalHasNoColon(sequence);
    var front := cameraId + [':'] + Decimal(epoch);
    assert FrameRef(cameraId, epoch, sequence) == front + [':'] + Decimal(sequence);
    SplitAtSeparator(front, Decimal(sequence), ':');
    SplitAtSeparator(cameraId, Decimal(epoch), ':');
    OnePiece(Decimal(epoch), ':');
    OnePiece(Decimal(sequence), ':');
  }
}
