/**
 * Loop control of `compress_png_to_pdf_under_size` (the same code in
 * Not_JoAps.py and Not_JoAps-WD.py): the scale schedule, the size requested
 * for each attempt and the rule that accepts an attempt.  Decoding, resizing,
 * JPEG and PDF encoding and the file moves are outside the model: the byte
 * size of the PDF written for a requested size is an oracle, and the scale is
 * an exact real.
 */
module Compression {

  const MinWidth: nat := 800
  const MaxAttempts: nat := 7
  const ShrinkFactor: real := 0.8
  const ScaleFloor: real := 0.4

  function Max(a: int, b: int): int { if a < b then b else a }

  /** The scale of attempt `k` (counting from 0): 1.0 multiplied `k` times by 0.8. */
  function Scale(k: nat): (s: real)
    ensures 0.0 < s <= 1.0
  {
    if k == 0 then 1.0 else Scale(k - 1) * ShrinkFactor
  }

  /** Python's `int(n * scale)` for a non-negative scale: truncation, which is the floor. */
  function ScaledSize(n: nat, scale: real): nat
    requires scale >= 0.0
  {
    ProductNonNegative(n as real, scale);
    (n as real * scale).Floor
  }

  // Helper for ScaledSize: the scaled dimension is never negative.
  lemma ProductNonNegative(a: real, b: real)
    requires a >= 0.0 && b >= 0.0
    ensures a * b >= 0.0
  {
  }

  /** The width asked of the resize: the scaled width, never below 800 pixels. */
  function TargetWidth(width: nat, scale: real): (w: nat)
    requires scale >= 0.0
    ensures w >= MinWidth
    ensures ScaledSize(width, scale) >= MinWidth ==> w == ScaledSize(width, scale)
    ensures ScaledSize(width, scale) < MinWidth ==> w == MinWidth
  {
    Max(MinWidth, ScaledSize(width, scale))
  }

  /** The height asked of the resize: the scaled height, not clamped. */
  function TargetHeight(height: nat, scale: real): nat
    requires scale >= 0.0
  {
    ScaledSize(height, scale)
  }

  /** The byte size of the PDF that attempt `k` writes, as the oracle `pdfSize` reports it. */
  function AttemptSize(width: nat, height: nat, k: nat, pdfSize: (nat, nat) -> nat): nat {
    pdfSize(TargetWidth(width, Scale(k)), TargetHeight(height, Scale(k)))
  }

  /** Attempt `k` is kept when its PDF fits the budget or its scale has reached the floor 0.4. */
  predicate AcceptedAt(width: nat, height: nat, maxBytes: int, pdfSize: (nat, nat) -> nat, k: nat) {
    AttemptSize(width, height, k, pdfSize) <= maxBytes || Scale(k) <= ScaleFloor
  }

  /**
   * The loop: up to seven attempts, each asking for the current scale, keeping
   * the first attempt that is accepted and otherwise shrinking the scale by 0.8.
   * The result is always `pdfPath`; the out-parameters expose which attempt was
   * kept and what it asked for.
   */
  method CompressUnderSize(pdfPath: string, width: nat, height: nat, maxBytes: int, pdfSize: (nat, nat) -> nat)
    returns (result: string, attempt: nat, targetW: nat, targetH: nat, size: nat)
    ensures result == pdfPath
    ensures attempt < 6
    ensures AcceptedAt(width, height, maxBytes, pdfSize, attempt)
    ensures forall j :: 0 <= j < attempt ==> !AcceptedAt(width, height, maxBytes, pdfSize, j)
    ensures targetW == TargetWidth(width, Scale(attempt)) && targetH == TargetHeight(height, Scale(attempt))
    ensures size == pdfSize(targetW, targetH)
  {
    var scale := 1.0;
    var k := 0;
    while k < MaxAttempts
      invariant 0 <= k <= 5
      invariant scale == Scale(k)
      invariant forall j :: 0 <= j < k ==> !AcceptedAt(width, height, maxBytes, pdfSize, j)
    {
      targetW := TargetWidth(width, scale);
      targetH := TargetHeight(height, scale);
      size := pdfSize(targetW, targetH);
      if size <= maxBytes || scale <= ScaleFloor {
        return pdfPath, k, targetW, targetH, size;
      }
      FifthAndSixthScales();
      scale := scale * ShrinkFactor;
      k := k + 1;
    }
    // The source falls back to the last attempt here; with exact arithmetic
    // the sixth attempt (scale 0.32768) is always accepted first.
    assert false;
    result := pdfPath;
  }

  /** The schedule strictly decreases. */
  lemma {:induction false} ScaleDecreasing(j: nat, k: nat)
    requires j < k
    ensures Scale(k) < Scale(j)
    decreases k
  {
    if j < k - 1 {
      ScaleDecreasing(j, k - 1);
    }
  }

  lemma FifthAndSixthScales()
    ensures Scale(4) == 0.4096 && Scale(5) == 0.32768
  {
    assert Scale(1) == 0.8;
    assert Scale(2) == 0.64;
    assert Scale(3) == 0.512;
  }

  /** The sixth attempt (k = 5) is accepted whatever its size, so at most six attempts run. */
  lemma SixthAttemptAccepted(width: nat, height: nat, maxBytes: int, pdfSize: (nat, nat) -> nat)
    ensures AcceptedAt(width, height, maxBytes, pdfSize, 5)
  {
    FifthAndSixthScales();
  }

  /**
   * When no encoding fits the budget, the first five attempts are all rejected
   * and the sixth is kept: six attempts can be needed, and it is then the
   * floor rule, not the budget, that stops the loop.
   */
  lemma OverBudgetKeepsSixth(width: nat, height: nat, maxBytes: int, pdfSize: (nat, nat) -> nat)
    requires forall w: nat, h: nat :: pdfSize(w, h) > maxBytes
    ensures forall j :: 0 <= j < 5 ==> !AcceptedAt(width, height, maxBytes, pdfSize, j)
    ensures AcceptedAt(width, height, maxBytes, pdfSize, 5)
  {
    FifthAndSixthScales();
    forall j | 0 <= j < 5 ensures Scale(j) > ScaleFloor {
      if j < 4 {
        ScaleDecreasing(j, 4);
      }
    }
  }

  /** A kept attempt above the floor respects the byte budget. */
  lemma KeptAboveFloorFits(width: nat, height: nat, maxBytes: int, pdfSize: (nat, nat) -> nat, k: nat)
    requires AcceptedAt(width, height, maxBytes, pdfSize, k)
    requires k < 5
    ensures AttemptSize(width, height, k, pdfSize) <= maxBytes
  {
    FifthAndSixthScales();
    if k < 4 {
      ScaleDecreasing(k, 4);
    }
  }
}
