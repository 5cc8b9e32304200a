/** The `isSkippedDuringHitTest` extension on views: the views UIKit's
    hit testing ignores. */
module HitTest {

  /** The three view properties the predicate reads. `alpha` is a real. */
  datatype View = View(isHidden: bool, isUserInteractionEnabled: bool, alpha: real)

  /** The threshold below which hit testing treats a view as transparent. */
  const AlphaThreshold: real := 0.01

  /** A view is skipped when it is hidden, when it ignores user interaction,
      or when it is (nearly) transparent; it is hit exactly when it is
      visible, interactive and more opaque than the threshold. */
  function IsSkippedDuringHitTest(v: View): (skipped: bool)
    ensures v.isHidden ==> skipped
    ensures !v.isUserInteractionEnabled ==> skipped
    ensures v.alpha <= AlphaThreshold ==> skipped
    ensures !skipped <==> !v.isHidden && v.isUserInteractionEnabled && v.alpha > AlphaThreshold
  {
    if !v.isHidden && v.isUserInteractionEnabled && v.alpha > AlphaThreshold then false else true
  }
}
