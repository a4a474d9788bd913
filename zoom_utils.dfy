/**
 * `ZoomUtils.zoomOut`: one zoom-out step divides the zoom by the square of
 * the step factor, unless that would go below the smallest zoom allowed, in
 * which case the zoom stays as it is.
 */
module ZoomUtils {
  /** The smallest zoom a zoom-out step may reach. */
  const MaxZoom: real := 0.1

  /**
   * `zoomOut`; `Math.pow(f, 2)` is the exact square here. A zoom that
   * changes lands at or above `MaxZoom`, so a zoom that starts there stays
   * there.
   */
  function ZoomOut(currentZoom: real, zoomStepFactor: real): (r: real)
    requires zoomStepFactor != 0.0
    ensures r == currentZoom || (r == currentZoom / (zoomStepFactor * zoomStepFactor) && r >= MaxZoom)
    ensures currentZoom / (zoomStepFactor * zoomStepFactor) >= MaxZoom ==> r == currentZoom / (zoomStepFactor * zoomStepFactor)
    ensures currentZoom / (zoomStepFactor * zoomStepFactor) < MaxZoom ==> r == currentZoom
    ensures currentZoom >= MaxZoom ==> r >= MaxZoom
  {
    var newZoom := currentZoom / (zoomStepFactor * zoomStepFactor);
    if newZoom < MaxZoom then currentZoom else newZoom
  }

  /** A step factor of ±1 changes nothing. */
  lemma ZoomOutUnitFactor(currentZoom: real, zoomStepFactor: real)
    requires zoomStepFactor * zoomStepFactor == 1.0
    ensures ZoomOut(currentZoom, zoomStepFactor) == currentZoom
  {
  }

  /** With a factor of size at least 1, a positive zoom never grows: the step only zooms out. */
  lemma ZoomOutNeverZoomsIn(currentZoom: real, zoomStepFactor: real)
    requires currentZoom >= 0.0 && zoomStepFactor * zoomStepFactor >= 1.0
    ensures ZoomOut(currentZoom, zoomStepFactor) <= currentZoom
  {
    var q := zoomStepFactor * zoomStepFactor;
    var c := currentZoom / q;
    assert c * q == currentZoom;
    if c > currentZoom {
      assert c * q >= c * 1.0;
    }
  }
}
