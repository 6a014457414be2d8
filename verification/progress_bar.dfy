/** The width, in percent, of the upload progress bar: the progress clamped
    into 0..100. Progress is modelled as an integer. */
module ProgressBar {

  function Width(progress: int): (r: int)
    ensures 0 <= r <= 100
    ensures 0 <= progress <= 100 ==> r == progress
    ensures progress < 0 ==> r == 0
    ensures progress > 100 ==> r == 100
  {
    var atLeastZero := if progress > 0 then progress else 0;
    if atLeastZero < 100 then atLeastZero else 100
  }

  /** Clamping twice is clamping once, and more progress never draws a
      shorter bar. */
  lemma WidthIdempotentAndMonotone(a: int, b: int)
    ensures Width(Width(a)) == Width(a)
    ensures a <= b ==> Width(a) <= Width(b)
  {
  }
}
