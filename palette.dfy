/**
 * The colours the views choose between, and the four health bands that
 * every score colouring in the app switches on.
 */
module Palette {

  datatype Color = Green | Mint | Blue | Yellow | Orange | Red | Pink | Gray | White | DimWhite

  /** The four score ranges of the `switch` statements on a health score. */
  datatype Band = Excellent | Good | Degraded | Critical

  /** `80...100`, `60...79`, `40...59`, and the `default` branch. */
  function BandOf(score: int): (b: Band)
    ensures b == Excellent <==> 80 <= score <= 100
    ensures b == Good <==> 60 <= score <= 79
    ensures b == Degraded <==> 40 <= score <= 59
    ensures b == Critical <==> score < 40 || score > 100
  {
    if 80 <= score <= 100 then Excellent
    else if 60 <= score <= 79 then Good
    else if 40 <= score <= 59 then Degraded
    else Critical
  }
}
