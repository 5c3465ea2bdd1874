/** Close prices taken from a page of candles. The candle feed lists the newest
    candle first; each row is (time, low, high, open, close, volume), so the
    close is the field at position 4. */
module PriceHistory {

  datatype Candle = Candle(time: int, low: real, high: real, open: real, close: real, volume: real)

  /** The closes of `rows`, last row first. */
  function ReversedCloses(rows: seq<Candle>): (r: seq<real>)
    ensures |r| == |rows|
    ensures forall i :: 0 <= i < |r| ==> r[i] == rows[|rows| - 1 - i].close
  {
    if |rows| == 0 then []
    else ReversedCloses(rows[1..]) + [rows[0].close]
  }

  /** The first `numSamples` rows (all of them when there are fewer), in reverse
      order, projected on their close: the window ends with the newest close. */
  function RecentCloses(rows: seq<Candle>, numSamples: nat): (r: seq<real>)
    ensures |r| == if numSamples < |rows| then numSamples else |rows|
    ensures forall i :: 0 <= i < |r| ==> r[i] == rows[|r| - 1 - i].close
    ensures |r| > 0 ==> r[|r| - 1] == rows[0].close
  {
    var n := if numSamples < |rows| then numSamples else |rows|;
    ReversedCloses(rows[..n])
  }
}
