/** Open positions of one market and their split by side. */
module Positions {

  /** The `side` field the exchange reports. `Long` stands for the label "LONG"
      and `Short` for "SHORT"; `OtherSide` carries any other label, so its name
      is never "LONG" or "SHORT". */
  datatype PositionSide = Long | Short | OtherSide(name: string)

  datatype Position = Position(side: PositionSide, entryPrice: real, sumOpen: real)

  datatype PositionSplit = PositionSplit(long: seq<Position>, short: seq<Position>)

  /** The positions on `side`, in their original order. Every position kept has
      that side, and each position of that side is kept as many times as it
      occurs. */
  function Select(ps: seq<Position>, side: PositionSide): (r: seq<Position>)
    ensures |r| <= |ps|
    ensures forall i :: 0 <= i < |r| ==> r[i].side == side
    ensures forall p: Position :: p.side == side ==> multiset(r)[p] == multiset(ps)[p]
  {
    if |ps| == 0 then []
    else
      assert ps == [ps[0]] + ps[1..];
      (if ps[0].side == side then [ps[0]] else []) + Select(ps[1..], side)
  }

  /** Selection distributes over concatenation, so it keeps the relative order of
      the positions it retains. */
  lemma {:induction false} SelectConcat(a: seq<Position>, b: seq<Position>, side: PositionSide)
    ensures Select(a + b, side) == Select(a, side) + Select(b, side)
  {
    if |a| == 0 {
      assert a + b == b;
    } else {
      assert (a + b)[1..] == a[1..] + b;
      SelectConcat(a[1..], b, side);
    }
  }

  /** The `long` and `short` lists built from the open positions. */
  function SplitPositions(ps: seq<Position>): (s: PositionSplit)
    ensures forall i :: 0 <= i < |s.long| ==> s.long[i].side == Long
    ensures forall i :: 0 <= i < |s.short| ==> s.short[i].side == Short
    ensures forall p: Position :: p.side == Long ==> multiset(s.long)[p] == multiset(ps)[p]
    ensures forall p: Position :: p.side == Short ==> multiset(s.short)[p] == multiset(ps)[p]
    ensures forall p: Position :: p.side.OtherSide? ==> p !in s.long && p !in s.short
    ensures |s.long| + |s.short| <= |ps|
  {
    var s := PositionSplit(Select(ps, Long), Select(ps, Short));
    SplitCounts(ps);
    s
  }

  /** No position lands in both lists, so together they are no longer than the input. */
  lemma {:induction false} SplitCounts(ps: seq<Position>)
    ensures |Select(ps, Long)| + |Select(ps, Short)| <= |ps|
  {
    if |ps| > 0 {
      SplitCounts(ps[1..]);
    }
  }
}
