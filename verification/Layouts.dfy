/** The frame layouts and how many regions each has (chdk-src/include/bend.h:118-182,
    chdk-src/core/bend.c:656-708). */
module Layouts {
  const SEG_MAX: nat := 4
  const LAYOUTS: nat := 17

  // In the order of the BSEG_ codes.
  datatype Layout =
    | Off | HalfH | HalfV | Quad | Circle | Rings | Diag | Wedge | Bands | Bars | Checker
    | Warp | Zigzag | Truchet | LineWave | Checks | Mirror

  // An unknown code means Off.
  function FromCode(code: int): Layout {
    var all := [Off, HalfH, HalfV, Quad, Circle, Rings, Diag, Wedge, Bands, Bars, Checker,
                Warp, Zigzag, Truchet, LineWave, Checks, Mirror];
    if 0 <= code < LAYOUTS then all[code] else Off
  }

  function Count(layout: Layout): (n: nat)
    ensures 1 <= n <= SEG_MAX
  {
    match layout
    case Off => 1
    case HalfH => 2
    case HalfV => 2
    case Circle => 2
    case Rings => 3
    case Diag => 2
    case Quad => 4
    case Wedge => 4
    case Bands => 4
    case Bars => 4
    case Checker => 4
    case _ => 2
  }

  // The code a layout is stored under.
  function Code(layout: Layout): nat {
    match layout
    case Off => 0
    case HalfH => 1
    case HalfV => 2
    case Quad => 3
    case Circle => 4
    case Rings => 5
    case Diag => 6
    case Wedge => 7
    case Bands => 8
    case Bars => 9
    case Checker => 10
    case Warp => 11
    case Zigzag => 12
    case Truchet => 13
    case LineWave => 14
    case Checks => 15
    case Mirror => 16
  }

  // A layout is read back from its code, and from no other unless it is Off.
  lemma CodesAre(layout: Layout, code: int)
    ensures FromCode(Code(layout)) == layout
    ensures FromCode(code) != Off ==> code == Code(FromCode(code))
  {
  }
}
