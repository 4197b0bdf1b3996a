/** components/ui/Badge.tsx: the colour band of the score badge. */
module Badge {

  datatype Band = Green | Yellow | Red

  const GreenStyle := "bg-green-800/50 text-green-300 border-green-500/50"
  const YellowStyle := "bg-yellow-800/50 text-yellow-300 border-yellow-500/50"
  const RedStyle := "bg-red-800/50 text-red-300 border-red-500/50"

  /** The if-chain of getBadgeStyles, as a band. */
  function BandOf(score: int): (b: Band)
    ensures b == Green <==> score >= 80
    ensures b == Yellow <==> 50 <= score < 80
    ensures b == Red <==> score < 50
  {
    if score >= 80 then Green
    else if score >= 50 then Yellow
    else Red
  }

  function Rank(b: Band): nat {
    match b
    case Red => 0
    case Yellow => 1
    case Green => 2
  }

  /** getBadgeStyles: the CSS classes of the band. */
  function GetBadgeStyles(score: int): (style: string)
    ensures style == GreenStyle <==> score >= 80
    ensures style == YellowStyle <==> 50 <= score < 80
    ensures style == RedStyle <==> score < 50
  {
    match BandOf(score)
    case Green => GreenStyle
    case Yellow => YellowStyle
    case Red => RedStyle
  }

  /** A higher score never gets a lower band. */
  lemma BandMonotone(lo: int, hi: int)
    requires lo <= hi
    ensures Rank(BandOf(lo)) <= Rank(BandOf(hi))
  {
  }
}
