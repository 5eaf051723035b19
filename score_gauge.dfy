/** components/ScoreGauge.tsx: the colour a score gauge is drawn in. */
module ScoreGauge {
  import opened Types

  datatype Band = Good | Average | Poor

  const GoodColor := "#10b981"
  const AverageColor := "#f59e0b"
  const PoorColor := "#ef4444"

  /** Scores of 90 and above are good, from 50 below 90 average, the rest poor. */
  function BandOf(score: real): Band
  {
    if score >= 90.0 then Good else if score >= 50.0 then Average else Poor
  }

  function BandColor(b: Band): string
  {
    match b
    case Good => GoodColor
    case Average => AverageColor
    case Poor => PoorColor
  }

  /** `finalColor`: a colour passed by the caller wins unless it is
      missing or empty; otherwise the score's band decides. */
  function FinalColor(score: real, color: Option<string>): (r: string)
    ensures Truthy(color) ==> r == color.value
    ensures !Truthy(color) ==> r in {GoodColor, AverageColor, PoorColor}
  {
    if Truthy(color) then color.value else BandColor(BandOf(score))
  }

  function Rank(b: Band): nat
  {
    match b
    case Poor => 0
    case Average => 1
    case Good => 2
  }

  /** A higher score never gets a worse band. */
  lemma BandMonotone(a: real, b: real)
    requires a <= b
    ensures Rank(BandOf(a)) <= Rank(BandOf(b))
  {
  }

  /** The three bands partition the scores at 50 and 90, and each band has
      its own colour. */
  lemma BandBoundaries(score: real)
    ensures BandOf(score) == Good <==> 90.0 <= score
    ensures BandOf(score) == Average <==> 50.0 <= score < 90.0
    ensures BandOf(score) == Poor <==> score < 50.0
    ensures FinalColor(score, None) == BandColor(BandOf(score))
    ensures FinalColor(score, Some("")) == BandColor(BandOf(score))
  {
  }

  lemma BandColorsDistinct(a: Band, b: Band)
    ensures BandColor(a) == BandColor(b) <==> a == b
  {
  }
}
