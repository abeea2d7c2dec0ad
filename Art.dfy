/** The sprite catalogue of art.go: two animation frames of three lines per
    known category, and a one-glyph placeholder for any other category. */
module Art {
  import opened Types

  type Frame = seq<string>

  const JoggerArt: seq<Frame> := [
    [" J ", "/|\\", "/ \\"],
    [" J ", "\\|/", "\\ /"]
  ]

  const TrailRunnerArt: seq<Frame> := [
    [" T ", "~|~", "/^\\"],
    [" T ", "~|~", "\\^/"]
  ]

  const MarathonerArt: seq<Frame> := [
    [" M ", "-|-", "/ \\"],
    [" M ", "-|-", "\\ /"]
  ]

  const CrewRunnerArt: seq<Frame> := [
    [" C ", "\\O/", " > >"],
    [" C ", "/O\\", "< <"]
  ]

  const UltraRunnerArt: seq<Frame> := [
    [" U ", "o|o", "_/\\_"],
    [" U ", "o|o", "\\/_/"]
  ]

  const TenKRunnerArt: seq<Frame> := [
    [" 10K ", " /|>", " / >"],
    [" 10K ", "<|\\ ", "< \\ "]
  ]

  const RunnerArtMap: map<RunnerType, seq<Frame>> := map[
    Jogger := JoggerArt,
    TrailRunner := TrailRunnerArt,
    Marathoner := MarathonerArt,
    CrewRunner := CrewRunnerArt,
    UltraRunner := UltraRunnerArt,
    TenKRunner := TenKRunnerArt
  ]

  /** The placeholder returned for a category missing from the table. */
  const Placeholder: seq<Frame> := [["?"]]

  /** Frames for a category; total, with the placeholder as fallback. */
  function GetArtForType(rt: RunnerType): (art: seq<Frame>)
    ensures |art| > 0 && |art[0]| > 0
    ensures IsKnown(rt) ==> rt in RunnerArtMap && art == RunnerArtMap[rt]
    ensures IsKnown(rt) ==> |art| == 2 && |art[0]| == 3 && |art[1]| == 3
    ensures !IsKnown(rt) ==> art == [["?"]]
  {
    if rt in RunnerArtMap then RunnerArtMap[rt] else Placeholder
  }

  /** The table holds exactly the known categories. */
  lemma TableDomain(rt: RunnerType)
    ensures rt in RunnerArtMap <==> IsKnown(rt)
  {
  }

  /** Every built-in table has two frames of three lines, none of them empty. */
  lemma TableShape(rt: RunnerType)
    requires rt in RunnerArtMap
    ensures |RunnerArtMap[rt]| == 2
    ensures forall i :: 0 <= i < 2 ==> |RunnerArtMap[rt][i]| == 3
    ensures forall i, j :: 0 <= i < 2 && 0 <= j < 3 ==> |RunnerArtMap[rt][i][j]| > 0
  {
  }
}
