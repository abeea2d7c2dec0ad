/** The record shapes and the runner category enumeration of types.go. */
module Types {

  /** A runner category. Like Go's `type RunnerType int`, any integer is a
      value of the type; only the six constants below are known categories. */
  newtype RunnerType = int

  const Jogger: RunnerType := 0
  const TrailRunner: RunnerType := 1
  const Marathoner: RunnerType := 2
  const CrewRunner: RunnerType := 3
  const UltraRunner: RunnerType := 4
  const TenKRunner: RunnerType := 5

  /** The six declared constants, which are consecutive from Jogger to TenKRunner. */
  predicate IsKnown(rt: RunnerType) {
    Jogger <= rt <= TenKRunner
  }

  /** Debug name of a category; "Unknown" for anything outside the six constants. */
  function Name(rt: RunnerType): (s: string)
    ensures IsKnown(rt) <==> s != "Unknown"
  {
    if rt == Jogger then "Jogger"
    else if rt == TrailRunner then "TrailRunner"
    else if rt == Marathoner then "Marathoner"
    else if rt == CrewRunner then "CrewRunner"
    else if rt == UltraRunner then "UltraRunner"
    else if rt == TenKRunner then "TenKRunner"
    else "Unknown"
  }

  /** The names of distinct categories differ. */
  lemma NameInjective(a: RunnerType, b: RunnerType)
    requires IsKnown(a) && IsKnown(b) && a != b
    ensures Name(a) != Name(b)
  {
  }

  /** `rng.Intn(int(TenKRunner + 1))` draws from [0, TenKRunner], so every drawn
      category is a known one. */
  lemma DrawnTypeIsKnown(draw: int)
    requires 0 <= draw < TenKRunner as int + 1
    ensures IsKnown(draw as RunnerType)
  {
  }

  /** Terminal cell coordinates; fractional values accumulate sub-cell movement. */
  datatype Position = Position(x: real, y: real)

  /** A colour for light terminal backgrounds and one for dark ones, each an
      ANSI 256-colour number written in decimal. */
  datatype AdaptiveColor = AdaptiveColor(light: string, dark: string)

  /** One animated actor. The host updates its position and frame index in place. */
  class Runner {
    var id: int
    var kind: RunnerType
    var pos: Position
    /** Horizontal speed in cells per tick. */
    var velocity: real
    /** Each frame is a list of lines; each line is a string. */
    var artFrames: seq<seq<string>>
    var currentFrameIdx: int
    var color: AdaptiveColor

    constructor (id: int, kind: RunnerType, pos: Position, velocity: real,
                 artFrames: seq<seq<string>>, currentFrameIdx: int, color: AdaptiveColor)
      ensures this.id == id && this.kind == kind && this.pos == pos
      ensures this.velocity == velocity && this.artFrames == artFrames
      ensures this.currentFrameIdx == currentFrameIdx && this.color == color
    {
      this.id := id;
      this.kind := kind;
      this.pos := pos;
      this.velocity := velocity;
      this.artFrames := artFrames;
      this.currentFrameIdx := currentFrameIdx;
      this.color := color;
    }
  }
}
