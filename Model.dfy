/** The application state of model.go and the three updates that drive it: a
    terminal resize pulls runners back onto the screen, a timer tick moves
    every runner and advances its animation, and View draws all runners into
    a cell buffer and turns it into text. */
module Model {
  import opened Common
  import opened Types
  import opened Art
  import opened Runners
  import opened Compositor

  const MinRunners: nat := 3
  const MaxRunners: nat := 8

  /** Shown by View until the terminal size is known. */
  const InitializingMessage: string := "Initializing or terminal size too small..."

  /** A runner that the loops of model.go can index without panicking: it has
      frames, and its frame index points at one of them. */
  ghost predicate RunnerOk(r: Runner)
    reads r
  {
    |r.artFrames| > 0 && 0 <= r.currentFrameIdx < |r.artFrames|
  }

  // ------------------------------------------------------------ construction

  /** The random draws `initialModel` makes for one runner, in the ranges the
      random source produces them. */
  datatype RunnerDraw = RunnerDraw(kind: int, y: int, x: int, speed: real, light: int, dark: int)

  predicate DrawInRange(d: RunnerDraw) {
    && 0 <= d.kind < TenKRunner as int + 1
    && 0 <= d.y < 20
    && 0 <= d.x < 10
    && 0.0 <= d.speed < 1.0
    && 0 <= d.light < 230
    && 0 <= d.dark < 230
  }

  /** Starting row: the draw plus one, raised so that the sprite fits in a
      24-line terminal, but never above row 0. */
  function InitialY(draw: int, artHeight: nat): (y: int)
    ensures 0 <= y
    ensures artHeight <= 24 ==> y + artHeight <= 24
    ensures draw + 1 + artHeight <= 24 && 0 <= draw + 1 ==> y == draw + 1
    ensures 0 <= draw + 1 ==> y <= draw + 1
    ensures draw + 1 + artHeight > 24 && artHeight <= 24 ==> y == 24 - artHeight
    ensures draw + 1 + artHeight > 24 && artHeight > 24 ==> y == 0
    ensures draw + 1 + artHeight <= 24 && draw + 1 < 0 ==> y == 0
  {
    var y := draw + 1;
    var y := if y + artHeight > 24 then 24 - artHeight else y;
    if y < 0 then 0 else y
  }

  function Digit(d: nat): char
    requires d < 10
  {
    "0123456789"[d]
  }

  /** The decimal text of a natural number, as `fmt.Sprintf("%d", n)` writes it. */
  function Decimal(n: nat): (s: string)
    ensures |s| > 0 && forall i :: 0 <= i < |s| ==> '0' <= s[i] <= '9'
    ensures n > 0 ==> s[0] != '0'
    decreases n
  {
    if n < 10 then [Digit(n)] else Decimal(n / 10) + [Digit(n % 10)]
  }

  function DecimalValue(s: string): nat
    requires forall i :: 0 <= i < |s| ==> '0' <= s[i] <= '9'
  {
    if s == [] then 0 else DecimalValue(s[..|s| - 1]) * 10 + (s[|s| - 1] - '0') as nat
  }

  /** Reading the decimal text back gives the number: distinct colour numbers
      give distinct colour strings. */
  lemma {:induction false} DecimalRoundTrip(n: nat)
    ensures DecimalValue(Decimal(n)) == n
    decreases n
  {
    var s := Decimal(n);
    if n >= 10 {
      DecimalRoundTrip(n / 10);
      assert s[..|s| - 1] == Decimal(n / 10);
    }
  }

  /** The runner `initialModel` builds as its `index`-th one from draw `d`. */
  ghost predicate BuiltFrom(r: Runner, index: int, d: RunnerDraw)
    reads r
    requires DrawInRange(d)
  {
    var kind := d.kind as RunnerType;
    var art := GetArtForType(kind);
    && r.id == index
    && r.kind == kind
    && r.artFrames == art
    && r.pos == Position(d.x as real, InitialY(d.y, |art[0]|) as real)
    && r.velocity == d.speed * 1.5 + 0.5
    && r.currentFrameIdx == 0
    && r.color == AdaptiveColor(Decimal(d.light + 16), Decimal(d.dark + 16))
  }

  /** The `j`-th runner of `initialModel`: ready to use and built from its draw. */
  ghost predicate Made(r: Runner, j: int, d: RunnerDraw)
    reads r
  {
    DrawInRange(d) && RunnerOk(r) && BuiltFrom(r, j, d)
  }

  /** One iteration of `initialModel`'s loop: the runner for draw `d`. */
  method NewRunner(index: int, d: RunnerDraw) returns (r: Runner)
    requires DrawInRange(d)
    ensures fresh(r) && Made(r, index, d)
  {
    var kind := d.kind as RunnerType;
    var art := GetArtForType(kind);
    var artHeight := |art[0]|;
    var y := InitialY(d.y, artHeight);
    r := new Runner(index, kind, Position(d.x as real, y as real), d.speed * 1.5 + 0.5, art, 0,
                    AdaptiveColor(Decimal(d.light + 16), Decimal(d.dark + 16)));
  }

  /** The first |rs| runners were made from the matching draws. */
  ghost predicate AllBuilt(rs: seq<Runner>, draws: seq<RunnerDraw>)
    reads rs
  {
    |rs| <= |draws| && forall j :: 0 <= j < |rs| ==> Made(rs[j], j, draws[j])
  }

  lemma AllBuiltSnoc(rs: seq<Runner>, r: Runner, draws: seq<RunnerDraw>)
    requires AllBuilt(rs, draws) && |rs| < |draws| && Made(r, |rs|, draws[|rs|])
    ensures AllBuilt(rs + [r], draws)
  {
    var t := rs + [r];
    forall j | 0 <= j < |t|
      ensures Made(t[j], j, draws[j])
    {
      if j < |rs| {
        assert t[j] == rs[j];
      }
    }
  }

  /** `initialModel`'s loop: one new runner per draw, in order. */
  method NewRunners(draws: seq<RunnerDraw>) returns (rs: seq<Runner>)
    requires forall i :: 0 <= i < |draws| ==> DrawInRange(draws[i])
    ensures |rs| == |draws| && AllBuilt(rs, draws)
    ensures forall j :: 0 <= j < |rs| ==> fresh(rs[j])
    ensures forall j, k :: 0 <= j < k < |rs| ==> rs[j] != rs[k]
  {
    rs := [];
    var i := 0;
    while i < |draws|
      invariant 0 <= i <= |draws| && |rs| == i
      invariant forall j :: 0 <= j < i ==> fresh(rs[j])
      invariant AllBuilt(rs, draws)
      invariant forall j, k :: 0 <= j < k < i ==> rs[j] != rs[k]
    {
      var r := NewRunner(i, draws[i]);
      AllBuiltSnoc(rs, r, draws);
      rs := rs + [r];
      i := i + 1;
    }
  }

  class Model {
    var runners: seq<Runner>
    var termWidth: nat
    var termHeight: nat
    var err: Option<string>

    /** Runners are distinct values in Go's slice, and each one can be indexed
        by its frame index. */
    ghost predicate Valid()
      reads this, runners
    {
      && (forall i, j :: 0 <= i < j < |runners| ==> runners[i] != runners[j])
      && (forall i :: 0 <= i < |runners| ==> RunnerOk(runners[i]))
    }

    /** `initialModel`, with the random source's draws passed in: one runner
        per draw, the terminal size not yet known. The skip for an empty art
        table never fires, because every lookup yields a frame with a line. */
    constructor (draws: seq<RunnerDraw>)
      requires MinRunners <= |draws| <= MaxRunners
      requires forall i :: 0 <= i < |draws| ==> DrawInRange(draws[i])
      ensures Valid()
      ensures termWidth == 0 && termHeight == 0 && err == None
      ensures |runners| == |draws|
      ensures forall i :: 0 <= i < |runners| ==> fresh(runners[i]) && BuiltFrom(runners[i], i, draws[i])
    {
      var rs := NewRunners(draws);
      runners := rs;
      termWidth := 0;
      termHeight := 0;
      err := None;
    }

    // ---------------------------------------------------------------- updates

    /** An error message from the host: View shows it from then on. */
    method SetError(message: string)
      modifies `err
      ensures err == Some(message)
    {
      err := Some(message);
    }

    /** A window-size message: the new size is stored, and every runner whose
        first frame would reach the bottom row or beyond is pulled up so that
        it ends one row above the bottom, but not above row 0. */
    method Resize(width: nat, height: nat)
      requires Valid()
      modifies `termWidth, `termHeight, runners`pos
      ensures Valid()
      ensures termWidth == width && termHeight == height
      ensures forall i :: 0 <= i < |runners| ==> Clamped(runners[i], old(runners[i].pos), height)
    {
      termWidth := width;
      termHeight := height;
      var i := 0;
      while i < |runners|
        invariant 0 <= i <= |runners|
        invariant termWidth == width && termHeight == height
        invariant Valid()
        invariant forall j :: 0 <= j < i ==> Clamped(runners[j], old(runners[j].pos), height)
        invariant forall j :: i <= j < |runners| ==> runners[j].pos == old(runners[j].pos)
      {
        ClampRunner(runners[i], termHeight);
        i := i + 1;
      }
    }

    /** A timer tick: every runner moves right by its velocity, its frame index
        advances modulo its frame count, and a runner past the right edge
        re-enters at minus the width of the first line of its new frame. Each
        runner's update reads only its own fields. */
    method Tick(width: string -> nat)
      requires Valid()
      modifies runners`pos, runners`currentFrameIdx
      ensures Valid()
      ensures forall i :: 0 <= i < |runners| ==>
        Ticked(runners[i], old(runners[i].pos), old(runners[i].currentFrameIdx), termWidth, width)
    {
      var i := 0;
      while i < |runners|
        invariant 0 <= i <= |runners|
        invariant Valid()
        invariant forall j :: 0 <= j < i ==>
          Ticked(runners[j], old(runners[j].pos), old(runners[j].currentFrameIdx), termWidth, width)
        invariant forall j :: i <= j < |runners| ==>
          runners[j].pos == old(runners[j].pos) && runners[j].currentFrameIdx == old(runners[j].currentFrameIdx)
      {
        TickRunner(runners[i], termWidth, width);
        i := i + 1;
      }
    }

    // ------------------------------------------------------------------- view

    /** The sprites View draws, in the order of the runner list, with each
        runner's colour for the active theme. */
    ghost function Sprites(dark: bool): (s: seq<Sprite>)
      reads this, runners
      requires Valid()
      ensures |s| == |runners|
    {
      seq(|runners|, i requires 0 <= i < |runners| && RunnerOk(runners[i]) reads this, runners =>
        SpriteOf(runners[i], dark))
    }

    /** The rendered screen: the error text once an error is stored, a
        placeholder while the terminal size is unknown, and otherwise the
        composited grid of all runners as text. `dark` is the terminal's theme,
        `width` the display width of a string and `render` a cell's styled text. */
    method View(dark: bool, width: string -> nat, render: Cell -> string) returns (s: string)
      requires Valid()
      ensures err.Some? ==> s == "Error: " + err.value + "\n"
      ensures err.None? && (termWidth == 0 || termHeight == 0) ==> s == InitializingMessage
      ensures err.None? && termWidth > 0 && termHeight > 0 ==>
        s == Serialize(Screen(termHeight, termWidth, Sprites(dark), width), render)
    {
      if err.Some? {
        return "Error: " + err.value + "\n";
      }
      if termWidth == 0 || termHeight == 0 {
        return InitializingMessage;
      }
      s := DrawScreen(dark, width, render);
    }

    /** View once the size is known: draw every runner into a blank buffer of
        the terminal's size and write the buffer out. */
    method DrawScreen(dark: bool, width: string -> nat, render: Cell -> string) returns (s: string)
      requires Valid()
      ensures s == Serialize(Screen(termHeight, termWidth, Sprites(dark), width), render)
    {
      ghost var screen := Screen(termHeight, termWidth, Sprites(dark), width);
      var buffer := new Cell[termHeight, termWidth];
      FillBlank(buffer);

      DrawRunners(buffer, dark, width);
      s := WriteBuffer(buffer, screen, render);
    }

    /** View's drawing loop: each runner's current frame, in list order, in
        its colour for the active theme. */
    method DrawRunners(buffer: array2<Cell>, dark: bool, width: string -> nat)
      requires Valid()
      requires Holds(buffer, BlankGrid(termHeight, termWidth))
      modifies buffer
      ensures Holds(buffer, Screen(termHeight, termWidth, Sprites(dark), width))
    {
      ghost var sprites := Sprites(dark);
      ghost var blank := BlankGrid(termHeight, termWidth);
      var k := 0;
      while k < |runners|
        invariant 0 <= k <= |runners|
        invariant Holds(buffer, Composite(blank, sprites, k, width))
      {
        var r := runners[k];
        var frame := r.artFrames[r.currentFrameIdx];
        var runnerColor := if dark then r.color.dark else r.color.light;
        var sprite := Sprite(r.pos.x, r.pos.y, frame, Foreground(runnerColor));
        assert sprite == sprites[k];
        ghost var drawn := Composite(blank, sprites, k, width);
        assert Composite(blank, sprites, k + 1, width) == PaintSprite(drawn, sprite, width);
        DrawSprite(buffer, drawn, sprite, width);
        k := k + 1;
      }
    }
  }

  /** Runner `r` holds the result of a resize to `termHeight` rows from
      position `pos`: same X, row clamped by the height of its first frame. */
  ghost predicate Clamped(r: Runner, pos: Position, termHeight: int)
    reads r
  {
    && RunnerOk(r)
    && r.pos == Position(pos.x, ClampY(pos.y, |r.artFrames[0]|, termHeight))
  }

  /** The body of the resize loop for one runner. */
  method ClampRunner(r: Runner, termHeight: int)
    requires RunnerOk(r)
    modifies r`pos
    ensures Clamped(r, old(r.pos), termHeight)
  {
    var artHeight := |r.artFrames[0]|;
    if r.pos.y + artHeight as real >= termHeight as real {
      r.pos := r.pos.(y := (termHeight - artHeight - 1) as real);
      if r.pos.y < 0.0 {
        r.pos := r.pos.(y := 0.0);
      }
    }
  }

  /** Runner `r` holds the result of one tick from position `pos` and frame
      index `idx`. */
  ghost predicate Ticked(r: Runner, pos: Position, idx: int, termWidth: int, width: string -> nat)
    reads r
  {
    && RunnerOk(r)
    && r.currentFrameIdx == NextIdx(idx, |r.artFrames|)
    && r.pos == Position(Advance(pos.x, r.velocity, termWidth,
                                 TickWidth(r.artFrames, r.currentFrameIdx, width)), pos.y)
  }

  /** The body of the tick loop for one runner. */
  method TickRunner(r: Runner, termWidth: int, width: string -> nat)
    requires RunnerOk(r)
    modifies r`pos, r`currentFrameIdx
    ensures Ticked(r, old(r.pos), old(r.currentFrameIdx), termWidth, width)
  {
    r.pos := r.pos.(x := r.pos.x + r.velocity);
    r.currentFrameIdx := GoRem(r.currentFrameIdx + 1, |r.artFrames|);
    var artWidth: nat := 0;
    if |r.artFrames[r.currentFrameIdx]| > 0 {
      artWidth := width(r.artFrames[r.currentFrameIdx][0]);
    }
    if r.pos.x > termWidth as real {
      r.pos := r.pos.(x := -(artWidth as real));
    }
  }

  /** Width the tick wraps with: the first line of the (new) current frame, or
      0 when that frame has no lines. */
  function TickWidth(frames: seq<seq<string>>, idx: int, width: string -> nat): (w: nat)
    requires 0 <= idx < |frames|
    ensures |frames[idx]| > 0 ==> w == width(frames[idx][0])
    ensures |frames[idx]| == 0 ==> w == 0
  {
    if |frames[idx]| > 0 then width(frames[idx][0]) else 0
  }

  /** The tick loop and `updatePosition` wrap with the same width, the first
      line's, except for a frame without lines: the tick then uses 0 and
      `updatePosition` uses 1. */
  lemma TickAndWrapWidths(frames: seq<seq<string>>, idx: int, width: string -> nat)
    requires 0 <= idx < |frames|
    ensures |frames[idx]| > 0 ==> TickWidth(frames, idx, width) == WrapWidth(frames, idx, width)
    ensures |frames[idx]| == 0 ==> TickWidth(frames, idx, width) + 1 == WrapWidth(frames, idx, width)
  {
  }

  /** Row of a runner after a resize to `termHeight` rows. */
  function ClampY(y: real, artHeight: nat, termHeight: int): (ny: real)
    ensures y + artHeight as real < termHeight as real ==> ny == y
    ensures ny != y ==> 0.0 <= ny
    ensures ny <= y || ny == 0.0
    ensures termHeight > artHeight ==> ny + artHeight as real < termHeight as real
    ensures y + artHeight as real >= termHeight as real && artHeight < termHeight ==>
      ny + artHeight as real == (termHeight - 1) as real
    ensures y + artHeight as real >= termHeight as real && artHeight >= termHeight ==> ny == 0.0
  {
    if y + artHeight as real >= termHeight as real then
      var ny := (termHeight - artHeight - 1) as real;
      if ny < 0.0 then 0.0 else ny
    else y
  }

  /** A second resize to the same height moves nobody: clamping is idempotent. */
  lemma ClampYIdempotent(y: real, artHeight: nat, termHeight: int)
    ensures ClampY(ClampY(y, artHeight, termHeight), artHeight, termHeight) == ClampY(y, artHeight, termHeight)
  {
  }

  ghost function SpriteOf(r: Runner, dark: bool): Sprite
    reads r
    requires RunnerOk(r)
  {
    Sprite(r.pos.x, r.pos.y, r.artFrames[r.currentFrameIdx],
           Foreground(if dark then r.color.dark else r.color.light))
  }

  // ------------------------------------------------------------ cell buffer

  /** The buffer holds grid `g`, cell for cell. */
  ghost predicate Holds(buffer: array2<Cell>, g: Grid)
    reads buffer
  {
    && IsGrid(g, buffer.Length0, buffer.Length1)
    && forall y, x :: 0 <= y < buffer.Length0 && 0 <= x < buffer.Length1 ==> buffer[y, x] == g[y][x]
  }

  /** Sets every cell to a blank with the default style. */
  method FillBlank(buffer: array2<Cell>)
    modifies buffer
    ensures Holds(buffer, BlankGrid(buffer.Length0, buffer.Length1))
  {
    var y := 0;
    while y < buffer.Length0
      invariant 0 <= y <= buffer.Length0
      invariant forall yy, xx :: 0 <= yy < y && 0 <= xx < buffer.Length1 ==> buffer[yy, xx] == Blank
    {
      var x := 0;
      while x < buffer.Length1
        invariant 0 <= x <= buffer.Length1
        invariant forall yy, xx :: 0 <= yy < y && 0 <= xx < buffer.Length1 ==> buffer[yy, xx] == Blank
        invariant forall xx :: 0 <= xx < x ==> buffer[y, xx] == Blank
      {
        buffer[y, x] := Blank;
        x := x + 1;
      }
      y := y + 1;
    }
  }

  /** Writes one rune of display width `w` at column `col` of row `row`: the
      rune in its first column, spaces in the rest, skipping columns outside
      the buffer. */
  method DrawGlyph(buffer: array2<Cell>, ghost g: Grid, row: int, col: int, ch: char, w: nat, style: Style)
    requires Holds(buffer, g) && 0 <= row < buffer.Length0
    modifies buffer
    ensures Holds(buffer, g[row := PaintGlyph(g[row], col, ch, w, style)])
  {
    var i := 0;
    while i < w
      invariant 0 <= i <= w
      invariant Holds(buffer, g[row := PaintGlyph(g[row], col, ch, i, style)])
    {
      var drawX := col + i;
      if 0 <= drawX < buffer.Length1 {
        var cellChar := if i == 0 then ch else ' ';
        buffer[row, drawX] := Cell(cellChar, style);
      }
      i := i + 1;
    }
  }

  /** Writes the runes of one line from horizontal position `x`, advancing by
      each rune's display width. */
  method DrawLine(buffer: array2<Cell>, ghost g: Grid, row: int, x: real, line: string, style: Style,
                  width: string -> nat)
    requires Holds(buffer, g) && 0 <= row < buffer.Length0
    modifies buffer
    ensures Holds(buffer, g[row := PaintLine(g[row], x, line, |line|, style, width)])
  {
    var currentXOffset: nat := 0;
    var k := 0;
    while k < |line|
      invariant 0 <= k <= |line|
      invariant currentXOffset == LineWidth(line, k, width)
      invariant Holds(buffer, g[row := PaintLine(g[row], x, line, k, style, width)])
    {
      var ch := line[k];
      var charWidth := width([ch]);
      var targetX := Trunc(x + currentXOffset as real);
      DrawGlyph(buffer, g[row := PaintLine(g[row], x, line, k, style, width)], row, targetX, ch, charWidth, style);
      currentXOffset := currentXOffset + charWidth;
      k := k + 1;
    }
  }

  /** Writes every line of a sprite's frame on the row it lands on, skipping
      lines whose row is outside the buffer. */
  method DrawSprite(buffer: array2<Cell>, ghost g: Grid, s: Sprite, width: string -> nat)
    requires Holds(buffer, g)
    modifies buffer
    ensures Holds(buffer, PaintSprite(g, s, width))
  {
    var lineIdx := 0;
    while lineIdx < |s.frame|
      invariant 0 <= lineIdx <= |s.frame|
      invariant Holds(buffer, PaintLines(g, s, lineIdx, width))
    {
      var targetY := Trunc(s.y + lineIdx as real);
      ghost var drawn := PaintLines(g, s, lineIdx, width);
      if 0 <= targetY < buffer.Length0 {
        assert PaintLines(g, s, lineIdx + 1, width)
          == drawn[targetY := PaintLine(drawn[targetY], s.x, s.frame[lineIdx], |s.frame[lineIdx]|, s.style, width)];
        DrawLine(buffer, drawn, targetY, s.x, s.frame[lineIdx], s.style, width);
      } else {
        assert PaintLines(g, s, lineIdx + 1, width) == drawn;
      }
      lineIdx := lineIdx + 1;
    }
  }

  /** The buffer as text: each cell rendered, rows separated by line breaks. */
  method WriteBuffer(buffer: array2<Cell>, ghost g: Grid, render: Cell -> string) returns (s: string)
    requires Holds(buffer, g)
    ensures s == Serialize(g, render)
  {
    s := "";
    var y := 0;
    while y < buffer.Length0
      invariant 0 <= y <= buffer.Length0
      invariant s == Text(g, y, render)
    {
      var x := 0;
      while x < buffer.Length1
        invariant 0 <= x <= buffer.Length1
        invariant s == Text(g, y, render) + RowText(g[y], x, render)
      {
        s := s + render(buffer[y, x]);
        x := x + 1;
      }
      if y < buffer.Length0 - 1 {
        s := s + "\n";
      }
      y := y + 1;
    }
  }
}
