# consolerunner, modelled in Dafny

consolerunner is a terminal animation toy. Between three and eight ASCII-art
runners move left to right across the terminal. Each runner cycles through its
animation frames and re-enters on the left after leaving on the right. This
project models the core of that program:

- the per-runner steps `updatePosition` and `nextFrame` (runner.go);
- the application model (model.go): `initialModel`, the resize and tick
  branches of `Update`, the error branch, and `View` with its cell buffer;
- the art catalogue and its lookup (art.go);
- the runner category enumeration, its `String` method and the records
  (types.go).

Modules:

- `Common` holds Go's `int(float64)` conversion, which truncates toward zero
  (`Trunc`), and Go's `%`, which truncates toward zero (`GoRem`). Both are
  written out because Dafny's own operators round differently.
- `Types` holds the categories (`RunnerType`, a newtype over `int`, as in
  Go), `Name`, and the `Runner` class. The runner's fields are updated in
  place, as the Go code does through pointers and slice elements.
- `Art` holds the frame tables, copied character for character, and
  `GetArtForType`.
- `Runners` holds `UpdatePosition` and `NextFrame` on a possibly-nil
  `Runner`. Their contracts are stated through the pure step functions
  `Advance` and `NextIdx`. The expected values of runner_test.go are derived
  in `RunnerScenarios`.
- `Compositor` specifies `View` on values:
  - a grid of styled cells starts blank;
  - each runner's current frame is painted rune by rune (`PaintGlyph`,
    `PaintLine`, `PaintLines`, `Composite`, `Screen`);
  - the grid is serialised row by row (`Text`, `Serialize`).

  Its lemmas say what the screen shows: a cell that no runner covers is
  blank, a covered cell holds exactly what the last runner covering it
  writes there (character and style), within a line the last rune covering
  a column decides it, and a grid of h rows has h - 1 line breaks. With plain rendering, cell
  (y, x) lands at offset y·(w+1)+x.
- `Model` holds the `Model` class (runner list, terminal size, stored error)
  and its operations:
  - the constructor (`initialModel` with the random draws passed in);
  - `Resize`, `Tick` and `SetError`;
  - `View`, which draws into an `array2<Cell>` buffer exactly as the Go code
    loops.

  Each buffer loop is proved to produce the grid that the `Compositor`
  functions describe.

Notes on the model:

- Positions are exact reals; float64 rounding is not modelled.
- Screen columns and rows are computed with Go's truncation: `Trunc`, not
  floor. So a runner at X in (-1, 0) draws its first rune in column 0, the
  same column as X = 0; floor would put it at column -1. The model keeps the
  truncation. A consequence: at a negative fractional X, say -1.5, the runes
  at offsets 1 and 2 both land in column 0 and the later one overwrites the
  earlier, so a sprite re-entering at a fractional X (the usual case, as
  velocities are 0.5 to 2.0) loses a column at the left edge. The model
  reproduces this.
- runner.go:15-16 converts X through `int(...)`, but `Position.X` is a
  float64 in types.go:24-27. runner_test.go:47 expects 11.5 after a step of
  1.5. The model follows the float field and the tests, so `UpdatePosition`
  does not truncate.
- types.go:34 names the speed field `VelocityX`, while runner.go and
  model.go read `Velocity`. The model has a single `velocity` field.

## Model

| member | source | states |
|---|---|---|
| Common.Trunc | model.go:193 | Go's float-to-int conversion truncates toward zero: the result is the largest integer not above a non-negative input, the smallest not below a negative one, and 0 exactly on (-1, 1) |
| Common.GoRem | runner.go:39 | Go's remainder is congruent to the dividend modulo n, lies strictly between -n and n, and carries the dividend's sign |
| Types.Name | types.go:48-65 | a category has a name other than "Unknown" exactly when it is one of the six declared constants |
| Types.NameInjective | types.go:48-65 | distinct known categories have distinct names |
| Types.DrawnTypeIsKnown | model.go:58 | every category drawn by `Intn(int(TenKRunner + 1))` is a known one |
| Art.GetArtForType | art.go:97-104 | a known category gets its table entry: two frames of three lines; any other category gets the one-glyph placeholder; the result always has a first frame with a first line |
| Art.TableDomain | art.go:87-94 | the table has an entry for exactly the six known categories |
| Art.TableShape | art.go:8-84 | every table entry has two frames of three non-empty lines |
| Runners.WrapWidth | runner.go:19-26 | `updatePosition` wraps with the display width of the current frame's first line; with no frames, an index past the last frame or a frame without lines it uses 1 |
| Runners.Advance | runner.go:28-30 | a step that stays within the terminal width just adds the velocity; a step past it restarts the runner at exactly minus the sprite width, fully hidden on the left; for a non-negative width the result never exceeds it |
| Runners.AdvanceStaysInBand | runner.go:28-30 | with a non-negative velocity, X stays in the band [-sprite width, terminal width] forever |
| Runners.NextIdx | runner.go:35-40 | with no frames the index is unchanged; an in-range index moves to the next frame and wraps from the last frame to 0; otherwise the result lies strictly between minus the frame count and the frame count |
| Runners.CycleIsModular | runner.go:39 | k successive frame steps from an in-range index land on (index + k) mod n |
| Runners.CycleReturns | runner.go:39 | n steps bring the index back to its start, and every index on the way is in range |
| Runners.CycleWithoutFrames | runner.go:36-38 | with no frames, any number of frame steps leaves the index alone |
| Runners.UpdatePosition | runner.go:9-31 | a nil runner is left alone; otherwise X advances by the velocity and wraps using the first line of the current frame (width 1 when there is none), and Y and every other field are unchanged |
| Runners.NextFrame | runner.go:35-40 | a nil runner or one without frames is left alone; otherwise the frame index takes its next value modulo the frame count, and nothing else changes |
| Compositor.BlankGrid | model.go:171-179 | the buffer starts as a height-by-width grid of blank cells in the default style |
| Compositor.Screen | model.go:171-234 | the composited screen is a height-by-width grid |
| Compositor.PaintGlyph | model.go:204-217 | a rune of display width w puts itself in its first column and spaces in the next w - 1, all in the line's style, skipping columns outside the row; every other cell is unchanged |
| Compositor.PaintLine | model.go:198-232 | painting a line's runes at int(X + offset) keeps the row's length; what each cell holds afterwards is stated by PaintLineCell and LastRuneWins |
| Compositor.PaintLines | model.go:191-233 | painting a frame's lines on rows int(Y + i), skipping rows off the grid, keeps the grid's shape; what each cell holds afterwards is stated by PaintLinesCell and PaintLinesOver |
| Compositor.PaintLineCell | model.go:198-232 | drawing a line leaves every column none of its runes spans unchanged; a spanned column takes the line's style and holds a rune of the line or the space of a wide rune's tail |
| Compositor.LastRuneWins | model.go:198-232 | runes are written left to right, so a column holds what the last rune spanning it writes: the rune itself if it starts in that column, otherwise a space, in the line's style |
| Compositor.PaintLineOver | model.go:198-232 | what a line leaves in a column it spans does not depend on what the row held there before |
| Compositor.PaintLinesCell | model.go:191-233 | drawing a sprite leaves every cell that none of its lines spans unchanged, and gives every spanned cell the sprite's style |
| Compositor.PaintLinesOver | model.go:191-233 | what a sprite leaves in a cell it spans, character and style, does not depend on what the grid held there before |
| Compositor.PaintLinesRow | model.go:193-196 | drawing line i changes only row int(Y + i), and changes nothing when that row is off the screen |
| Compositor.UntouchedCell | model.go:182-234 | a cell that no runner's sprite spans keeps its initial value |
| Compositor.LastWriterWins | model.go:182-234 | runners are drawn in list order, so a cell holds exactly what the last runner whose sprite spans it writes there, character and style, as if that runner were drawn alone |
| Compositor.ScreenCell | model.go:171-234 | on the screen, an uncovered cell is blank and a covered cell holds what the last runner covering it writes over a blank screen, in that runner's style |
| Compositor.LineBreaks | model.go:238-247 | when no rendered cell contains a line break, a screen of h rows has exactly h - 1 line breaks: none after the last row |
| Compositor.Serialize | model.go:236-249 | the text of the buffer is every row's rendered cells, with a line break after each row but the last: an empty buffer gives no text and a one-row buffer gives just its cells with no line break; LineBreaks and PlainText state the general case |
| Compositor.PlainText | model.go:238-247 | with plain rendering the text has h·(w+1) - 1 characters, cell (y, x) is at offset y·(w+1)+x, and a line break follows each row but the last |
| Model.InitialY | model.go:68-74 | the starting row is the draw plus one when the sprite fits in 24 lines; otherwise it is exactly 24 minus the sprite height, and 0 when the sprite is taller than 24 lines or the row would be negative |
| Model.Decimal | model.go:84 | a colour number is written as non-empty decimal digits without a leading zero |
| Model.DecimalRoundTrip | model.go:84 | reading the decimal text back gives the colour number |
| Model.NewRunner | model.go:58-86 | one loop iteration makes a fresh runner whose category, art, position, speed, frame index and colours come from its draws, and whose frames can be indexed |
| Model.NewRunners | model.go:57-88 | the loop makes one distinct fresh runner per draw, in order, none skipped |
| Model.Model.constructor | model.go:46-91 | the initial model has one runner per draw, built as above; the terminal size is unknown (0 by 0) and no error is stored |
| Model.Model.SetError | model.go:146-148 | an error message is stored |
| Model.ClampY | model.go:108-113 | a row whose sprite fits above the bottom is kept; otherwise the row becomes exactly termHeight - artHeight - 1, so the sprite ends one row above the bottom, or 0 when the sprite is at least as tall as the terminal |
| Model.ClampYIdempotent | model.go:101-115 | a second resize to the same height moves no runner |
| Model.ClampRunner | model.go:106-113 | one runner's row is clamped by the height of its first frame; X is unchanged |
| Model.Model.Resize | model.go:101-115 | the new size is stored and every runner's row is clamped; the runner list stays valid |
| Model.TickWidth | model.go:135-138 | the tick wraps with the display width of the new frame's first line, or 0 when that frame has no lines |
| Model.TickAndWrapWidths | model.go:135-138 | the tick and `updatePosition` use the same wrap width except for a frame without lines, where the tick uses 0 and `updatePosition` 1 |
| Model.TickRunner | model.go:129-142 | one runner moves by its velocity, its frame index advances modulo its frame count, and past the right edge it restarts at minus the width of the first line of the new frame (0 when that frame is empty) |
| Model.Model.Tick | model.go:123-144 | every runner is ticked as above; frame indexes stay in range |
| Model.Model.Sprites | model.go:182-189 | View draws one sprite per runner, in list order |
| Model.FillBlank | model.go:171-179 | every buffer cell is set to a blank in the default style |
| Model.DrawGlyph | model.go:204-217 | a rune of display width w writes itself in its first column and spaces in the other w - 1, skipping columns outside the buffer |
| Model.DrawLine | model.go:198-232 | the runes of a line are written at int(X + offset), with the offset advancing by each rune's display width |
| Model.DrawSprite | model.go:191-233 | each line of the frame is written on row int(Y + line index), and lines off the screen are skipped |
| Model.Model.DrawRunners | model.go:182-234 | after drawing every runner in order, the buffer holds the composited screen |
| Model.WriteBuffer | model.go:236-249 | the text is every cell rendered row by row, with a line break between rows |
| Model.Model.DrawScreen | model.go:171-249 | once the size is known, the text View returns is the serialised composited screen of every runner |
| Model.Model.View | model.go:155-251 | a stored error is shown as "Error: <message>" and a line break; a placeholder is shown while either dimension is 0; otherwise the result is the serialised composited screen |

## Left out

- main.go, `Init`, `tickCmd`, the tick timer and the quit key binding are not modelled. They only wire the model to the terminal runtime.
- The terminal toolkit's behaviour is passed in as parameters: `lipgloss.Width` becomes `width`, `Style.Render` becomes `render`, and `lipgloss.HasDarkBackground` becomes `dark`. Go queries the background once per runner; the model assumes the answer does not change during one View.
- The random source becomes parameters. The constructor takes the draws (`RunnerDraw`) that `initialModel` would make, in their documented ranges. The runner count is the number of draws, between 3 and 8. The `rng` fields and `VelocityY` are not modelled.
- float64 arithmetic is modelled with exact reals. Rounding, infinities and NaN are out of scope.
- Model.Model.constructor: the skip at model.go:60-63 is not modelled as a branch, because every lookup yields a frame with a line (Art.GetArtForType), so it never fires.
- Runners.UpdatePosition: requires a non-negative frame index when frames exist. A negative index would make the Go code panic on the slice access.
- Model.Model.Resize: takes the new width and height as natural numbers. A negative size from the runtime would make View panic when it allocates the buffer.
- Model.Model.Tick, Model.Model.Resize, Model.Model.View: require every runner to have frames and an in-range frame index (`Valid`). This holds at every call: the constructor sets index 0 on non-empty art and every update keeps it. The Go code only panics without it in some cases: an empty frame list panics in every branch, while an out-of-range index panics in View and in those ticks whose remainder is negative; Resize reads only the first frame. The model does not describe those other states.
- Go's value receiver on `Update` and `View` copies the model, but the copy shares the runner slice. The model treats the runner list as shared state updated in place, which matches what the Go code does to the runners.
