/** The screen compositor of model.go's View, stated on values: a grid of
    styled cells starts blank, every runner's current frame is painted into it
    in order, rune by rune, and the grid is then serialised row by row.
    The imperative buffer code in module Model is proved equal to these
    functions; the lemmas here say what the painted grid and the text are. */
module Compositor {
  import opened Common

  /** A cell's style: the toolkit's default, or a foreground colour. */
  datatype Style = DefaultStyle | Foreground(color: string)

  datatype Cell = Cell(ch: char, style: Style)

  const Blank: Cell := Cell(' ', DefaultStyle)

  /** Rows of cells, top to bottom. */
  type Grid = seq<seq<Cell>>

  /** What the compositor reads from one runner: its position, the lines of
      its current frame and the style of its colour for the active theme. */
  datatype Sprite = Sprite(x: real, y: real, frame: seq<string>, style: Style)

  predicate IsGrid(g: Grid, h: nat, w: nat) {
    |g| == h && forall y :: 0 <= y < h ==> |g[y]| == w
  }

  /** The `height x width` grid of blank, default-styled cells. */
  function BlankGrid(h: nat, w: nat): (g: Grid)
    ensures IsGrid(g, h, w)
    ensures forall y, x :: 0 <= y < h && 0 <= x < w ==> g[y][x] == Blank
  {
    seq(h, _ => seq(w, _ => Blank))
  }

  // ---------------------------------------------------------------- painting

  /** One rune of display width `w` whose first column is `col`: the first
      column gets the rune, the other `w - 1` columns a space, all in `style`;
      columns outside the row are skipped and every other cell is kept. */
  function PaintGlyph(row: seq<Cell>, col: int, ch: char, w: nat, style: Style): (r: seq<Cell>)
    ensures |r| == |row|
    ensures 0 <= col < |row| && 0 < w ==> r[col] == Cell(ch, style)
    ensures forall j :: 0 <= j < |row| && col < j < col + w ==> r[j] == Cell(' ', style)
    ensures forall j :: 0 <= j < |row| && !(col <= j < col + w) ==> r[j] == row[j]
  {
    seq(|row|, j requires 0 <= j < |row| =>
      if col <= j < col + w then Cell(if j == col then ch else ' ', style) else row[j])
  }

  /** Total display width of the first `n` runes of `line`: the column offset
      at which rune `n` starts, relative to the sprite's X. */
  function LineWidth(line: string, n: nat, width: string -> nat): nat
    requires n <= |line|
  {
    if n == 0 then 0 else LineWidth(line, n - 1, width) + width([line[n - 1]])
  }

  /** The column rune `k` of a line starts in: Go's `int(x + offset)`, which
      truncates toward zero. */
  function GlyphCol(x: real, line: string, k: nat, width: string -> nat): int
    requires k <= |line|
  {
    Trunc(x + LineWidth(line, k, width) as real)
  }

  /** A row after painting the first `n` runes of `line` at horizontal position `x`. */
  function PaintLine(row: seq<Cell>, x: real, line: string, n: nat, style: Style, width: string -> nat): (r: seq<Cell>)
    requires n <= |line|
    ensures |r| == |row|
  {
    if n == 0 then row
    else PaintGlyph(PaintLine(row, x, line, n - 1, style, width),
                    GlyphCol(x, line, n - 1, width), line[n - 1], width([line[n - 1]]), style)
  }

  /** A grid after painting the first `n` lines of a sprite's frame; line `i`
      goes to row `int(y + i)` and is skipped when that row is off the grid. */
  function PaintLines(g: Grid, s: Sprite, n: nat, width: string -> nat): (r: Grid)
    requires n <= |s.frame|
    ensures |r| == |g| && forall y :: 0 <= y < |g| ==> |r[y]| == |g[y]|
  {
    if n == 0 then g
    else
      var prev := PaintLines(g, s, n - 1, width);
      var ty := Trunc(s.y + (n - 1) as real);
      if 0 <= ty < |prev| then prev[ty := PaintLine(prev[ty], s.x, s.frame[n - 1], |s.frame[n - 1]|, s.style, width)]
      else prev
  }

  function PaintSprite(g: Grid, s: Sprite, width: string -> nat): Grid {
    PaintLines(g, s, |s.frame|, width)
  }

  /** A grid after painting the first `n` sprites, in order. */
  function Composite(g: Grid, sprites: seq<Sprite>, n: nat, width: string -> nat): (r: Grid)
    requires n <= |sprites|
    ensures |r| == |g| && forall y :: 0 <= y < |g| ==> |r[y]| == |g[y]|
  {
    if n == 0 then g else PaintSprite(Composite(g, sprites, n - 1, width), sprites[n - 1], width)
  }

  /** The composited screen: all sprites painted over a blank grid. */
  function Screen(h: nat, w: nat, sprites: seq<Sprite>, width: string -> nat): (g: Grid)
    ensures IsGrid(g, h, w)
  {
    Composite(BlankGrid(h, w), sprites, |sprites|, width)
  }

  // ---------------------------------------------------------------- coverage

  /** Rune `k` of `line`, drawn at `x`, spans column `col`. */
  predicate GlyphCovers(x: real, line: string, k: nat, width: string -> nat, col: int)
    requires k < |line|
  {
    GlyphCol(x, line, k, width) <= col < GlyphCol(x, line, k, width) + width([line[k]])
  }

  /** Some of the first `n` runes of `line` spans column `col` (rune `n - 1`,
      or one before it). */
  predicate LineCovers(x: real, line: string, n: nat, width: string -> nat, col: int)
    requires n <= |line|
  {
    n > 0 && (LineCovers(x, line, n - 1, width, col) || GlyphCovers(x, line, n - 1, width, col))
  }

  /** Some of the first `n` lines of the sprite lands on row `y` and spans
      column `col` (line `n - 1`, or one before it). */
  predicate SpriteCoversLines(s: Sprite, n: nat, width: string -> nat, y: int, col: int)
    requires n <= |s.frame|
  {
    && n > 0
    && (|| SpriteCoversLines(s, n - 1, width, y, col)
        || (Trunc(s.y + (n - 1) as real) == y && LineCovers(s.x, s.frame[n - 1], |s.frame[n - 1]|, width, col)))
  }

  predicate SpriteCovers(s: Sprite, width: string -> nat, y: int, col: int) {
    SpriteCoversLines(s, |s.frame|, width, y, col)
  }

  /** Painting runes leaves every column none of them spans as it was, and
      gives every column one of them spans the line's style and either one of
      the line's runes or the space of a wide rune's tail. */
  lemma {:induction false} PaintLineCell(row: seq<Cell>, x: real, line: string, n: nat, style: Style,
                                         width: string -> nat, col: int)
    requires n <= |line| && 0 <= col < |row|
    ensures !LineCovers(x, line, n, width, col) ==> PaintLine(row, x, line, n, style, width)[col] == row[col]
    ensures LineCovers(x, line, n, width, col) ==>
      PaintLine(row, x, line, n, style, width)[col].style == style &&
      (PaintLine(row, x, line, n, style, width)[col].ch == ' ' || PaintLine(row, x, line, n, style, width)[col].ch in line)
  {
    if n > 0 {
      PaintLineCell(row, x, line, n - 1, style, width, col);
    }
  }

  /** What rune `k` leaves in a column it spans: the rune itself in its first
      column, a space in the others, in the line's style. */
  function GlyphCell(x: real, line: string, k: nat, width: string -> nat, col: int, style: Style): Cell
    requires k < |line|
  {
    Cell(if GlyphCol(x, line, k, width) == col then line[k] else ' ', style)
  }

  /** Later runes overwrite earlier ones: a column spanned by rune `k` and by
      no later rune among the first `n` holds what rune `k` writes there. */
  lemma {:induction false} LastRuneWins(row: seq<Cell>, x: real, line: string, n: nat, style: Style,
                                        width: string -> nat, k: nat, col: int)
    requires k < n <= |line| && 0 <= col < |row|
    requires GlyphCovers(x, line, k, width, col)
    requires forall j :: k < j < n ==> !GlyphCovers(x, line, j, width, col)
    ensures PaintLine(row, x, line, n, style, width)[col] == GlyphCell(x, line, k, width, col, style)
  {
    if k < n - 1 {
      assert !GlyphCovers(x, line, n - 1, width, col);
      LastRuneWins(row, x, line, n - 1, style, width, k, col);
    }
  }

  /** What a line leaves in a column one of its runes spans does not depend on
      what the row held there before. */
  lemma {:induction false} PaintLineOver(r1: seq<Cell>, r2: seq<Cell>, x: real, line: string, n: nat, style: Style,
                                         width: string -> nat, col: int)
    requires n <= |line| && 0 <= col < |r1| && col < |r2|
    requires LineCovers(x, line, n, width, col)
    ensures PaintLine(r1, x, line, n, style, width)[col] == PaintLine(r2, x, line, n, style, width)[col]
  {
    if !GlyphCovers(x, line, n - 1, width, col) {
      PaintLineOver(r1, r2, x, line, n - 1, style, width, col);
    }
  }

  /** The same for the first `n` lines of a sprite: cells the sprite does not
      span keep their value, cells it spans carry its style. */
  lemma {:induction false} PaintLinesCell(g: Grid, s: Sprite, n: nat, width: string -> nat, y: int, col: int)
    requires n <= |s.frame| && 0 <= y < |g| && 0 <= col < |g[y]|
    ensures !SpriteCoversLines(s, n, width, y, col) ==> PaintLines(g, s, n, width)[y][col] == g[y][col]
    ensures SpriteCoversLines(s, n, width, y, col) ==> PaintLines(g, s, n, width)[y][col].style == s.style
  {
    if n > 0 {
      PaintLinesCell(g, s, n - 1, width, y, col);
      PaintLinesRow(g, s, n, width, y);
      var prev := PaintLines(g, s, n - 1, width);
      var line := s.frame[n - 1];
      if Trunc(s.y + (n - 1) as real) == y {
        PaintLineCell(prev[y], s.x, line, |line|, s.style, width, col);
      }
    }
  }

  /** Painting line `n - 1` changes only the row it lands on. */
  lemma PaintLinesRow(g: Grid, s: Sprite, n: nat, width: string -> nat, y: int)
    requires 0 < n <= |s.frame| && 0 <= y < |g|
    ensures var prev := PaintLines(g, s, n - 1, width);
      PaintLines(g, s, n, width)[y] ==
        if Trunc(s.y + (n - 1) as real) == y
        then PaintLine(prev[y], s.x, s.frame[n - 1], |s.frame[n - 1]|, s.style, width)
        else prev[y]
  {
  }

  /** What a sprite leaves in a cell it spans does not depend on what the grid
      held there before: the whole cell, character and style, is the sprite's. */
  lemma {:induction false} PaintLinesOver(g1: Grid, g2: Grid, s: Sprite, n: nat, width: string -> nat, y: int, col: int)
    requires n <= |s.frame| && |g1| == |g2| && 0 <= y < |g1| && 0 <= col < |g1[y]| && col < |g2[y]|
    requires SpriteCoversLines(s, n, width, y, col)
    ensures PaintLines(g1, s, n, width)[y][col] == PaintLines(g2, s, n, width)[y][col]
  {
    PaintLinesRow(g1, s, n, width, y);
    PaintLinesRow(g2, s, n, width, y);
    var p1 := PaintLines(g1, s, n - 1, width);
    var p2 := PaintLines(g2, s, n - 1, width);
    var line := s.frame[n - 1];
    if Trunc(s.y + (n - 1) as real) == y && LineCovers(s.x, line, |line|, width, col) {
      PaintLineOver(p1[y], p2[y], s.x, line, |line|, s.style, width, col);
    } else {
      PaintLinesOver(g1, g2, s, n - 1, width, y, col);
      if Trunc(s.y + (n - 1) as real) == y {
        PaintLineCell(p1[y], s.x, line, |line|, s.style, width, col);
        PaintLineCell(p2[y], s.x, line, |line|, s.style, width, col);
      }
    }
  }

  /** The recursive coverage predicates say "some rune" and "some line". */
  lemma {:induction false} LineCoversSome(x: real, line: string, n: nat, width: string -> nat, col: int)
    requires n <= |line|
    ensures LineCovers(x, line, n, width, col) <==> exists k :: 0 <= k < n && GlyphCovers(x, line, k, width, col)
  {
    if n > 0 {
      LineCoversSome(x, line, n - 1, width, col);
    }
  }

  lemma {:induction false} SpriteCoversSome(s: Sprite, n: nat, width: string -> nat, y: int, col: int)
    requires n <= |s.frame|
    ensures SpriteCoversLines(s, n, width, y, col) <==>
      exists i :: 0 <= i < n && Trunc(s.y + i as real) == y && LineCovers(s.x, s.frame[i], |s.frame[i]|, width, col)
  {
    if n > 0 {
      SpriteCoversSome(s, n - 1, width, y, col);
    }
  }

  /** Painting one more sprite: the cells it spans take its style, every other
      cell keeps what the earlier sprites left. */
  lemma PaintSpriteCell(g: Grid, s: Sprite, width: string -> nat, y: int, col: int)
    requires 0 <= y < |g| && 0 <= col < |g[y]|
    ensures !SpriteCovers(s, width, y, col) ==> PaintSprite(g, s, width)[y][col] == g[y][col]
    ensures SpriteCovers(s, width, y, col) ==> PaintSprite(g, s, width)[y][col].style == s.style
  {
    PaintLinesCell(g, s, |s.frame|, width, y, col);
  }

  /** A cell that none of the first `n` sprites spans keeps its initial value. */
  lemma {:induction false} UntouchedCell(g: Grid, sprites: seq<Sprite>, n: nat, width: string -> nat, y: int, col: int)
    requires n <= |sprites| && 0 <= y < |g| && 0 <= col < |g[y]|
    requires forall i :: 0 <= i < n ==> !SpriteCovers(sprites[i], width, y, col)
    ensures Composite(g, sprites, n, width)[y][col] == g[y][col]
  {
    if n > 0 {
      UntouchedCell(g, sprites, n - 1, width, y, col);
      PaintSpriteCell(Composite(g, sprites, n - 1, width), sprites[n - 1], width, y, col);
    }
  }

  /** Later sprites overwrite earlier ones: a cell spanned by sprite `i` and by
      no later sprite among the first `n` holds exactly what sprite `i` alone
      would write there, character and style. */
  lemma {:induction false} LastWriterWins(g: Grid, sprites: seq<Sprite>, n: nat, width: string -> nat,
                                          i: nat, y: int, col: int)
    requires i < n <= |sprites| && 0 <= y < |g| && 0 <= col < |g[y]|
    requires SpriteCovers(sprites[i], width, y, col)
    requires forall j :: i < j < n ==> !SpriteCovers(sprites[j], width, y, col)
    ensures Composite(g, sprites, n, width)[y][col] == PaintSprite(g, sprites[i], width)[y][col]
    ensures Composite(g, sprites, n, width)[y][col].style == sprites[i].style
  {
    var prev := Composite(g, sprites, n - 1, width);
    PaintSpriteCell(prev, sprites[n - 1], width, y, col);
    if i < n - 1 {
      LastWriterWins(g, sprites, n - 1, width, i, y, col);
    } else {
      PaintLinesOver(prev, g, sprites[i], |sprites[i].frame|, width, y, col);
    }
  }

  /** On the screen: a cell no sprite spans is blank, and a spanned cell
      holds what the last sprite that spans it writes there over a blank grid. */
  lemma ScreenCell(h: nat, w: nat, sprites: seq<Sprite>, width: string -> nat, y: int, col: int)
    requires 0 <= y < h && 0 <= col < w
    ensures (forall i :: 0 <= i < |sprites| ==> !SpriteCovers(sprites[i], width, y, col)) ==>
      Screen(h, w, sprites, width)[y][col] == Blank
    ensures forall i ::
      (0 <= i < |sprites| && SpriteCovers(sprites[i], width, y, col) &&
       (forall j :: i < j < |sprites| ==> !SpriteCovers(sprites[j], width, y, col)))
      ==> (&& Screen(h, w, sprites, width)[y][col] == PaintSprite(BlankGrid(h, w), sprites[i], width)[y][col]
           && Screen(h, w, sprites, width)[y][col].style == sprites[i].style)
  {
    var g := BlankGrid(h, w);
    if forall i :: 0 <= i < |sprites| ==> !SpriteCovers(sprites[i], width, y, col) {
      UntouchedCell(g, sprites, |sprites|, width, y, col);
    }
    forall i | 0 <= i < |sprites| && SpriteCovers(sprites[i], width, y, col) &&
      (forall j :: i < j < |sprites| ==> !SpriteCovers(sprites[j], width, y, col))
      ensures Screen(h, w, sprites, width)[y][col] == PaintSprite(g, sprites[i], width)[y][col]
        && Screen(h, w, sprites, width)[y][col].style == sprites[i].style
    {
      LastWriterWins(g, sprites, |sprites|, width, i, y, col);
    }
  }

  // ----------------------------------------------------------- serialisation

  /** The text of the first `n` cells of a row, each rendered with its style. */
  function RowText(row: seq<Cell>, n: nat, render: Cell -> string): string
    requires n <= |row|
  {
    if n == 0 then "" else RowText(row, n - 1, render) + render(row[n - 1])
  }

  /** The text of the first `n` rows: each row's text, followed by a line break
      unless it is the grid's last row. */
  function Text(g: Grid, n: nat, render: Cell -> string): string
    requires n <= |g|
  {
    if n == 0 then ""
    else Text(g, n - 1, render) + RowText(g[n - 1], |g[n - 1]|, render) + (if n < |g| then "\n" else "")
  }

  /** The whole buffer as text. No line break follows the last row: a single
      row is just its cells' text. */
  function Serialize(g: Grid, render: Cell -> string): (t: string)
    ensures |g| == 0 ==> t == ""
    ensures |g| == 1 ==> t == RowText(g[0], |g[0]|, render)
  {
    if |g| == 1 then
      var row := RowText(g[0], |g[0]|, render);
      assert Text(g, 1, render) == Text(g, 0, render) + row + "";
      assert "" + row + "" == row;
      Text(g, 1, render)
    else Text(g, |g|, render)
  }

  function Count(c: char, s: string): nat {
    if s == [] then 0 else Count(c, s[..|s| - 1]) + (if s[|s| - 1] == c then 1 else 0)
  }

  lemma {:induction false} CountAppend(c: char, a: string, b: string)
    ensures Count(c, a + b) == Count(c, a) + Count(c, b)
  {
    if b == [] {
      assert a + b == a;
    } else {
      assert (a + b)[..|a + b| - 1] == a + b[..|b| - 1];
      CountAppend(c, a, b[..|b| - 1]);
    }
  }

  lemma {:induction false} RowTextHasNo(c: char, row: seq<Cell>, n: nat, render: Cell -> string)
    requires n <= |row|
    requires forall cell :: c !in render(cell)
    ensures Count(c, RowText(row, n, render)) == 0
  {
    if n > 0 {
      RowTextHasNo(c, row, n - 1, render);
      CountAppend(c, RowText(row, n - 1, render), render(row[n - 1]));
      CountNone(c, render(row[n - 1]));
    }
  }

  lemma {:induction false} CountNone(c: char, s: string)
    requires c !in s
    ensures Count(c, s) == 0
  {
    if s != [] {
      CountNone(c, s[..|s| - 1]);
    }
  }

  /** When no cell renders to a line break, the text of a non-empty grid holds
      exactly one line break fewer than the grid has rows. */
  lemma {:induction false} LineBreaks(g: Grid, n: nat, render: Cell -> string)
    requires 0 < n <= |g|
    requires forall cell :: '\n' !in render(cell)
    ensures Count('\n', Text(g, n, render)) == if n < |g| then n else n - 1
  {
    var prev := Text(g, n - 1, render);
    var row := RowText(g[n - 1], |g[n - 1]|, render);
    var brk := if n < |g| then "\n" else "";
    if n > 1 {
      LineBreaks(g, n - 1, render);
    }
    assert Count('\n', prev) == n - 1;
    RowTextHasNo('\n', g[n - 1], |g[n - 1]|, render);
    CountAppend('\n', prev, row);
    CountAppend('\n', prev + row, brk);
    BreakCount(n < |g|);
    assert Text(g, n, render) == prev + row + brk;
  }

  lemma BreakCount(b: bool)
    ensures Count('\n', if b then "\n" else "") == if b then 1 else 0
  {
    assert "\n"[..0] == [];
  }

  /** Index in the text at which row `y` starts when every row is `w`
      characters followed by one line break. */
  function RowStart(y: nat, w: nat): nat {
    if y == 0 then 0 else RowStart(y - 1, w) + w + 1
  }

  /** Rows are laid out one after another: `RowStart(y, w)` is `y * (w + 1)`. */
  lemma {:induction false} RowStartIsProduct(y: nat, w: nat)
    ensures RowStart(y, w) == y * (w + 1)
  {
    if y > 0 {
      RowStartIsProduct(y - 1, w);
    }
  }

  lemma {:induction false} RowStartBefore(y: nat, z: nat, w: nat)
    requires y < z
    ensures RowStart(y, w) + w + 1 <= RowStart(z, w)
  {
    if y < z - 1 {
      RowStartBefore(y, z - 1, w);
    }
  }

  /** Rendering each cell as just its character: row `y` occupies `w`
      characters starting at `RowStart(y, w)`, each row but the last is
      followed by a line break, and the text has `h * (w + 1) - 1` characters. */
  lemma PlainText(g: Grid, h: nat, w: nat, render: Cell -> string)
    requires IsGrid(g, h, w) && 0 < h
    requires forall cell :: render(cell) == [cell.ch]
    ensures |Serialize(g, render)| == h * (w + 1) - 1
    ensures forall y, x :: 0 <= y < h && 0 <= x < w ==>
      RowStart(y, w) + x < |Serialize(g, render)| && Serialize(g, render)[RowStart(y, w) + x] == g[y][x].ch
    ensures forall y :: 0 <= y < h - 1 ==>
      RowStart(y, w) + w < |Serialize(g, render)| && Serialize(g, render)[RowStart(y, w) + w] == '\n'
  {
    PlainLength(g, h, w, h, render);
    RowStartIsProduct(h, w);
    forall y, x | 0 <= y < h && 0 <= x < w
      ensures RowStart(y, w) + x < |Serialize(g, render)| && Serialize(g, render)[RowStart(y, w) + x] == g[y][x].ch
    {
      PlainCell(g, h, w, h, render, y, x);
    }
    forall y | 0 <= y < h - 1
      ensures RowStart(y, w) + w < |Serialize(g, render)| && Serialize(g, render)[RowStart(y, w) + w] == '\n'
    {
      PlainBreak(g, h, w, h, render, y);
    }
  }

  lemma {:induction false} PlainRow(row: seq<Cell>, n: nat, render: Cell -> string)
    requires n <= |row|
    requires forall cell :: render(cell) == [cell.ch]
    ensures |RowText(row, n, render)| == n
    ensures forall x :: 0 <= x < n ==> RowText(row, n, render)[x] == row[x].ch
  {
    if n > 0 {
      PlainRow(row, n - 1, render);
    }
  }

  /** The first `n` rows take `w + 1` characters each, less the missing break
      after the last row of the grid. */
  lemma {:induction false} PlainLength(g: Grid, h: nat, w: nat, n: nat, render: Cell -> string)
    requires IsGrid(g, h, w) && n <= h
    requires forall cell :: render(cell) == [cell.ch]
    ensures |Text(g, n, render)| == if n < h || n == 0 then RowStart(n, w) else RowStart(n, w) - 1
  {
    if n > 0 {
      PlainLength(g, h, w, n - 1, render);
      PlainRow(g[n - 1], w, render);
    }
  }

  /** Adding rows keeps the earlier text in place: the text of the first `m`
      rows is a prefix of the text of the first `n`. */
  lemma {:induction false} TextPrefixAt(g: Grid, m: nat, n: nat, render: Cell -> string, i: nat)
    requires m <= n <= |g| && i < |Text(g, m, render)|
    ensures i < |Text(g, n, render)| && Text(g, n, render)[i] == Text(g, m, render)[i]
  {
    if m < n {
      TextPrefixAt(g, m, n - 1, render, i);
      var prev := Text(g, n - 1, render);
      assert Text(g, n, render) == prev + (RowText(g[n - 1], |g[n - 1]|, render) + (if n < |g| then "\n" else ""));
    }
  }

  /** Cell (y, x) of the first `n` rows sits at `RowStart(y, w) + x`. */
  lemma PlainCell(g: Grid, h: nat, w: nat, n: nat, render: Cell -> string, y: nat, x: nat)
    requires IsGrid(g, h, w) && n <= h && y < n && x < w
    requires forall cell :: render(cell) == [cell.ch]
    ensures RowStart(y, w) + x < |Text(g, n, render)| && Text(g, n, render)[RowStart(y, w) + x] == g[y][x].ch
  {
    var t := RowTail(g, h, w, render, y);
    assert t[RowStart(y, w) + x] == g[y][x].ch;
    TextPrefixAt(g, y + 1, n, render, RowStart(y, w) + x);
  }

  /** Every row but the grid's last is followed by a line break at `RowStart(y, w) + w`. */
  lemma PlainBreak(g: Grid, h: nat, w: nat, n: nat, render: Cell -> string, y: nat)
    requires IsGrid(g, h, w) && n <= h && y < n && y < h - 1
    requires forall cell :: render(cell) == [cell.ch]
    ensures RowStart(y, w) + w < |Text(g, n, render)| && Text(g, n, render)[RowStart(y, w) + w] == '\n'
  {
    var t := RowTail(g, h, w, render, y);
    TextPrefixAt(g, y + 1, n, render, RowStart(y, w) + w);
  }

  /** The text of rows 0 to `y` ends with row `y`'s characters, starting at
      `RowStart(y, w)`, and then a line break unless `y` is the last row. */
  lemma RowTail(g: Grid, h: nat, w: nat, render: Cell -> string, y: nat) returns (t: string)
    requires IsGrid(g, h, w) && y < h
    requires forall cell :: render(cell) == [cell.ch]
    ensures t == Text(g, y + 1, render)
    ensures |t| == RowStart(y, w) + w + (if y + 1 < h then 1 else 0)
    ensures forall x :: 0 <= x < w ==> t[RowStart(y, w) + x] == g[y][x].ch
    ensures y + 1 < h ==> t[RowStart(y, w) + w] == '\n'
  {
    PlainLength(g, h, w, y, render);
    PlainRow(g[y], w, render);
    var prev := Text(g, y, render);
    var row := RowText(g[y], w, render);
    var brk := if y + 1 < h then "\n" else "";
    t := Text(g, y + 1, render);
    assert t == prev + row + brk;
    forall x | 0 <= x < w
      ensures t[RowStart(y, w) + x] == g[y][x].ch
    {
      assert t[|prev| + x] == row[x];
    }
  }
}
