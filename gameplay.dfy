/** gameplay.py: `build_frame_from_rules`, which composes the board, the ghost, the
    current piece and the preview into one frame, and `frame_to_rgb`, which maps frame
    cells to colours. A frame cell is a board cell: `Empty` is Python's `None` and
    `Block(ch)` a one-character token. */
module Gameplay {
  import opened Cells
  import TetrisRules
  import Tritris

  type Token = (int, int, char)

  /** One write of the overlay loops: the token's character at (x, y) when that lies on
      the frame and, unless `force`, the cell is still empty. */
  function Paint(buf: Board, w: nat, h: nat, t: Token, force: bool): (nb: Board)
    requires IsBoard(buf, w, h)
    ensures IsBoard(nb, w, h)
  {
    if 0 <= t.1 < h && 0 <= t.0 < w && (force || buf[t.1][t.0] == Empty) then
      buf[t.1 := buf[t.1][t.0 := Block(t.2)]]
    else
      buf
  }

  /** One overlay loop: the tokens painted in list order. */
  function Overlay(buf: Board, w: nat, h: nat, cells: seq<Token>, force: bool): (nb: Board)
    requires IsBoard(buf, w, h)
    ensures IsBoard(nb, w, h)
    decreases |cells|
  {
    if cells == [] then buf
    else Paint(Overlay(buf, w, h, cells[..|cells| - 1], force), w, h, cells[|cells| - 1], force)
  }

  /** The character of the last token at (cx, cy), if any. */
  function LastHit(cells: seq<Token>, cx: int, cy: int): Option<char>
    decreases |cells|
  {
    if cells == [] then None
    else if cells[|cells| - 1].0 == cx && cells[|cells| - 1].1 == cy then Some(cells[|cells| - 1].2)
    else LastHit(cells[..|cells| - 1], cx, cy)
  }

  /** The character of the first token at (cx, cy), if any. */
  function FirstHit(cells: seq<Token>, cx: int, cy: int): Option<char>
    decreases |cells|
  {
    if cells == [] then None
    else if cells[0].0 == cx && cells[0].1 == cy then Some(cells[0].2)
    else FirstHit(cells[1..], cx, cy)
  }

  /** The whole of `build_frame_from_rules` on the engine's lists: the board, then the
      ghost into empty cells, then the current piece over anything, then the preview
      into cells still empty. */
  function Composed(w: nat, h: nat, board: Board, ghosts: seq<Token>, current: seq<Token>, preview: seq<Token>): (f: Board)
    requires IsBoard(board, w, h)
    ensures IsBoard(f, w, h)
  {
    Overlay(Overlay(Overlay(board, w, h, ghosts, false), w, h, current, true), w, h, preview, false)
  }

  // ---------------------------------------------------------------------------
  // Properties of the overlays

  /** Each cell of a forced overlay holds the last token listed there, or what it held
      before; tokens off the frame change nothing. */
  lemma {:induction false} OverlayForced(buf: Board, w: nat, h: nat, cells: seq<Token>, cx: int, cy: int)
    requires IsBoard(buf, w, h) && 0 <= cx < w && 0 <= cy < h
    ensures Overlay(buf, w, h, cells, true)[cy][cx] ==
              (match LastHit(cells, cx, cy) case Some(c) => Block(c) case None => buf[cy][cx])
    decreases |cells|
  {
    if cells != [] {
      OverlayForced(buf, w, h, cells[..|cells| - 1], cx, cy);
    }
  }

  /** The first hit of a list is the first hit of its prefix without the last token, or
      failing that the last token. */
  lemma {:induction false} FirstHitSnoc(cells: seq<Token>, cx: int, cy: int)
    requires cells != []
    ensures var last := cells[|cells| - 1];
            FirstHit(cells, cx, cy) ==
              (match FirstHit(cells[..|cells| - 1], cx, cy)
               case Some(c) => Some(c)
               case None => if last.0 == cx && last.1 == cy then Some(last.2) else None)
    decreases |cells|
  {
    if |cells| > 1 {
      assert cells[1..][..|cells[1..]| - 1] == cells[..|cells| - 1][1..];
      FirstHitSnoc(cells[1..], cx, cy);
    }
  }

  /** Each cell of a filling overlay keeps a non-empty value; an empty cell receives the
      first token listed there, if any; tokens off the frame change nothing. */
  lemma {:induction false} OverlayFills(buf: Board, w: nat, h: nat, cells: seq<Token>, cx: int, cy: int)
    requires IsBoard(buf, w, h) && 0 <= cx < w && 0 <= cy < h
    ensures Overlay(buf, w, h, cells, false)[cy][cx] ==
              (if buf[cy][cx] != Empty then buf[cy][cx]
               else match FirstHit(cells, cx, cy) case Some(c) => Block(c) case None => Empty)
    decreases |cells|
  {
    if cells != [] {
      OverlayFills(buf, w, h, cells[..|cells| - 1], cx, cy);
      FirstHitSnoc(cells, cx, cy);
    }
  }

  /** The overlay priority of `build_frame_from_rules`: a cell shows the current piece if
      it covers it; otherwise the board if occupied; otherwise the ghost; otherwise the
      preview; otherwise it stays empty. */
  lemma FramePriority(w: nat, h: nat, board: Board, ghosts: seq<Token>, current: seq<Token>, preview: seq<Token>,
                      cx: int, cy: int)
    requires IsBoard(board, w, h) && 0 <= cx < w && 0 <= cy < h
    ensures Composed(w, h, board, ghosts, current, preview)[cy][cx] ==
              if LastHit(current, cx, cy).Some? then Block(LastHit(current, cx, cy).value)
              else if board[cy][cx] != Empty then board[cy][cx]
              else if FirstHit(ghosts, cx, cy).Some? then Block(FirstHit(ghosts, cx, cy).value)
              else if FirstHit(preview, cx, cy).Some? then Block(FirstHit(preview, cx, cy).value)
              else Empty
  {
    var g := Overlay(board, w, h, ghosts, false);
    var c := Overlay(g, w, h, current, true);
    OverlayFills(board, w, h, ghosts, cx, cy);
    OverlayForced(g, w, h, current, cx, cy);
    OverlayFills(c, w, h, preview, cx, cy);
  }

  // ---------------------------------------------------------------------------
  // The loops

  /** The copy loops of `build_frame_from_rules`: a frame of `None`, then each board
      cell copied in. */
  method CopyBoard(board: Board, w: nat, h: nat) returns (buf: Board)
    requires IsBoard(board, w, h)
    ensures buf == board
  {
    buf := EmptyRows(w, h);
    var y := 0;
    while y < h
      invariant 0 <= y <= h && IsBoard(buf, w, h)
      invariant forall r :: 0 <= r < y ==> buf[r] == board[r]
      invariant forall r :: y <= r < h ==> buf[r] == EmptyRow(w)
    {
      var x := 0;
      while x < w
        invariant 0 <= x <= w && IsBoard(buf, w, h)
        invariant forall r :: 0 <= r < y ==> buf[r] == board[r]
        invariant forall r :: y < r < h ==> buf[r] == EmptyRow(w)
        invariant buf[y][..x] == board[y][..x]
      {
        buf := buf[y := buf[y][x := board[y][x]]];
        x := x + 1;
      }
      assert buf[y] == buf[y][..w] && board[y] == board[y][..w];
      y := y + 1;
    }
  }

  /** One overlay loop of `build_frame_from_rules`. */
  method OverlayCells(buf: Board, w: nat, h: nat, cells: seq<Token>, force: bool) returns (nb: Board)
    requires IsBoard(buf, w, h)
    ensures nb == Overlay(buf, w, h, cells, force)
  {
    nb := buf;
    var i := 0;
    while i < |cells|
      invariant 0 <= i <= |cells| && nb == Overlay(buf, w, h, cells[..i], force)
    {
      var (x, y, ch) := cells[i];
      if 0 <= y < h && 0 <= x < w && (force || nb[y][x] == Empty) {
        nb := nb[y := nb[y][x := Block(ch)]];
      }
      assert cells[..i + 1][..i] == cells[..i];
      i := i + 1;
    }
    assert cells[..|cells|] == cells;
  }

  /** `build_frame_from_rules` on the board and the three cell lists. */
  method BuildFrame(board: Board, w: nat, h: nat, ghosts: seq<Token>, current: seq<Token>, preview: seq<Token>)
    returns (buf: Board)
    requires IsBoard(board, w, h)
    ensures buf == Composed(w, h, board, ghosts, current, preview)
  {
    buf := CopyBoard(board, w, h);
    buf := OverlayCells(buf, w, h, ghosts, false);
    buf := OverlayCells(buf, w, h, current, true);
    buf := OverlayCells(buf, w, h, preview, false);
  }

  /** `build_frame_from_rules` with the tetromino engine; the engine is only read. */
  method BuildFrameFromTetris(rules: TetrisRules.RulesEngine) returns (buf: Board)
    requires rules.Valid()
    ensures buf == Composed(rules.width, rules.height, rules.st.board,
                            TetrisRules.GhostCells(rules.width, rules.height, rules.st),
                            TetrisRules.ShapeCells(TetrisRules.Shape(rules.st), rules.st.x, rules.st.y, rules.st.current.value, 16),
                            TetrisRules.PreviewCells(rules.width, rules.st))
  {
    var ghosts := rules.GetGhostCells();
    var current := rules.GetCurrentCells();
    var preview := rules.GetPreviewCells();
    buf := BuildFrame(rules.st.board, rules.width, rules.height, ghosts, current, preview);
  }

  /** `build_frame_from_rules` with the triomino engine; the engine is only read. */
  method BuildFrameFromTritris(rules: Tritris.TritrisRules) returns (buf: Board)
    requires rules.Valid()
    ensures buf == Composed(rules.width, rules.height, rules.st.board,
                            Tritris.GhostCells(rules.width, rules.height, rules.st),
                            Tritris.OffsetCells(Tritris.Shape(rules.st), rules.st.x, rules.st.y, rules.st.current.value),
                            Tritris.PreviewCells(rules.width, rules.st))
  {
    var ghosts := rules.GetGhostCells();
    var current := rules.GetCurrentCells();
    var preview := rules.GetPreviewCells();
    buf := BuildFrame(rules.st.board, rules.width, rules.height, ghosts, current, preview);
  }

  // ---------------------------------------------------------------------------
  // Colours

  type Rgb = (int, int, int)

  /** `COLORS_TET`. */
  function TetColor(ch: char): Option<Rgb>
  {
    if ch == 'I' then Some((0, 255, 255))
    else if ch == 'O' then Some((255, 255, 0))
    else if ch == 'T' then Some((160, 0, 160))
    else if ch == 'S' then Some((0, 255, 0))
    else if ch == 'Z' then Some((255, 0, 0))
    else if ch == 'J' then Some((0, 0, 255))
    else if ch == 'L' then Some((255, 128, 0))
    else if ch == 'X' then Some((120, 120, 120))
    else None
  }

  /** `COLORS_TRI`, including its lower-case key "x". */
  function TriColor(ch: char): Option<Rgb>
  {
    if ch == 'I' then Some((20, 20, 255))
    else if ch == 'L' then Some((255, 20, 16))
    else if ch == 'D' then Some((20, 255, 20))
    else if ch == 'x' then Some((12, 12, 12))
    else None
  }

  /** The colour `frame_to_rgb` gives one cell: black for `None`, a dim grey for a
      lower-case token (a ghost or a preview), otherwise the mode's table entry for the
      upper-cased token, grey when it has none. */
  function CellColor(c: Cell, mode: string): Rgb
  {
    match c
    case Empty => (0, 0, 0)
    case Block(t) =>
      if IsLower(t) then (10, 10, 10)
      else
        var ch := Upper(t);
        var found := if mode == "tetris" then TetColor(ch) else TriColor(ch);
        if found.Some? then found.value else (120, 120, 120)
  }

  predicate InByte(n: int)
  {
    0 <= n < 256
  }

  /** Every colour `frame_to_rgb` produces has its components in 0..255. */
  lemma CellColorInRange(c: Cell, mode: string)
    ensures var rgb := CellColor(c, mode);
            InByte(rgb.0) && InByte(rgb.1) && InByte(rgb.2)
  {
  }

  /** The lower-case key "x" of `COLORS_TRI` is never looked up: a token reaching the
      table is not lower-case, so its upper-cased form is itself and is not 'x'; a
      lower-case 'x' token is shown dim instead. */
  lemma TriLowerKeyUnused(t: char)
    ensures CellColor(Block(t), "tritris") != (12, 12, 12)
  {
  }

  /** Rows of `frame` carry at least as many cells as its first row. */
  predicate WideRows(frame: seq<seq<Cell>>)
  {
    |frame| > 0 && forall y :: 0 <= y < |frame| ==> |frame[y]| >= |frame[0]|
  }

  /** `frame_to_rgb`: the height of the frame, the width of its first row. */
  method FrameToRgb(frame: seq<seq<Cell>>, mode: string) returns (out: seq<seq<Rgb>>)
    requires WideRows(frame)
    ensures |out| == |frame|
    ensures forall y :: 0 <= y < |out| ==> |out[y]| == |frame[0]|
    ensures forall y, x :: 0 <= y < |out| && 0 <= x < |frame[0]| ==> out[y][x] == CellColor(frame[y][x], mode)
  {
    var h := |frame|;
    var w := |frame[0]|;
    out := [];
    var y := 0;
    while y < h
      invariant 0 <= y <= h && |out| == y
      invariant forall r :: 0 <= r < y ==> |out[r]| == w
      invariant forall r, x :: 0 <= r < y && 0 <= x < w ==> out[r][x] == CellColor(frame[r][x], mode)
    {
      var row: seq<Rgb> := [];
      var x := 0;
      while x < w
        invariant 0 <= x <= w && |row| == x
        invariant forall i :: 0 <= i < x ==> row[i] == CellColor(frame[y][i], mode)
      {
        var cell := frame[y][x];
        var col: Rgb;
        if cell == Empty {
          col := (0, 0, 0);
        } else {
          var ch := Upper(cell.id);
          if IsLower(cell.id) {
            col := (10, 10, 10);
          } else {
            var found := if mode == "tetris" then TetColor(ch) else TriColor(ch);
            col := if found.Some? then found.value else (120, 120, 120);
          }
        }
        row := row + [col];
        x := x + 1;
      }
      out := out + [row];
      y := y + 1;
    }
  }
}
