/** Board cells and the row-compaction ("clear lines") shared by all three engines.
    tetris_core.py stores `0` for an empty cell and the two rules engines store `None`; both are
    `Empty` here. A placed piece stores its one-letter id, garbage stores 'X'. */
module Cells {

  datatype Option<T> = None | Some(value: T)

  datatype Cell = Empty | Block(id: char)

  type Board = seq<seq<Cell>>

  /** `b` has exactly `h` rows of exactly `w` cells. */
  predicate IsBoard(b: Board, w: int, h: int)
  {
    |b| == h && forall r :: 0 <= r < |b| ==> |b[r]| == w
  }

  function EmptyRow(w: nat): (row: seq<Cell>)
    ensures |row| == w
    ensures forall c :: 0 <= c < w ==> row[c] == Empty
  {
    seq(w, _ => Empty)
  }

  function EmptyRows(w: nat, k: nat): (rows: Board)
    ensures IsBoard(rows, w, k)
    ensures forall r :: 0 <= r < k ==> rows[r] == EmptyRow(w)
  {
    seq(k, _ => EmptyRow(w))
  }

  /** One more empty row on top is one more row of `EmptyRows`. */
  lemma EmptyRowsGrow(w: nat, k: nat)
    ensures [EmptyRow(w)] + EmptyRows(w, k) == EmptyRows(w, k + 1)
  {
    assert forall r :: 0 <= r < k + 1 ==> ([EmptyRow(w)] + EmptyRows(w, k))[r] == EmptyRow(w);
  }

  /** A row survives line clearing iff it still has an empty cell
      (`any(v == 0 ...)` / `any(cell is None ...)`). */
  predicate HasGap(row: seq<Cell>)
  {
    Empty in row
  }

  /** The rows that survive, in their original order (the list comprehension). */
  function Survivors(b: Board): (s: Board)
  {
    if b == [] then [] else (if HasGap(b[0]) then [b[0]] else []) + Survivors(b[1..])
  }

  /** Number of rows without an empty cell. */
  function FullCount(b: Board): nat
  {
    if b == [] then 0 else (if HasGap(b[0]) then 0 else 1) + FullCount(b[1..])
  }

  /** The board after clearing: `cleared` empty rows on top, survivors below. */
  function Cleared(b: Board, w: nat): Board
  {
    EmptyRows(w, FullCount(b)) + Survivors(b)
  }

  lemma {:induction false} SurvivorsCount(b: Board)
    ensures |Survivors(b)| + FullCount(b) == |b|
  {
    if b != [] {
      SurvivorsCount(b[1..]);
    }
  }

  /** Every surviving row has a gap and comes from the board; every board row with a
      gap survives. */
  lemma {:induction false} SurvivorsAreGapRows(b: Board)
    ensures forall i :: 0 <= i < |Survivors(b)| ==> HasGap(Survivors(b)[i]) && Survivors(b)[i] in b
    ensures forall r :: 0 <= r < |b| && HasGap(b[r]) ==> b[r] in Survivors(b)
  {
    if b != [] {
      SurvivorsAreGapRows(b[1..]);
      var head := if HasGap(b[0]) then [b[0]] else [];
      assert Survivors(b) == head + Survivors(b[1..]);
      forall r | 0 <= r < |b| && HasGap(b[r])
        ensures b[r] in Survivors(b)
      {
        if r > 0 {
          assert b[r] == b[1..][r - 1];
        }
      }
    }
  }

  /** `idx` picks the rows of `sub` out of `b` at strictly increasing indices, so `sub`
      is `b` with some rows left out and the rest in their original order. */
  predicate PicksInOrder(idx: seq<nat>, sub: Board, b: Board)
  {
    && |idx| == |sub|
    && (forall k :: 0 <= k < |idx| ==> idx[k] < |b| && b[idx[k]] == sub[k])
    && (forall k, l :: 0 <= k < l < |idx| ==> idx[k] < idx[l])
  }

  /** Proof helper: the indices one row further down. */
  function Shifted(idx: seq<nat>): (r: seq<nat>)
    ensures |r| == |idx| && forall k :: 0 <= k < |idx| ==> r[k] == idx[k] + 1
  {
    seq(|idx|, k requires 0 <= k < |idx| => idx[k] + 1)
  }

  /** Proof helper: rows picked from the tail are picked from the board one index
      further down. */
  lemma PicksFromTail(idx: seq<nat>, sub: Board, b: Board)
    requires b != [] && PicksInOrder(idx, sub, b[1..])
    ensures PicksInOrder(Shifted(idx), sub, b)
  {
  }

  /** Proof helper: the first row, then rows picked from the tail. */
  lemma PicksHeadThenTail(idx: seq<nat>, sub: Board, b: Board)
    requires b != [] && PicksInOrder(idx, sub, b[1..])
    ensures PicksInOrder([0] + Shifted(idx), [b[0]] + sub, b)
  {
    PicksFromTail(idx, sub, b);
  }

  /** Surviving rows keep their relative order: the survivors are picked out of the
      board at strictly increasing indices. */
  lemma {:induction false} SurvivorsKeepOrder(b: Board)
    ensures exists idx :: PicksInOrder(idx, Survivors(b), b)
  {
    if b == [] {
      assert PicksInOrder([], Survivors(b), b);
    } else {
      SurvivorsKeepOrder(b[1..]);
      var ri :| PicksInOrder(ri, Survivors(b[1..]), b[1..]);
      if HasGap(b[0]) {
        PicksHeadThenTail(ri, Survivors(b[1..]), b);
        assert PicksInOrder([0] + Shifted(ri), Survivors(b), b);
      } else {
        PicksFromTail(ri, Survivors(b[1..]), b);
        assert PicksInOrder(Shifted(ri), Survivors(b), b);
      }
    }
  }

  lemma {:induction false} SurvivorsOfBoard(b: Board, w: int, h: int)
    requires IsBoard(b, w, h)
    ensures IsBoard(Survivors(b), w, |Survivors(b)|)
    ensures |Survivors(b)| <= h
  {
    SurvivorsCount(b);
    SurvivorsAreGapRows(b);
  }

  lemma {:induction false} NoFullRows(b: Board)
    requires forall r :: 0 <= r < |b| ==> HasGap(b[r])
    ensures FullCount(b) == 0
  {
    if b != [] {
      NoFullRows(b[1..]);
    }
  }

  /** Clearing keeps the board `w` wide and `h` high, and the survivors sit, in order,
      at the bottom. */
  lemma ClearedShape(b: Board, w: nat, h: int)
    requires IsBoard(b, w, h)
    ensures IsBoard(Cleared(b, w), w, h)
    ensures Cleared(b, w)[FullCount(b)..] == Survivors(b)
    ensures forall r :: 0 <= r < FullCount(b) ==> Cleared(b, w)[r] == EmptyRow(w)
  {
    SurvivorsOfBoard(b, w, h);
    SurvivorsCount(b);
  }

  /** Clearing twice: the second clear finds no full row, provided rows are not empty
      lists (a zero-wide row has no gap and would be cleared every time). */
  lemma ClearIdempotent(b: Board, w: nat, h: int)
    requires IsBoard(b, w, h) && w > 0
    ensures FullCount(Cleared(b, w)) == 0
    ensures Cleared(Cleared(b, w), w) == Cleared(b, w)
  {
    SurvivorsOfBoard(b, w, h);
    SurvivorsAreGapRows(b);
    SurvivorsCount(b);
    var c := Cleared(b, w);
    forall r | 0 <= r < |c|
      ensures HasGap(c[r])
    {
      if r < FullCount(b) {
        assert c[r][0] == Empty;
      } else {
        assert c[r] == Survivors(b)[r - FullCount(b)];
      }
    }
    NoFullRows(c);
    SurvivorsCount(c);
    AllGapsSurvive(c);
  }

  lemma {:induction false} AllGapsSurvive(b: Board)
    requires forall r :: 0 <= r < |b| ==> HasGap(b[r])
    ensures Survivors(b) == b
  {
    if b != [] {
      AllGapsSurvive(b[1..]);
      assert b == [b[0]] + b[1..];
    }
  }

  /** The filter visits rows one at a time: one more row adds itself to the survivors
      exactly when it has a gap. */
  lemma {:induction false} SurvivorsSnoc(b: Board, row: seq<Cell>)
    ensures Survivors(b + [row]) == Survivors(b) + (if HasGap(row) then [row] else [])
  {
    if b == [] {
      assert b + [row] == [row];
      assert [row][1..] == [];
    } else {
      assert (b + [row])[0] == b[0];
      assert (b + [row])[1..] == b[1..] + [row];
      SurvivorsSnoc(b[1..], row);
    }
  }

  /** Models `clear_lines` of all three engines: filter the rows that still have a gap,
      then insert empty rows at the top until the board is `h` rows high again. */
  method ClearFullRows(board: Board, w: nat, h: nat) returns (nb: Board, cleared: int)
    requires IsBoard(board, w, h)
    ensures nb == Cleared(board, w)
    ensures cleared == FullCount(board)
    ensures IsBoard(nb, w, h)
  {
    var newb: Board := [];
    var i := 0;
    while i < |board|
      invariant 0 <= i <= |board|
      invariant newb == Survivors(board[..i])
    {
      SurvivorsSnoc(board[..i], board[i]);
      assert board[..i + 1] == board[..i] + [board[i]];
      if Empty in board[i] {
        newb := newb + [board[i]];
      }
      i := i + 1;
    }
    assert board[..i] == board;
    SurvivorsOfBoard(board, w, h);
    SurvivorsCount(board);
    ghost var s := Survivors(board);
    cleared := h - |newb|;
    while |newb| < h
      invariant |s| <= |newb| <= h
      invariant newb == EmptyRows(w, |newb| - |s|) + s
      decreases h - |newb|
    {
      EmptyRowsGrow(w, |newb| - |s|);
      newb := [EmptyRow(w)] + newb;
    }
    nb := newb;
    ClearedShape(board, w, h);
  }

  /** `str.islower()` on a one-letter id (ids are ASCII letters). */
  predicate IsLower(c: char)
  {
    'a' <= c <= 'z'
  }

  /** `str.lower()` on a one-letter id. */
  function Lower(c: char): (l: char)
    ensures 'A' <= c <= 'Z' ==> IsLower(l) && Upper(l) == c
    ensures !('A' <= c <= 'Z') ==> l == c
  {
    if 'A' <= c <= 'Z' then (c as int + 32) as char else c
  }

  /** `str.upper()` on a one-letter id. */
  function Upper(c: char): (u: char)
    ensures IsLower(c) ==> 'A' <= u <= 'Z'
    ensures !IsLower(c) ==> u == c
  {
    if IsLower(c) then (c as int - 32) as char else c
  }

  /** `upper()` and `lower()` undo each other on letters: a lower-case id comes back
      from its upper case. */
  lemma UpperRoundTrip(c: char)
    ensures IsLower(c) ==> 'A' <= Upper(c) <= 'Z' && Lower(Upper(c)) == c
  {
  }
}
