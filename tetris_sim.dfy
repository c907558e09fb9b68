/** sim/tetris_sim.py: `InputState`, the per-direction auto-repeat counters, and
    `TetrisSim`, which drives a rules engine with moves, drops, auto-repeat, a fall
    accumulator and a lock-delay timer. The engine here is `RulesEngine`; the fall delay
    (`level_to_delay`) is a parameter; timers are exact reals. */
module Sim {
  import opened Cells
  import opened Bag
  import opened Tetromino
  import opened TetrisRules

  /** The fields `InputState` updates. */
  datatype Pad = Pad(leftHeld: bool, rightHeld: bool, leftCounter: int, rightCounter: int)

  /** The fields `TetrisSim` updates itself; `_fall_acc` starts at 0.0. */
  datatype Timers = Timers(lockTimer: real, fallAcc: real, lastLines: int)

  /** Everything one simulator call reads and writes: the engine's fields, the input
      counters and the simulator's timers. */
  datatype World = World(eng: RState, pad: Pad, sim: Timers)

  // ---------------------------------------------------------------------------
  // Single actions

  /** `move(dx)`: one column in the direction of dx's sign, only if the piece fits there;
      the lock timer restarts only on success. */
  function MoveStep(w: nat, h: nat, s: World, dx: int): (t: World)
    requires Inv(w, h, s.eng)
    ensures Inv(w, h, t.eng)
  {
    var e := s.eng;
    if dx < 0 && Fits(w, h, e, e.x - 1, e.y, e.rotation) then
      s.(eng := e.(x := e.x - 1), sim := s.sim.(lockTimer := 0.0))
    else if dx > 0 && Fits(w, h, e, e.x + 1, e.y, e.rotation) then
      s.(eng := e.(x := e.x + 1), sim := s.sim.(lockTimer := 0.0))
    else
      s
  }

  /** -1, 0 or 1 after the sign of `dx`. */
  function Sign(dx: int): int
  {
    if dx < 0 then -1 else if dx > 0 then 1 else 0
  }

  /** `rotate`: `try_rotate`, restarting the lock timer exactly when it rotated. */
  function RotateStep(w: nat, h: nat, s: World): (t: World)
    requires Inv(w, h, s.eng)
    ensures Inv(w, h, t.eng)
  {
    var e := Rotated(w, h, s.eng);
    s.(eng := e, sim := if e.rotation != s.eng.rotation then s.sim.(lockTimer := 0.0) else s.sim)
  }

  /** The piece fits one row further down. */
  predicate CanFall(w: nat, h: nat, e: RState)
    requires Inv(w, h, e)
  {
    Fits(w, h, e, e.x, e.y + 1, e.rotation)
  }

  /** `soft_drop`: one row down and a fresh lock timer when that fits, otherwise nothing. */
  function SoftDropStep(w: nat, h: nat, s: World): (t: World)
    requires Inv(w, h, s.eng)
    ensures Inv(w, h, t.eng)
  {
    if CanFall(w, h, s.eng) then s.(eng := s.eng.(y := s.eng.y + 1), sim := s.sim.(lockTimer := 0.0))
    else s
  }

  /** `lock_piece` followed by `clear_lines`: the engine afterwards. */
  function Settled(w: nat, h: nat, e: RState, p1: seq<char>, p2: seq<char>): (t: RState)
    requires Inv(w, h, e) && IsShuffleOf(p1, Keys) && IsShuffleOf(p2, Keys)
    ensures Inv(w, h, t)
  {
    var l := Locked(w, h, e, p1, p2);
    ClearedShape(l.board, w, h);
    l.(board := Cleared(l.board, w))
  }

  /** The count `clear_lines` returns after `lock_piece`. */
  function SettledLines(w: nat, h: nat, e: RState, p1: seq<char>, p2: seq<char>): int
    requires Inv(w, h, e) && IsShuffleOf(p1, Keys) && IsShuffleOf(p2, Keys)
  {
    FullCount(Locked(w, h, e, p1, p2).board)
  }

  /** `hard_drop`: down to the landing row, then lock, clear, a fresh lock timer and the
      cleared count in `last_lines`. */
  function HardDropStep(w: nat, h: nat, s: World, p1: seq<char>, p2: seq<char>): (t: World)
    requires Inv(w, h, s.eng) && IsShuffleOf(p1, Keys) && IsShuffleOf(p2, Keys)
    ensures Inv(w, h, t.eng)
  {
    var e := s.eng.(y := GhostRow(w, h, s.eng));
    s.(eng := Settled(w, h, e, p1, p2), sim := s.sim.(lockTimer := 0.0, lastLines := SettledLines(w, h, e, p1, p2)))
  }

  // ---------------------------------------------------------------------------
  // Auto-repeat and gravity

  /** Auto-repeat attempts a move on the tick whose counter is `counter`: at once, then
      after the delay `das` every `arr` ticks. */
  predicate Fires(counter: int, das: int, arr: int)
    requires arr > 0
  {
    counter == 0 || (counter > das && (counter - das) % arr == 0)
  }

  /** The left half of `update_input_autorepeat`. */
  function RepeatLeft(w: nat, h: nat, s: World, das: int, arr: int): (t: World)
    requires Inv(w, h, s.eng) && arr > 0
    ensures Inv(w, h, t.eng)
  {
    if s.pad.leftHeld then
      var m := if Fires(s.pad.leftCounter, das, arr) then MoveStep(w, h, s, -1) else s;
      m.(pad := m.pad.(leftCounter := m.pad.leftCounter + 1))
    else
      s.(pad := s.pad.(leftCounter := 0))
  }

  /** The right half of `update_input_autorepeat`. */
  function RepeatRight(w: nat, h: nat, s: World, das: int, arr: int): (t: World)
    requires Inv(w, h, s.eng) && arr > 0
    ensures Inv(w, h, t.eng)
  {
    if s.pad.rightHeld then
      var m := if Fires(s.pad.rightCounter, das, arr) then MoveStep(w, h, s, 1) else s;
      m.(pad := m.pad.(rightCounter := m.pad.rightCounter + 1))
    else
      s.(pad := s.pad.(rightCounter := 0))
  }

  /** `update_input_autorepeat`: left first, then right. */
  function RepeatStep(w: nat, h: nat, s: World, das: int, arr: int): (t: World)
    requires Inv(w, h, s.eng) && arr > 0
    ensures Inv(w, h, t.eng)
  {
    RepeatRight(w, h, RepeatLeft(w, h, s, das, arr), das, arr)
  }

  /** The gravity delay of one `update`: a tenth of the fall speed while soft drop is
      held. */
  function Delay(fallSpeed: real, softHold: bool): real
  {
    fallSpeed * (if softHold then 0.1 else 1.0)
  }

  /** One gravity step: down one row with a fresh lock timer when that fits; otherwise
      the lock timer grows by `delay` and, once it reaches `lockDelay`, the piece locks,
      lines clear and the timer restarts. */
  function GravityStep(w: nat, h: nat, s: World, delay: real, lockDelay: real, p1: seq<char>, p2: seq<char>): (t: World)
    requires Inv(w, h, s.eng) && IsShuffleOf(p1, Keys) && IsShuffleOf(p2, Keys)
    ensures Inv(w, h, t.eng)
  {
    if CanFall(w, h, s.eng) then
      s.(eng := s.eng.(y := s.eng.y + 1), sim := s.sim.(lockTimer := 0.0))
    else
      BlockedStep(w, h, s, delay, lockDelay, p1, p2)
  }

  /** A gravity step whose row below is blocked: the lock timer grows by `delay` and,
      once it reaches `lockDelay`, the piece locks, lines clear and the timer restarts. */
  function BlockedStep(w: nat, h: nat, s: World, delay: real, lockDelay: real, p1: seq<char>, p2: seq<char>): (t: World)
    requires Inv(w, h, s.eng) && IsShuffleOf(p1, Keys) && IsShuffleOf(p2, Keys)
    ensures Inv(w, h, t.eng)
  {
    if s.sim.lockTimer + delay >= lockDelay then
      s.(eng := Settled(w, h, s.eng, p1, p2),
         sim := s.sim.(lastLines := SettledLines(w, h, s.eng, p1, p2), lockTimer := 0.0))
    else
      s.(sim := s.sim.(lockTimer := s.sim.lockTimer + delay))
  }

  /** The gravity half of `update`: add dt to the accumulator; when it has reached the
      delay, take the delay off it and make one gravity step. */
  function FallStep(w: nat, h: nat, r: World, dt: real, delay: real, lockDelay: real,
                    p1: seq<char>, p2: seq<char>): (t: World)
    requires Inv(w, h, r.eng) && IsShuffleOf(p1, Keys) && IsShuffleOf(p2, Keys)
    ensures Inv(w, h, t.eng)
  {
    var acc := r.sim.fallAcc + dt;
    if acc >= delay then GravityStep(w, h, r.(sim := r.sim.(fallAcc := acc - delay)), delay, lockDelay, p1, p2)
    else r.(sim := r.sim.(fallAcc := acc))
  }

  /** `update(dt, soft_hold)`: auto-repeat, then the gravity half. */
  function UpdateStep(w: nat, h: nat, s: World, dt: real, softHold: bool, fallSpeed: real, lockDelay: real,
                      das: int, arr: int, p1: seq<char>, p2: seq<char>): (t: World)
    requires Inv(w, h, s.eng) && arr > 0 && IsShuffleOf(p1, Keys) && IsShuffleOf(p2, Keys)
    ensures Inv(w, h, t.eng)
  {
    FallStep(w, h, RepeatStep(w, h, s, das, arr), dt, Delay(fallSpeed, softHold), lockDelay, p1, p2)
  }

  // ---------------------------------------------------------------------------
  // Properties

  /** `move` shifts by at most one column, in the direction of dx's sign, exactly when the
      piece fits there; on success only x changes and the lock timer restarts, otherwise
      nothing changes (in particular for dx == 0). */
  lemma MoveAllOrNothing(w: nat, h: nat, s: World, dx: int)
    requires Inv(w, h, s.eng)
    ensures var t := MoveStep(w, h, s, dx);
            var d := Sign(dx);
            && (t != s <==> d != 0 && Fits(w, h, s.eng, s.eng.x + d, s.eng.y, s.eng.rotation))
            && (t != s ==> t == s.(eng := s.eng.(x := s.eng.x + d), sim := s.sim.(lockTimer := 0.0)))
  {
  }

  /** A move that succeeded from a position where the piece fits is undone by the move
      the other way. */
  lemma MoveBackUndoes(w: nat, h: nat, s: World, dx: int)
    requires Inv(w, h, s.eng) && Fits(w, h, s.eng, s.eng.x, s.eng.y, s.eng.rotation)
    requires MoveStep(w, h, s, dx) != s
    ensures MoveStep(w, h, MoveStep(w, h, s, dx), -dx).eng == s.eng
  {
    MoveAllOrNothing(w, h, s, dx);
    var t := MoveStep(w, h, s, dx);
    assert t.eng.(x := s.eng.x) == s.eng;
  }

  /** `rotate` restarts the lock timer exactly when `try_rotate` succeeded, and otherwise
      leaves everything as it was. */
  lemma RotateResetsTimer(w: nat, h: nat, s: World)
    requires Inv(w, h, s.eng)
    ensures var t := RotateStep(w, h, s);
            && t.pad == s.pad && t.sim.lastLines == s.sim.lastLines && t.sim.fallAcc == s.sim.fallAcc
            && (t.eng.rotation != s.eng.rotation ==> t.eng.rotation == (s.eng.rotation + 1) % 4 && t.sim.lockTimer == 0.0)
            && (t.eng.rotation == s.eng.rotation ==> t == s)
  {
    RotatedOutcome(w, h, s.eng);
  }

  /** `soft_drop` moves down exactly one row and restarts the lock timer when the row
      below fits, and changes nothing otherwise. */
  lemma SoftDropOneRow(w: nat, h: nat, s: World)
    requires Inv(w, h, s.eng)
    ensures var t := SoftDropStep(w, h, s);
            && (CanFall(w, h, s.eng) ==> t.eng == s.eng.(y := s.eng.y + 1) && t.sim == s.sim.(lockTimer := 0.0) && t.pad == s.pad)
            && (!CanFall(w, h, s.eng) ==> t == s)
  {
  }

  /** `hard_drop` locks the piece at the ghost row (`GhostRowFacts` says which row that
      is), then clears the full rows and records their number. */
  lemma HardDropLocksAtGhost(w: nat, h: nat, s: World, p1: seq<char>, p2: seq<char>)
    requires Inv(w, h, s.eng) && IsShuffleOf(p1, Keys) && IsShuffleOf(p2, Keys)
    ensures var gy := GhostRow(w, h, s.eng);
            var t := HardDropStep(w, h, s, p1, p2);
            && t.eng.board == Cleared(Placed(w, h, s.eng.(y := gy)).board, w)
            && t.sim.lockTimer == 0.0 && t.sim.lastLines == FullCount(Placed(w, h, s.eng.(y := gy)).board)
            && t.pad == s.pad
  {
    var gy := GhostRow(w, h, s.eng);
    var e := s.eng.(y := gy);
    var t := HardDropStep(w, h, s, p1, p2);
    assert t.eng == Settled(w, h, e, p1, p2) && t.sim.lastLines == SettledLines(w, h, e, p1, p2);
    LockKeepsPlacedBoard(w, h, e, p1, p2);
    assert Settled(w, h, e, p1, p2).board == Cleared(Locked(w, h, e, p1, p2).board, w);
    assert t.eng.board == Cleared(Placed(w, h, e).board, w);
    assert t.sim.lastLines == FullCount(Placed(w, h, e).board);
    assert t.sim.lockTimer == 0.0 && t.pad == s.pad;
  }

  /** While a direction is held its counter rises by exactly one per tick; while it is
      released the counter is 0; the held flags are not changed. */
  lemma RepeatCounters(w: nat, h: nat, s: World, das: int, arr: int)
    requires Inv(w, h, s.eng) && arr > 0
    ensures var t := RepeatStep(w, h, s, das, arr);
            && t.pad.leftHeld == s.pad.leftHeld && t.pad.rightHeld == s.pad.rightHeld
            && t.pad.leftCounter == (if s.pad.leftHeld then s.pad.leftCounter + 1 else 0)
            && t.pad.rightCounter == (if s.pad.rightHeld then s.pad.rightCounter + 1 else 0)
  {
  }

  /** A repeat step only ever moves the piece sideways: it changes x by at most two
      columns (one per held direction) and keeps everything else of the engine, the
      accumulator and `last_lines`; the lock timer is kept or restarted at 0. */
  lemma RepeatOnlyShifts(w: nat, h: nat, s: World, das: int, arr: int)
    requires Inv(w, h, s.eng) && arr > 0
    ensures var t := RepeatStep(w, h, s, das, arr);
            && t.eng == s.eng.(x := t.eng.x)
            && -1 <= t.eng.x - RepeatLeft(w, h, s, das, arr).eng.x <= 1
            && -1 <= RepeatLeft(w, h, s, das, arr).eng.x - s.eng.x <= 0
            && t.sim.fallAcc == s.sim.fallAcc && t.sim.lastLines == s.sim.lastLines
            && (t.sim.lockTimer == s.sim.lockTimer || t.sim.lockTimer == 0.0)
  {
  }

  /** The number of moves attempted over the first `n` ticks of a hold. */
  function Attempts(n: nat, das: int, arr: int): nat
    requires arr > 0
  {
    if n == 0 then 0 else Attempts(n - 1, das, arr) + (if Fires(n - 1, das, arr) then 1 else 0)
  }

  lemma MulAtLeast(d: int, a: int)
    requires d >= 1 && a > 0
    ensures d * a >= a
  {
    var e := d - 1;
    assert d * a == e * a + a;
  }

  /** Euclidean division is determined by a quotient and an in-range remainder. */
  lemma DivUnique(k: int, arr: int, q: int, r: int)
    requires arr > 0 && 0 <= r < arr && k == q * arr + r
    ensures k / arr == q
  {
    var q0 := k / arr;
    if q > q0 {
      MulAtLeast(q - q0, arr);
    } else if q < q0 {
      MulAtLeast(q0 - q, arr);
    }
  }

  /** One more unit adds one to the quotient exactly when it makes the remainder 0. */
  lemma DivStep(k: int, arr: int)
    requires arr > 0 && k > 0
    ensures k / arr == (k - 1) / arr + (if k % arr == 0 then 1 else 0)
  {
    var q, r := (k - 1) / arr, (k - 1) % arr;
    if r == arr - 1 {
      DivUnique(k, arr, q + 1, 0);
      assert k % arr == 0;
    } else {
      DivUnique(k, arr, q, r + 1);
      assert k % arr == r + 1;
    }
  }

  /** Holding a direction for `n` ticks attempts one move at once and then one every
      `arr` ticks after the first `das`: 1 + (n - 1 - das) / arr moves once the delay
      has passed. */
  lemma {:induction false} AttemptsCount(n: nat, das: nat, arr: int)
    requires arr > 0 && n > 0
    ensures Attempts(n, das, arr) == 1 + (if n - 1 > das then (n - 1 - das) / arr else 0)
  {
    if n > 1 {
      AttemptsCount(n - 1, das, arr);
      var c := n - 1;
      if c > das {
        DivStep(c - das, arr);
      }
    }
  }

  /** The gravity delay, whether the accumulator fired. */
  predicate GravityFires(r: World, dt: real, delay: real)
  {
    r.sim.fallAcc + dt >= delay
  }

  /** The piece locks in an update exactly when gravity fires, the row below is blocked
      and the lock timer reaches the lock delay. */
  predicate LocksNow(w: nat, h: nat, r: World, dt: real, delay: real, lockDelay: real)
    requires Inv(w, h, r.eng)
  {
    GravityFires(r, dt, delay) && !CanFall(w, h, r.eng) && r.sim.lockTimer + delay >= lockDelay
  }

  /** `update` makes at most one gravity step: after auto-repeat the accumulator grows by
      dt and, when it reaches the delay, loses exactly the delay (it is not zeroed). */
  lemma UpdateAccumulates(w: nat, h: nat, s: World, dt: real, softHold: bool, fallSpeed: real, lockDelay: real,
                          das: int, arr: int, p1: seq<char>, p2: seq<char>)
    requires Inv(w, h, s.eng) && arr > 0 && IsShuffleOf(p1, Keys) && IsShuffleOf(p2, Keys)
    ensures var r := RepeatStep(w, h, s, das, arr);
            var delay := Delay(fallSpeed, softHold);
            var t := UpdateStep(w, h, s, dt, softHold, fallSpeed, lockDelay, das, arr, p1, p2);
            t.sim.fallAcc == r.sim.fallAcc + dt - (if GravityFires(r, dt, delay) then delay else 0.0)
  {
  }

  /** An update that does not lock keeps the piece, its column and rotation and the
      board as auto-repeat left them, and moves it down by at most one row: by one with a
      fresh lock timer when gravity fires and the row below fits. */
  lemma UpdateFallsAtMostOne(w: nat, h: nat, s: World, dt: real, softHold: bool, fallSpeed: real, lockDelay: real,
                             das: int, arr: int, p1: seq<char>, p2: seq<char>)
    requires Inv(w, h, s.eng) && arr > 0 && IsShuffleOf(p1, Keys) && IsShuffleOf(p2, Keys)
    requires !LocksNow(w, h, RepeatStep(w, h, s, das, arr), dt, Delay(fallSpeed, softHold), lockDelay)
    ensures var r := RepeatStep(w, h, s, das, arr);
            var t := UpdateStep(w, h, s, dt, softHold, fallSpeed, lockDelay, das, arr, p1, p2);
            && t.eng == r.eng.(y := t.eng.y)
            && (GravityFires(r, dt, Delay(fallSpeed, softHold)) && CanFall(w, h, r.eng) ==>
                  t.eng.y == r.eng.y + 1 && t.sim.lockTimer == 0.0)
            && (!(GravityFires(r, dt, Delay(fallSpeed, softHold)) && CanFall(w, h, r.eng)) ==> t.eng.y == r.eng.y)
            && t.sim.lastLines == r.sim.lastLines
  {
  }

  /** When an update locks, the engine is the locked-and-cleared one, `last_lines` holds
      the cleared count and the lock timer restarts at 0. */
  lemma UpdateLocks(w: nat, h: nat, s: World, dt: real, softHold: bool, fallSpeed: real, lockDelay: real,
                    das: int, arr: int, p1: seq<char>, p2: seq<char>)
    requires Inv(w, h, s.eng) && arr > 0 && IsShuffleOf(p1, Keys) && IsShuffleOf(p2, Keys)
    requires LocksNow(w, h, RepeatStep(w, h, s, das, arr), dt, Delay(fallSpeed, softHold), lockDelay)
    ensures var r := RepeatStep(w, h, s, das, arr);
            var t := UpdateStep(w, h, s, dt, softHold, fallSpeed, lockDelay, das, arr, p1, p2);
            && t.eng == Settled(w, h, r.eng, p1, p2)
            && t.sim.lastLines == SettledLines(w, h, r.eng, p1, p2) && t.sim.lockTimer == 0.0
  {
    var r := RepeatStep(w, h, s, das, arr);
    var delay := Delay(fallSpeed, softHold);
    var u := r.(sim := r.sim.(fallAcc := r.sim.fallAcc + dt - delay));
    assert UpdateStep(w, h, s, dt, softHold, fallSpeed, lockDelay, das, arr, p1, p2)
        == BlockedStep(w, h, u, delay, lockDelay, p1, p2);
  }

  /** A gravity step keeps the lock timer in [0, lockDelay) when the delay is not
      negative. */
  lemma GravityKeepsTimers(w: nat, h: nat, s: World, delay: real, lockDelay: real, p1: seq<char>, p2: seq<char>)
    requires Inv(w, h, s.eng) && IsShuffleOf(p1, Keys) && IsShuffleOf(p2, Keys)
    requires lockDelay > 0.0 && delay >= 0.0 && 0.0 <= s.sim.lockTimer < lockDelay
    ensures var t := GravityStep(w, h, s, delay, lockDelay, p1, p2);
            0.0 <= t.sim.lockTimer < lockDelay && t.sim.fallAcc == s.sim.fallAcc
  {
  }

  /** The timers stay in range: with a positive lock delay, a non-negative fall speed and
      non-negative dt, a non-negative accumulator and a lock timer in [0, lockDelay) stay
      so. */
  lemma UpdateKeepsTimers(w: nat, h: nat, s: World, dt: real, softHold: bool, fallSpeed: real, lockDelay: real,
                          das: int, arr: int, p1: seq<char>, p2: seq<char>)
    requires Inv(w, h, s.eng) && arr > 0 && IsShuffleOf(p1, Keys) && IsShuffleOf(p2, Keys)
    requires lockDelay > 0.0 && fallSpeed >= 0.0 && dt >= 0.0
    requires s.sim.fallAcc >= 0.0 && 0.0 <= s.sim.lockTimer < lockDelay
    ensures var t := UpdateStep(w, h, s, dt, softHold, fallSpeed, lockDelay, das, arr, p1, p2);
            t.sim.fallAcc >= 0.0 && 0.0 <= t.sim.lockTimer < lockDelay
  {
    RepeatOnlyShifts(w, h, s, das, arr);
    FallKeepsTimers(w, h, RepeatStep(w, h, s, das, arr), dt, Delay(fallSpeed, softHold), lockDelay, p1, p2);
  }

  /** The gravity half of `update` keeps the timers in range when dt and the delay are
      not negative. */
  lemma FallKeepsTimers(w: nat, h: nat, r: World, dt: real, delay: real, lockDelay: real, p1: seq<char>, p2: seq<char>)
    requires Inv(w, h, r.eng) && IsShuffleOf(p1, Keys) && IsShuffleOf(p2, Keys)
    requires lockDelay > 0.0 && delay >= 0.0 && dt >= 0.0
    requires r.sim.fallAcc >= 0.0 && 0.0 <= r.sim.lockTimer < lockDelay
    ensures var t := FallStep(w, h, r, dt, delay, lockDelay, p1, p2);
            t.sim.fallAcc >= 0.0 && 0.0 <= t.sim.lockTimer < lockDelay
  {
    if r.sim.fallAcc + dt >= delay {
      GravityKeepsTimers(w, h, r.(sim := r.sim.(fallAcc := r.sim.fallAcc + dt - delay)), delay, lockDelay, p1, p2);
    }
  }

  // ---------------------------------------------------------------------------
  // The objects

  class InputState {
    const das: int
    const arr: int
    /** The held flags and tick counters. */
    var st: Pad

    /** `InputState(das_frames, arr_frames)`: nothing held, counters at 0. */
    constructor (das: int := 12, arr: int := 1)
      requires arr > 0
      ensures this.das == das && this.arr == arr && st == Pad(false, false, 0, 0)
    {
      this.das := das;
      this.arr := arr;
      st := Pad(false, false, 0, 0);
    }

    /** `press_left`. */
    method PressLeft()
      modifies this`st
      ensures st == old(st).(leftHeld := true, leftCounter := 0)
    {
      st := st.(leftHeld := true, leftCounter := 0);
    }

    /** `release_left`. */
    method ReleaseLeft()
      modifies this`st
      ensures st == old(st).(leftHeld := false, leftCounter := 0)
    {
      st := st.(leftHeld := false, leftCounter := 0);
    }

    /** `press_right`. */
    method PressRight()
      modifies this`st
      ensures st == old(st).(rightHeld := true, rightCounter := 0)
    {
      st := st.(rightHeld := true, rightCounter := 0);
    }

    /** `release_right`. */
    method ReleaseRight()
      modifies this`st
      ensures st == old(st).(rightHeld := false, rightCounter := 0)
    {
      st := st.(rightHeld := false, rightCounter := 0);
    }
  }

  class TetrisSim {
    const rules: RulesEngine
    const input: InputState
    const lockDelay: real
    /** `fall_speed`, the result of `level_to_delay(level)`. */
    const fallSpeed: real
    /** `lock_timer`, `_fall_acc` and `last_lines`. */
    var st: Timers

    ghost predicate Valid()
      reads this, rules, input
    {
      rules.Valid() && input.arr > 0
    }

    /** The whole state the simulator works on. */
    function Now(): World
      reads this, rules, input
    {
      World(rules.st, input.st, st)
    }

    /** `TetrisSim(rules_engine, level, lock_delay)`, with the default input timing
        (DAS 12, ARR 1). `fallSpeed` is the level's delay; its default 1.0 is the delay of
        the default level 0. */
    constructor (rules: RulesEngine, fallSpeed: real := 1.0, lockDelay: real := 0.5)
      requires rules.Valid()
      ensures this.rules == rules && this.fallSpeed == fallSpeed && this.lockDelay == lockDelay
      ensures fresh(input) && input.st == Pad(false, false, 0, 0) && input.das == 12 && input.arr == 1
      ensures st == Timers(0.0, 0.0, 0)
      ensures Valid()
    {
      this.rules := rules;
      this.fallSpeed := fallSpeed;
      this.lockDelay := lockDelay;
      input := new InputState();
      st := Timers(0.0, 0.0, 0);
    }

    /** `move(dx)`. */
    method Move(dx: int)
      requires Valid()
      modifies this`st, rules`st
      ensures Now() == MoveStep(rules.width, rules.height, old(Now()), dx)
      ensures Valid()
    {
      if dx < 0 {
        var f := rules.CheckFits(rules.st.x - 1, rules.st.y, rules.st.rotation);
        if f {
          rules.st := rules.st.(x := rules.st.x - 1);
          st := st.(lockTimer := 0.0);
        }
      } else if dx > 0 {
        var f := rules.CheckFits(rules.st.x + 1, rules.st.y, rules.st.rotation);
        if f {
          rules.st := rules.st.(x := rules.st.x + 1);
          st := st.(lockTimer := 0.0);
        }
      }
    }

    /** `rotate`. */
    method Rotate()
      requires Valid()
      modifies this`st, rules`st
      ensures Now() == RotateStep(rules.width, rules.height, old(Now()))
      ensures Valid()
    {
      var ok := rules.TryRotate();
      if ok {
        st := st.(lockTimer := 0.0);
      }
    }

    /** `soft_drop`: reports whether the piece moved down. */
    method SoftDrop() returns (moved: bool)
      requires Valid()
      modifies this`st, rules`st
      ensures moved == CanFall(rules.width, rules.height, old(rules.st))
      ensures Now() == SoftDropStep(rules.width, rules.height, old(Now()))
      ensures Valid()
    {
      var f := rules.CheckFits(rules.st.x, rules.st.y + 1, rules.st.rotation);
      if f {
        rules.st := rules.st.(y := rules.st.y + 1);
        st := st.(lockTimer := 0.0);
        return true;
      }
      return false;
    }

    /** `hard_drop`, with the shuffles for the spawn's refills. */
    method HardDrop(p1: seq<char>, p2: seq<char>)
      requires Valid() && IsShuffleOf(p1, Keys) && IsShuffleOf(p2, Keys)
      modifies this`st, rules`st
      ensures Now() == HardDropStep(rules.width, rules.height, old(Now()), p1, p2)
      ensures Valid()
    {
      var gy := DropLoop(rules.st.board, rules.width, rules.height, Shape(rules.st), rules.st.x, rules.st.y);
      rules.st := rules.st.(y := gy);
      SettleNow(p1, p2);
    }

    /** The loop of `hard_drop`: move the piece down while the row below fits. */
    method DropLoop(board: Board, w: nat, h: nat, shape: Matrix, x: int, y: int) returns (gy: int)
      requires Valid() && board == rules.st.board && w == rules.width && h == rules.height
      requires shape == Shape(rules.st) && x == rules.st.x && y == rules.st.y
      ensures gy == GhostRow(rules.width, rules.height, rules.st)
    {
      PieceHasFourCells(rules.st.current.value, rules.st.rotation);
      CountHasCell(shape);
      gy := Tetromino.DropLoop(board, w, h, shape, x, y);
    }

    /** `lock_piece`, `clear_lines`, then the lock timer and `last_lines`. */
    method SettleNow(p1: seq<char>, p2: seq<char>)
      requires Valid() && IsShuffleOf(p1, Keys) && IsShuffleOf(p2, Keys)
      modifies this`st, rules`st
      ensures rules.st == Settled(rules.width, rules.height, old(rules.st), p1, p2)
      ensures st == old(st).(lockTimer := 0.0, lastLines := SettledLines(rules.width, rules.height, old(rules.st), p1, p2))
      ensures Valid()
    {
      rules.LockPiece(p1, p2);
      var cleared := rules.ClearLines();
      st := st.(lockTimer := 0.0, lastLines := cleared);
    }

    /** `update_input_autorepeat`. */
    method UpdateInputAutorepeat()
      requires Valid()
      modifies this`st, rules`st, input`st
      ensures Now() == RepeatStep(rules.width, rules.height, old(Now()), input.das, input.arr)
      ensures Valid()
    {
      RepeatLeftTick();
      RepeatRightTick();
    }

    /** The left half of `update_input_autorepeat`. */
    method RepeatLeftTick()
      requires Valid()
      modifies this`st, rules`st, input`st
      ensures Now() == RepeatLeft(rules.width, rules.height, old(Now()), input.das, input.arr)
      ensures Valid()
    {
      if input.st.leftHeld {
        if input.st.leftCounter == 0 {
          Move(-1);
        } else if input.st.leftCounter > input.das && (input.st.leftCounter - input.das) % input.arr == 0 {
          Move(-1);
        }
        input.st := input.st.(leftCounter := input.st.leftCounter + 1);
      } else {
        input.st := input.st.(leftCounter := 0);
      }
    }

    /** The right half of `update_input_autorepeat`. */
    method RepeatRightTick()
      requires Valid()
      modifies this`st, rules`st, input`st
      ensures Now() == RepeatRight(rules.width, rules.height, old(Now()), input.das, input.arr)
      ensures Valid()
    {
      if input.st.rightHeld {
        if input.st.rightCounter == 0 {
          Move(1);
        } else if input.st.rightCounter > input.das && (input.st.rightCounter - input.das) % input.arr == 0 {
          Move(1);
        }
        input.st := input.st.(rightCounter := input.st.rightCounter + 1);
      } else {
        input.st := input.st.(rightCounter := 0);
      }
    }

    /** `update(dt, soft_hold)`, with the shuffles for a spawn after a lock. */
    method Update(dt: real, softHold: bool := false, p1: seq<char>, p2: seq<char>)
      requires Valid() && IsShuffleOf(p1, Keys) && IsShuffleOf(p2, Keys)
      modifies this`st, rules`st, input`st
      ensures Now() == UpdateStep(rules.width, rules.height, old(Now()), dt, softHold, fallSpeed, lockDelay,
                                  input.das, input.arr, p1, p2)
      ensures Valid()
    {
      UpdateInputAutorepeat();
      var delay := fallSpeed * (if softHold then 0.1 else 1.0);
      Fall(dt, delay, p1, p2);
    }

    /** The gravity half of `update`, after the auto-repeat. */
    method Fall(dt: real, delay: real, p1: seq<char>, p2: seq<char>)
      requires Valid() && IsShuffleOf(p1, Keys) && IsShuffleOf(p2, Keys)
      modifies this`st, rules`st
      ensures Now() == FallStep(rules.width, rules.height, old(Now()), dt, delay, lockDelay, p1, p2)
      ensures Valid()
    {
      ghost var s := Now();
      ghost var acc := s.sim.fallAcc + dt;
      ghost var r := s.(sim := s.sim.(fallAcc := acc - delay));
      assert FallStep(rules.width, rules.height, s, dt, delay, lockDelay, p1, p2)
          == if acc >= delay then GravityStep(rules.width, rules.height, r, delay, lockDelay, p1, p2)
             else s.(sim := s.sim.(fallAcc := acc));
      st := st.(fallAcc := st.fallAcc + dt);
      if st.fallAcc >= delay {
        st := st.(fallAcc := st.fallAcc - delay);
        assert Now() == r;
        GravityTick(delay, p1, p2);
      }
    }

    /** The gravity step of `update`. */
    method GravityTick(delay: real, p1: seq<char>, p2: seq<char>)
      requires Valid() && IsShuffleOf(p1, Keys) && IsShuffleOf(p2, Keys)
      modifies this`st, rules`st
      ensures Now() == GravityStep(rules.width, rules.height, old(Now()), delay, lockDelay, p1, p2)
      ensures Valid()
    {
      ghost var s := Now();
      var f := rules.CheckFits(rules.st.x, rules.st.y + 1, rules.st.rotation);
      assert f == CanFall(rules.width, rules.height, s.eng);
      if f {
        rules.st := rules.st.(y := rules.st.y + 1);
        st := st.(lockTimer := 0.0);
        assert Now() == s.(eng := s.eng.(y := s.eng.y + 1), sim := s.sim.(lockTimer := 0.0));
      } else {
        BlockedTick(delay, p1, p2);
      }
    }

    /** A gravity step whose row below is blocked: the lock timer grows, and the piece
        locks once it reaches the lock delay. */
    method BlockedTick(delay: real, p1: seq<char>, p2: seq<char>)
      requires Valid() && IsShuffleOf(p1, Keys) && IsShuffleOf(p2, Keys)
      modifies this`st, rules`st
      ensures Now() == BlockedStep(rules.width, rules.height, old(Now()), delay, lockDelay, p1, p2)
      ensures Valid()
    {
      st := st.(lockTimer := st.lockTimer + delay);
      if st.lockTimer >= lockDelay {
        SettleNow(p1, p2);
      }
    }
  }
}
