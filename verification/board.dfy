/**
 * The board as a grid of flap units and the updates that drive it:
 * `flipField`, `flipRow`, `flipBoard`, `sweepAll` and `scrollEffect`.
 *
 * The display is what the units show, one `Row` of texts per grid row
 * (character `k` of a field is the symbol on unit `k` of that field). An
 * update gives the display once every transition has ended; the per-unit
 * traces are those of `Flap.FlipToChar` on `ALPHABET`. The random draws
 * of each unit are an input (`RowDice`, `BoardDice`).
 */
module Board {
  import Text
  import opened Alphabet
  import Flap
  import Config
  import Rows

  /** The five fields of a row, in the order the board lays them out. */
  datatype Field = Time | Destination | Train | Platform | Status

  function Get(r: Rows.Row, f: Field): string {
    match f
    case Time => r.time
    case Destination => r.destination
    case Train => r.train
    case Platform => r.platform
    case Status => r.status
  }

  /** The row whose field `f` is `g(f)`. */
  function MakeRow(g: Field -> string): (r: Rows.Row)
    ensures forall f :: Get(r, f) == g(f)
  {
    Rows.Row(g(Time), g(Destination), g(Train), g(Platform), g(Status))
  }

  function ColWidth(cols: Config.Cols, f: Field): nat {
    match f
    case Time => cols.time
    case Destination => cols.destination
    case Train => cols.train
    case Platform => cols.platform
    case Status => cols.status
  }

  lemma FitsIff(r: Rows.Row, cols: Config.Cols)
    ensures Rows.Fits(r, cols) <==> forall f :: |Get(r, f)| == ColWidth(cols, f)
  {
    if forall f :: |Get(r, f)| == ColWidth(cols, f) {
      assert |Get(r, Time)| == ColWidth(cols, Time);
      assert |Get(r, Destination)| == ColWidth(cols, Destination);
      assert |Get(r, Train)| == ColWidth(cols, Train);
      assert |Get(r, Platform)| == ColWidth(cols, Platform);
      assert |Get(r, Status)| == ColWidth(cols, Status);
    }
  }

  /** The draws of the units of one row, by field and position. */
  type RowDice = (Field, nat) -> Flap.Roll

  /** The draws of every unit of the grid, by row, field and position. */
  type BoardDice = (nat, Field, nat) -> Flap.Roll

  /** `setTimeout` starts a negative delay at once. */
  function Delay(ms: int): nat {
    if ms < 0 then 0 else ms
  }

  /** `text[i] || " "`: the field's character for unit `i`, a blank past
      the end of the text. */
  function TargetChar(text: string, i: nat): char {
    if i < |text| then text[i] else ' '
  }

  /** The text cut or blank-padded to `n` units. */
  function Target(text: string, n: nat): (r: string)
    ensures |r| == n
    ensures |text| == n ==> r == text
  {
    seq(n, i requires 0 <= i => TargetChar(text, i))
  }

  /** The transition of unit `i` of a field, started after `i * staggerMs`. */
  function UnitTrace(c: Config.Cfg, cur: char, target: char, i: nat, roll: Flap.Roll): seq<Flap.Flip> {
    Flap.FlipToChar(ALPHABET, cur, target, Delay(i * c.staggerMs), c.charMode, c.overshoot, roll)
  }

  /** `flipField`: every unit of the field turns to its character of the
      text. */
  function FlipField(c: Config.Cfg, shown: string, text: string, roll: nat -> Flap.Roll): (r: string)
    ensures |r| == |shown|
  {
    seq(|shown|, i requires 0 <= i < |shown| =>
      Flap.Final(shown[i], UnitTrace(c, shown[i], TargetChar(text, i), i, roll(i))))
  }

  /** A unit can show the symbol at the end of a transition: the mode is
      direct or the symbol is on the drum. */
  predicate Reachable(c: Config.Cfg, ch: char) {
    c.charMode == Flap.Direct || OnDrum(ALPHABET, ch)
  }

  /** Unit `i` of a field ends on its character exactly when it already
      showed it or the character is reachable. */
  lemma FlipFieldAt(c: Config.Cfg, shown: string, text: string, roll: nat -> Flap.Roll, i: nat)
    requires i < |shown|
    ensures FlipField(c, shown, text, roll)[i] == TargetChar(text, i)
      <==> shown[i] == TargetChar(text, i) || Reachable(c, TargetChar(text, i))
  {
    AlphabetIsDrum();
    Flap.SettlesIff(ALPHABET, shown[i], TargetChar(text, i), Delay(i * c.staggerMs), c.charMode, c.overshoot, roll(i));
  }

  /** Only the first flip of a transition waits, and no transition
      flips more than the two guards allow. */
  lemma TransitionTiming(a: string, cur: char, target: char, delay: nat, mode: Flap.CharMode, overshoot: bool, roll: Flap.Roll)
    requires IsDrum(a)
    ensures var r := Flap.FlipToChar(a, cur, target, delay, mode, overshoot, roll);
      Flap.OnlyFirstDelayed(r, delay) && |r| <= 2 * Flap.GUARD
  {
    Flap.FlipCountBound(a, cur, target, delay, mode, overshoot, roll);
    if cur != target && mode == Flap.Step {
      if OnDrum(a, target) {
        if overshoot && roll.hit {
          Flap.StepModeOvershoot(a, cur, target, delay, roll);
        } else {
          Flap.StepModePlain(a, cur, target, delay, overshoot, roll);
        }
      } else {
        Flap.StepModeForeign(a, cur, target, delay, overshoot, roll);
      }
    }
  }

  /** Only the first flip of unit `i` waits, and it waits `i * staggerMs`
      (nothing when that is negative); no unit flips more than the two
      guards allow. */
  lemma UnitTraceTiming(c: Config.Cfg, cur: char, target: char, i: nat, roll: Flap.Roll)
    ensures var r := UnitTrace(c, cur, target, i, roll);
      && Flap.OnlyFirstDelayed(r, Delay(i * c.staggerMs))
      && |r| <= 2 * Flap.GUARD
  {
    AlphabetIsDrum();
    TransitionTiming(ALPHABET, cur, target, Delay(i * c.staggerMs), c.charMode, c.overshoot, roll);
  }

  /** Every character of the text up to the field's width is reachable. */
  predicate FieldReachable(c: Config.Cfg, text: string, n: nat) {
    forall i :: 0 <= i < n ==> Reachable(c, TargetChar(text, i))
  }

  /** A field whose characters are reachable ends showing its text, cut or
      padded to the field, whatever it showed before. */
  lemma FlipFieldSettles(c: Config.Cfg, shown: string, text: string, roll: nat -> Flap.Roll)
    requires FieldReachable(c, text, |shown|)
    ensures FlipField(c, shown, text, roll) == Target(text, |shown|)
  {
    var r := FlipField(c, shown, text, roll);
    forall i | 0 <= i < |shown|
      ensures r[i] == Target(text, |shown|)[i]
    {
      FlipFieldAt(c, shown, text, roll, i);
    }
  }

  /** `flipRow`: each field flips to the target row's field. */
  function FlipRow(c: Config.Cfg, shown: Rows.Row, target: Rows.Row, dice: RowDice): (r: Rows.Row)
    ensures forall f :: |Get(r, f)| == |Get(shown, f)|
  {
    MakeRow(f => FlipField(c, Get(shown, f), Get(target, f), (k: nat) => dice(f, k)))
  }

  /** Every character of the target row that falls on a unit of the shown
      row is reachable. */
  predicate RowReachable(c: Config.Cfg, shown: Rows.Row, target: Rows.Row) {
    forall f :: FieldReachable(c, Get(target, f), |Get(shown, f)|)
  }

  /** A row of the columns' widths flipping to a target of the same widths
      whose characters are reachable ends showing the target. */
  lemma FlipRowSettles(c: Config.Cfg, shown: Rows.Row, target: Rows.Row, dice: RowDice)
    requires Rows.Fits(shown, c.cols) && Rows.Fits(target, c.cols)
    requires RowReachable(c, shown, target)
    ensures FlipRow(c, shown, target, dice) == target
  {
    var r := FlipRow(c, shown, target, dice);
    FitsIff(shown, c.cols);
    FitsIff(target, c.cols);
    forall f
      ensures Get(r, f) == Get(target, f)
    {
      FlipFieldSettles(c, Get(shown, f), Get(target, f), (k: nat) => dice(f, k));
    }
    assert r.time == Get(r, Time) && r.destination == Get(r, Destination) && r.train == Get(r, Train);
    assert r.platform == Get(r, Platform) && r.status == Get(r, Status);
  }

  /** The blank is reachable: it is the drum's first symbol. */
  lemma BlankIsReachable(c: Config.Cfg)
    ensures Reachable(c, ' ')
  {
    AlphabetIsDrum();
    FirstOnDrum(ALPHABET);
    AlphabetEnds();
  }

  /** The blank row is always reachable. */
  lemma BlankReachable(c: Config.Cfg, shown: Rows.Row)
    ensures RowReachable(c, shown, Rows.BlankRow(c.cols))
  {
    BlankIsReachable(c);
    forall f, i | 0 <= i < |Get(shown, f)|
      ensures Reachable(c, TargetChar(Get(Rows.BlankRow(c.cols), f), i))
    {
      var text := Get(Rows.BlankRow(c.cols), f);
      assert TargetChar(text, i) == ' ';
    }
  }

  /** The outcome of a board update: the display when every started
      transition has ended, and whether the update completed (`false`
      when it threw). */
  datatype Outcome = Outcome(display: seq<Rows.Row>, ok: bool)

  /** `targetRows[r] || blankRow(cfg.cols)`. */
  function RowTarget(c: Config.Cfg, targets: seq<Rows.Row>, r: nat): Rows.Row {
    if r < |targets| then targets[r] else Rows.BlankRow(c.cols)
  }

  /** `flipBoard`: rows `0 .. cfg.rows - 1` flip to their targets. A row
      the grid does not have makes the update throw; the rows it does have
      still flip, since each row's update is already under way. */
  function FlipBoard(c: Config.Cfg, display: seq<Rows.Row>, targets: seq<Rows.Row>, dice: BoardDice): (o: Outcome)
    ensures |o.display| == |display|
    ensures o.ok <==> c.rows <= |display|
    ensures forall r :: 0 <= r < |display| && c.rows <= r ==> o.display[r] == display[r]
  {
    Outcome(
      seq(|display|, r requires 0 <= r < |display| =>
        if r < c.rows then FlipRow(c, display[r], RowTarget(c, targets, r), (f: Field, k: nat) => dice(r, f, k))
        else display[r]),
      c.rows <= |display|)
  }

  /** The grid has the configured shape: `cfg.rows` rows of the columns'
      widths. */
  predicate Shaped(c: Config.Cfg, display: seq<Rows.Row>) {
    |display| == c.rows && forall r :: 0 <= r < |display| ==> Rows.Fits(display[r], c.cols)
  }

  /** Every target row fits the columns and is reachable from the grid. */
  predicate BoardReachable(c: Config.Cfg, display: seq<Rows.Row>, targets: seq<Rows.Row>) {
    forall r :: 0 <= r < |display| ==>
      Rows.Fits(RowTarget(c, targets, r), c.cols) && RowReachable(c, display[r], RowTarget(c, targets, r))
  }

  /** The board ends showing the targets, padded with blank rows, when its
      shape matches the configuration and every target is reachable; and
      the update completes. */
  lemma FlipBoardSettles(c: Config.Cfg, display: seq<Rows.Row>, targets: seq<Rows.Row>, dice: BoardDice)
    requires Shaped(c, display) && BoardReachable(c, display, targets)
    ensures var o := FlipBoard(c, display, targets, dice);
      && o.ok
      && |o.display| == c.rows
      && forall r :: 0 <= r < c.rows ==> o.display[r] == RowTarget(c, targets, r)
  {
    var o := FlipBoard(c, display, targets, dice);
    forall r | 0 <= r < c.rows
      ensures o.display[r] == RowTarget(c, targets, r)
    {
      FlipRowSettles(c, display[r], RowTarget(c, targets, r), (f: Field, k: nat) => dice(r, f, k));
    }
  }

  /** Rows of a reachable board: every character of every field is
      reachable. */
  predicate RowsReachable(c: Config.Cfg, rows: seq<Rows.Row>) {
    forall r, f, i :: 0 <= r < |rows| && 0 <= i < |Get(rows[r], f)| ==> Reachable(c, Get(rows[r], f)[i])
  }

  /** A board of rows that fit the columns and use reachable characters
      only is reachable from any grid of the same shape. */
  lemma ReachableFromShape(c: Config.Cfg, display: seq<Rows.Row>, targets: seq<Rows.Row>)
    requires Shaped(c, display)
    requires forall r :: 0 <= r < |targets| ==> Rows.Fits(targets[r], c.cols)
    requires RowsReachable(c, targets)
    ensures BoardReachable(c, display, targets)
  {
    forall r | 0 <= r < |display|
      ensures Rows.Fits(RowTarget(c, targets, r), c.cols) && RowReachable(c, display[r], RowTarget(c, targets, r))
    {
      if r < |targets| {
        FitsIff(display[r], c.cols);
        FitsIff(targets[r], c.cols);
        forall f, i | 0 <= i < |Get(display[r], f)|
          ensures Reachable(c, TargetChar(Get(targets[r], f), i))
        {
        }
      } else {
        BlankReachable(c, display[r]);
      }
    }
  }

  // ----- Sweep -----

  /** `cfg.sweepSpeedMs || 28`. */
  function SweepSpeed(c: Config.Cfg): int {
    if c.sweepSpeedMs == 0 then 28 else c.sweepSpeedMs
  }

  /** A unit after both waves of the sweep: two successor steps. */
  function SweepChar(ch: char): char {
    StepChar(ALPHABET, StepChar(ALPHABET, ch))
  }

  function SweepField(s: string): (r: string)
    ensures |r| == |s|
  {
    seq(|s|, i requires 0 <= i < |s| => SweepChar(s[i]))
  }

  /** `sweepAll` on the display: every unit of every grid row, whatever the
      configured row count, steps twice. */
  function SweepAll(display: seq<Rows.Row>): (d: seq<Rows.Row>)
    ensures |d| == |display|
  {
    seq(|display|, r requires 0 <= r < |display| => MakeRow(f => SweepField(Get(display[r], f))))
  }

  /** Each unit of the sweep ends two drum positions further on; a unit
      showing a symbol off the drum counts as the blank and ends on `B`. */
  lemma SweepAdvancesTwo(ch: char)
    ensures OnDrum(ALPHABET, Text.UpperChar(ch)) ==> Idx(ALPHABET, SweepChar(ch)) == (Idx(ALPHABET, ch) + 2) % SIZE
    ensures !OnDrum(ALPHABET, Text.UpperChar(ch)) ==> SweepChar(ch) == 'B'
  {
    AlphabetIsDrum();
    StepTwice(ALPHABET, ch);
    AlphabetEnds();
  }

  /** The sweep keeps the grid's shape. */
  lemma SweepKeepsShape(c: Config.Cfg, display: seq<Rows.Row>)
    requires Shaped(c, display)
    ensures Shaped(c, SweepAll(display))
  {
    var d := SweepAll(display);
    forall r | 0 <= r < |d|
      ensures Rows.Fits(d[r], c.cols)
    {
      FitsIff(display[r], c.cols);
      FitsIff(d[r], c.cols);
    }
  }

  /** Number of units in a row. */
  function RowUnits(r: Rows.Row): nat {
    |r.time| + |r.destination| + |r.train| + |r.platform| + |r.status|
  }

  /** Units before the first one of field `f` in a row. */
  function FieldOffset(r: Rows.Row, f: Field): nat {
    match f
    case Time => 0
    case Destination => |r.time|
    case Train => |r.time| + |r.destination|
    case Platform => |r.time| + |r.destination| + |r.train|
    case Status => |r.time| + |r.destination| + |r.train| + |r.platform|
  }

  /** Units in the rows before. */
  function UnitsBefore(display: seq<Rows.Row>): nat {
    if |display| == 0 then 0 else UnitsBefore(display[..|display| - 1]) + RowUnits(display[|display| - 1])
  }

  /** The position of unit `k` of field `f` of row `r` in the sweep's
      reading order: rows top to bottom, fields left to right, units left
      to right. */
  function SweepIndex(display: seq<Rows.Row>, r: nat, f: Field, k: nat): nat
    requires r < |display|
  {
    UnitsBefore(display[..r]) + FieldOffset(display[r], f) + k
  }

  /** Both of the unit's sweep flips start after its index times the sweep
      speed. */
  function SweepDelay(c: Config.Cfg, display: seq<Rows.Row>, r: nat, f: Field, k: nat): nat
    requires r < |display|
  {
    Delay(SweepIndex(display, r, f, k) * SweepSpeed(c))
  }

  /** The two flips of a unit in the sweep. */
  function SweepTrace(c: Config.Cfg, display: seq<Rows.Row>, r: nat, f: Field, k: nat): (t: seq<Flap.Flip>)
    requires r < |display| && k < |Get(display[r], f)|
    ensures |t| == 2 && Flap.Final(Get(display[r], f)[k], t) == Get(SweepAll(display)[r], f)[k]
  {
    var ch := Get(display[r], f)[k];
    var delay := SweepDelay(c, display, r, f, k);
    [Flap.Flip(StepChar(ALPHABET, ch), delay), Flap.Flip(SweepChar(ch), delay)]
  }

  /** Units in a row of the columns' widths. */
  function ColUnits(cols: Config.Cols): nat {
    cols.time + cols.destination + cols.train + cols.platform + cols.status
  }

  lemma {:induction false} UnitsBeforeShaped(c: Config.Cfg, display: seq<Rows.Row>)
    requires forall r :: 0 <= r < |display| ==> Rows.Fits(display[r], c.cols)
    ensures UnitsBefore(display) == |display| * ColUnits(c.cols)
  {
    if |display| > 0 {
      var n := |display| - 1;
      UnitsBeforeShaped(c, display[..n]);
      assert RowUnits(display[n]) == ColUnits(c.cols);
      assert n * ColUnits(c.cols) + ColUnits(c.cols) == (n + 1) * ColUnits(c.cols);
    }
  }

  /** On a shaped grid the sweep reaches unit `k` of field `f` of row `r`
      after `r` whole rows, the fields before `f` and `k` units. */
  lemma SweepIndexShaped(c: Config.Cfg, display: seq<Rows.Row>, r: nat, f: Field, k: nat)
    requires Shaped(c, display) && r < |display|
    ensures SweepIndex(display, r, f, k) == r * ColUnits(c.cols) + FieldOffset(display[r], f) + k
    ensures FieldOffset(display[r], f) == ColOffset(c.cols, f)
  {
    UnitsBeforeShaped(c, display[..r]);
  }

  /** Units before field `f` in a row of the columns' widths. */
  function ColOffset(cols: Config.Cols, f: Field): nat {
    match f
    case Time => 0
    case Destination => cols.time
    case Train => cols.time + cols.destination
    case Platform => cols.time + cols.destination + cols.train
    case Status => cols.time + cols.destination + cols.train + cols.platform
  }

  // ----- Scroll -----

  /** `scrollEffect`: the last configured row flips to blank, then the
      whole board flips. Without a grid row `cfg.rows - 1` the first step
      throws and nothing flips. */
  function ScrollEffect(c: Config.Cfg, display: seq<Rows.Row>, targets: seq<Rows.Row>, blankDice: RowDice, dice: BoardDice): (o: Outcome)
    ensures |o.display| == |display|
    ensures o.ok <==> 1 <= c.rows <= |display|
    ensures !(1 <= c.rows <= |display|) ==> o.display == display
  {
    if !(1 <= c.rows <= |display|) then Outcome(display, false)
    else FlipBoard(c, BlankLast(c, display, blankDice), targets, dice)
  }

  /** The grid after the last configured row flipped to blank. */
  function BlankLast(c: Config.Cfg, display: seq<Rows.Row>, blankDice: RowDice): (d: seq<Rows.Row>)
    requires 1 <= c.rows <= |display|
    ensures |d| == |display|
    ensures forall r :: 0 <= r < |d| && r != c.rows - 1 ==> d[r] == display[r]
  {
    display[c.rows - 1 := FlipRow(c, display[c.rows - 1], Rows.BlankRow(c.cols), blankDice)]
  }

  /** Blanking the last row keeps the grid's shape. */
  lemma BlankLastShape(c: Config.Cfg, display: seq<Rows.Row>, blankDice: RowDice)
    requires Shaped(c, display) && c.rows >= 1
    ensures Shaped(c, BlankLast(c, display, blankDice))
  {
    var d := BlankLast(c, display, blankDice);
    var last := c.rows - 1;
    forall r | 0 <= r < |d|
      ensures Rows.Fits(d[r], c.cols)
    {
      if r == last {
        FitsIff(display[last], c.cols);
        FitsIff(d[last], c.cols);
      }
    }
  }

  /** The blanked row is the board's last configured row when the grid is
      shaped, and it ends blank before the board flips. */
  lemma ScrollBlanksLastRow(c: Config.Cfg, display: seq<Rows.Row>, blankDice: RowDice)
    requires Shaped(c, display) && c.rows >= 1
    ensures BlankLast(c, display, blankDice)[c.rows - 1] == Rows.BlankRow(c.cols)
  {
    BlankReachable(c, display[c.rows - 1]);
    FlipRowSettles(c, display[c.rows - 1], Rows.BlankRow(c.cols), blankDice);
  }

  /** Two shaped grids flipped to the same reachable rows end equal. */
  lemma FlipForgetsStart(c: Config.Cfg, d1: seq<Rows.Row>, d2: seq<Rows.Row>, targets: seq<Rows.Row>, dice: BoardDice)
    requires Shaped(c, d1) && Shaped(c, d2)
    requires forall r :: 0 <= r < |targets| ==> Rows.Fits(targets[r], c.cols)
    requires RowsReachable(c, targets)
    ensures FlipBoard(c, d1, targets, dice) == FlipBoard(c, d2, targets, dice)
  {
    ReachableFromShape(c, d1, targets);
    ReachableFromShape(c, d2, targets);
    FlipBoardSettles(c, d1, targets, dice);
    FlipBoardSettles(c, d2, targets, dice);
    var o1, o2 := FlipBoard(c, d1, targets, dice), FlipBoard(c, d2, targets, dice);
    assert o1.display == o2.display;
  }

  /** Scrolling ends where a plain flip ends: on a shaped grid with
      reachable target rows, the blanked intermediate row leaves no
      trace. */
  lemma ScrollEndsLikeFlip(c: Config.Cfg, display: seq<Rows.Row>, targets: seq<Rows.Row>, blankDice: RowDice, dice: BoardDice)
    requires Shaped(c, display) && c.rows >= 1
    requires forall r :: 0 <= r < |targets| ==> Rows.Fits(targets[r], c.cols)
    requires RowsReachable(c, targets)
    ensures ScrollEffect(c, display, targets, blankDice, dice) == FlipBoard(c, display, targets, dice)
  {
    BlankLastShape(c, display, blankDice);
    FlipForgetsStart(c, BlankLast(c, display, blankDice), display, targets, dice);
  }

  /** A sweep before a flip leaves no trace either. */
  lemma SweepThenFlip(c: Config.Cfg, display: seq<Rows.Row>, targets: seq<Rows.Row>, dice: BoardDice)
    requires Shaped(c, display)
    requires forall r :: 0 <= r < |targets| ==> Rows.Fits(targets[r], c.cols)
    requires RowsReachable(c, targets)
    ensures FlipBoard(c, SweepAll(display), targets, dice) == FlipBoard(c, display, targets, dice)
  {
    SweepKeepsShape(c, display);
    FlipForgetsStart(c, SweepAll(display), display, targets, dice);
  }
}
