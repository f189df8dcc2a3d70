/**
 * The board's options: their defaults, the merge of stored and URL values
 * with every integer option forced into its range (`loadCfgMergeUrl`), and
 * the settings panel's "apply" (`applyUIToCfg`, `btnApply`).
 *
 * A value reaches the merge already converted to the option's type: a
 * numeric option as the JavaScript number `Number(...)` produced, which is
 * modelled exactly as a real number or one of the three special values.
 * The two floating-point options (`brightness`, `overshootChance`) are not
 * part of this model.
 */
module Config {
  import opened Wrappers
  import Text
  import Flap

  /** A JavaScript number. */
  datatype Num = NaN | PosInf | NegInf | Finite(value: real)

  /** `Math.trunc` on a finite number: the integer part, rounded toward
      zero. */
  function Trunc(x: real): (n: int)
    ensures 0.0 <= x ==> 0 <= n && n as real <= x < n as real + 1.0
    ensures x < 0.0 ==> n <= 0 && n as real - 1.0 < x <= n as real
  {
    if x >= 0.0 then x.Floor else -((-x).Floor)
  }

  function Min(a: int, b: int): int { if a <= b then a else b }
  function Max(a: int, b: int): int { if a >= b then a else b }

  /** `clampInt(v, lo, hi)`: not-a-number gives `lo`; otherwise the value
      truncated toward zero and forced into `[lo, hi]`. */
  function ClampInt(v: Num, lo: int, hi: int): (r: int)
    ensures lo <= r
    ensures lo <= hi ==> r <= hi
    ensures v == NaN ==> r == lo
  {
    match v
    case NaN => lo
    case PosInf => Max(lo, hi)
    case NegInf => lo
    case Finite(x) => Max(lo, Min(hi, Trunc(x)))
  }

  /** An integer already in range passes through unchanged. */
  lemma ClampInRange(n: int, lo: int, hi: int)
    requires lo <= n <= hi
    ensures ClampInt(Finite(n as real), lo, hi) == n
  {
    assert Trunc(n as real) == n;
  }

  /** Values below the range give `lo`, values above it give `hi`. */
  lemma ClampOutOfRange(v: Num, lo: int, hi: int)
    requires lo <= hi
    ensures v == NegInf || (v.Finite? && Trunc(v.value) < lo) ==> ClampInt(v, lo, hi) == lo
    ensures v == PosInf || (v.Finite? && Trunc(v.value) > hi) ==> ClampInt(v, lo, hi) == hi
  {
  }

  /** Clamping twice is clamping once. */
  lemma ClampIdempotent(v: Num, lo: int, hi: int)
    requires lo <= hi
    ensures ClampInt(Finite(ClampInt(v, lo, hi) as real), lo, hi) == ClampInt(v, lo, hi)
  {
    ClampInRange(ClampInt(v, lo, hi), lo, hi);
  }

  /** Clamping preserves the order of finite values. */
  lemma ClampMonotone(x: real, y: real, lo: int, hi: int)
    requires x <= y
    ensures ClampInt(Finite(x), lo, hi) <= ClampInt(Finite(y), lo, hi)
  {
    assert Trunc(x) <= Trunc(y) by {
      if x < 0.0 && 0.0 <= y {
      } else if 0.0 <= x {
        assert x.Floor <= y.Floor;
      } else {
        assert (-y).Floor <= (-x).Floor;
      }
    }
  }

  /** `cfg.mode`. */
  datatype Mode = Departures | Arrivals

  /** Number of flaps in each field of a row (`cfg.cols`). */
  datatype Cols = Cols(time: nat, destination: nat, train: nat, platform: nat, status: nat)

  /** The board's options, without the two floating-point ones. */
  datatype Cfg = Cfg(
    station: string, mode: Mode, filter: string,
    rows: int, page: int, rotateSec: int, refreshSec: int,
    charMode: Flap.CharMode, flipMs: int, staggerMs: int, graceSec: int,
    sweepAfterDepart: bool, showBlanks: bool, sound: bool, overshoot: bool,
    sweepAllOnDepart: bool, sweepAllOnUpdate: bool, sweepSpeedMs: int,
    night: bool, kiosk: bool, cols: Cols)

  const DEFAULT_STATION: string := "Krakow Glowny"
  const DEFAULT_COLS: Cols := Cols(5, 22, 10, 5, 20)

  /** `DEFAULTS`. */
  const DEFAULTS: Cfg := Cfg(
    DEFAULT_STATION, Departures, "",
    10, 1, 8, 15,
    Flap.Step, 140, 14, 15,
    true, true, false, true,
    true, false, 28,
    false, true, DEFAULT_COLS)

  /** Every integer option lies in the range the board enforces. */
  ghost predicate ValidCfg(c: Cfg) {
    && 5 <= c.rows <= 20
    && 1 <= c.page <= 999
    && 0 <= c.rotateSec <= 60
    && 5 <= c.refreshSec <= 300
    && 60 <= c.flipMs <= 350
    && 0 <= c.staggerMs <= 60
    && 0 <= c.graceSec <= 120
    && 5 <= c.sweepSpeedMs <= 80
  }

  lemma DefaultsValid()
    ensures ValidCfg(DEFAULTS)
  {
  }

  /** `mode === "arrivals" ? "arrivals" : "departures"`. */
  function ModeOf(s: string): (m: Mode)
    ensures m == Arrivals <==> s == "arrivals"
  {
    if s == "arrivals" then Arrivals else Departures
  }

  /** `charMode === "direct" ? "direct" : "step"`. */
  function CharModeOf(s: string): (m: Flap.CharMode)
    ensures m == Flap.Direct <==> s == "direct"
  {
    if s == "direct" then Flap.Direct else Flap.Step
  }

  function ModeName(m: Mode): string {
    match m
    case Arrivals => "arrivals"
    case Departures => "departures"
  }

  function CharModeName(m: Flap.CharMode): string {
    match m
    case Direct => "direct"
    case Step => "step"
  }

  /** Reading back a saved mode gives the mode, and a text reads back as
      itself exactly when it is one of the two mode names; any other text
      is read as departures. */
  lemma ModeRoundTrip(m: Mode, s: string)
    ensures ModeOf(ModeName(m)) == m
    ensures ModeName(ModeOf(s)) == s <==> s == "arrivals" || s == "departures"
    ensures s != "arrivals" ==> ModeOf(s) == Departures
  {
  }

  /** Reading back a saved flap mode gives the flap mode, and a text reads
      back as itself exactly when it is one of the two names; any other
      text is read as step mode. */
  lemma CharModeRoundTrip(m: Flap.CharMode, s: string)
    ensures CharModeOf(CharModeName(m)) == m
    ensures CharModeName(CharModeOf(s)) == s <==> s == "direct" || s == "step"
    ensures s != "direct" ==> CharModeOf(s) == Flap.Step
  {
  }

  /** One source of option values (the stored options or the URL): each
      option it sets, already converted to the option's type. A URL
      never sets `cols` (`parseUrlParams` reads no such parameter), so
      for the URL layer that field is always `None`; only stored
      options can carry column widths. */
  datatype Layer = Layer(
    station: Option<string>, mode: Option<string>, filter: Option<string>,
    rows: Option<Num>, page: Option<Num>, rotateSec: Option<Num>, refreshSec: Option<Num>,
    charMode: Option<string>, flipMs: Option<Num>, staggerMs: Option<Num>, graceSec: Option<Num>,
    sweepAfterDepart: Option<bool>, showBlanks: Option<bool>, sound: Option<bool>, overshoot: Option<bool>,
    sweepAllOnDepart: Option<bool>, sweepAllOnUpdate: Option<bool>, sweepSpeedMs: Option<Num>,
    night: Option<bool>, kiosk: Option<bool>, cols: Option<Cols>)

  /** A layer that sets nothing. */
  const NO_LAYER: Layer := Layer(
    None, None, None, None, None, None, None, None, None, None, None,
    None, None, None, None, None, None, None, None, None, None)

  /** The spread `{ ...defaults, ...stored, ...url }` for one option. */
  function Pick<T>(url: Option<T>, stored: Option<T>, default: T): T {
    url.GetOr(stored.GetOr(default))
  }

  function N(n: int): Num { Finite(n as real) }

  /** `loadCfgMergeUrl`: defaults, overridden by the stored options,
      overridden by the URL, then each integer option clamped and each
      choice forced to one of its values. */
  function LoadCfgMergeUrl(stored: Layer, url: Layer): (c: Cfg)
    ensures ValidCfg(c)
    ensures url.rows.Some? && url.rows.value.Finite? ==> c.rows == ClampInt(url.rows.value, 5, 20)
    ensures c.mode == Arrivals <==> Pick(url.mode, stored.mode, "departures") == "arrivals"
  {
    var d := DEFAULTS;
    Cfg(
      Pick(url.station, stored.station, d.station),
      ModeOf(Pick(url.mode, stored.mode, ModeName(d.mode))),
      Pick(url.filter, stored.filter, d.filter),
      ClampInt(Pick(url.rows, stored.rows, N(d.rows)), 5, 20),
      ClampInt(Pick(url.page, stored.page, N(d.page)), 1, 999),
      ClampInt(Pick(url.rotateSec, stored.rotateSec, N(d.rotateSec)), 0, 60),
      ClampInt(Pick(url.refreshSec, stored.refreshSec, N(d.refreshSec)), 5, 300),
      CharModeOf(Pick(url.charMode, stored.charMode, CharModeName(d.charMode))),
      ClampInt(Pick(url.flipMs, stored.flipMs, N(d.flipMs)), 60, 350),
      ClampInt(Pick(url.staggerMs, stored.staggerMs, N(d.staggerMs)), 0, 60),
      ClampInt(Pick(url.graceSec, stored.graceSec, N(d.graceSec)), 0, 120),
      Pick(url.sweepAfterDepart, stored.sweepAfterDepart, d.sweepAfterDepart),
      Pick(url.showBlanks, stored.showBlanks, d.showBlanks),
      Pick(url.sound, stored.sound, d.sound),
      Pick(url.overshoot, stored.overshoot, d.overshoot),
      Pick(url.sweepAllOnDepart, stored.sweepAllOnDepart, d.sweepAllOnDepart),
      Pick(url.sweepAllOnUpdate, stored.sweepAllOnUpdate, d.sweepAllOnUpdate),
      ClampInt(Pick(url.sweepSpeedMs, stored.sweepSpeedMs, N(d.sweepSpeedMs)), 5, 80),
      Pick(url.night, stored.night, d.night),
      Pick(url.kiosk, stored.kiosk, d.kiosk),
      Pick(url.cols, stored.cols, d.cols))
  }

  /** What `saveCfg` stores: every option of the configuration. */
  function Saved(c: Cfg): Layer {
    Layer(
      Some(c.station), Some(ModeName(c.mode)), Some(c.filter),
      Some(N(c.rows)), Some(N(c.page)), Some(N(c.rotateSec)), Some(N(c.refreshSec)),
      Some(CharModeName(c.charMode)), Some(N(c.flipMs)), Some(N(c.staggerMs)), Some(N(c.graceSec)),
      Some(c.sweepAfterDepart), Some(c.showBlanks), Some(c.sound), Some(c.overshoot),
      Some(c.sweepAllOnDepart), Some(c.sweepAllOnUpdate), Some(N(c.sweepSpeedMs)),
      Some(c.night), Some(c.kiosk), Some(c.cols))
  }

  /** With nothing stored and no URL values the board runs on its
      defaults. */
  lemma LoadDefaults()
    ensures LoadCfgMergeUrl(NO_LAYER, NO_LAYER) == DEFAULTS
  {
    var c := LoadCfgMergeUrl(NO_LAYER, NO_LAYER);
    ClampInRange(10, 5, 20);
    ClampInRange(1, 1, 999);
    ClampInRange(8, 0, 60);
    ClampInRange(15, 5, 300);
    ClampInRange(140, 60, 350);
    ClampInRange(14, 0, 60);
    ClampInRange(15, 0, 120);
    ClampInRange(28, 5, 80);
  }

  /** A valid configuration that was saved loads back unchanged when the
      URL sets nothing. */
  lemma SaveLoadRoundTrip(c: Cfg)
    requires ValidCfg(c)
    ensures LoadCfgMergeUrl(Saved(c), NO_LAYER) == c
  {
    ClampInRange(c.rows, 5, 20);
    ClampInRange(c.page, 1, 999);
    ClampInRange(c.rotateSec, 0, 60);
    ClampInRange(c.refreshSec, 5, 300);
    ClampInRange(c.flipMs, 60, 350);
    ClampInRange(c.staggerMs, 0, 60);
    ClampInRange(c.graceSec, 0, 120);
    ClampInRange(c.sweepSpeedMs, 5, 80);
    assert ModeOf(ModeName(c.mode)) == c.mode;
    assert CharModeOf(CharModeName(c.charMode)) == c.charMode;
  }

  /** Loading is a fixpoint: saving a loaded configuration and loading it
      again changes nothing. */
  lemma LoadSaveLoad(stored: Layer, url: Layer)
    ensures LoadCfgMergeUrl(Saved(LoadCfgMergeUrl(stored, url)), NO_LAYER) == LoadCfgMergeUrl(stored, url)
  {
    SaveLoadRoundTrip(LoadCfgMergeUrl(stored, url));
  }

  /** Whatever is stored, an option the URL sets is decided by the URL. */
  lemma UrlTakesPrecedence(s1: Layer, s2: Layer, url: Layer)
    ensures var c1, c2 := LoadCfgMergeUrl(s1, url), LoadCfgMergeUrl(s2, url);
      && (url.station.Some? ==> c1.station == c2.station)
      && (url.mode.Some? ==> c1.mode == c2.mode)
      && (url.filter.Some? ==> c1.filter == c2.filter)
      && (url.rows.Some? ==> c1.rows == c2.rows)
      && (url.page.Some? ==> c1.page == c2.page)
      && (url.rotateSec.Some? ==> c1.rotateSec == c2.rotateSec)
      && (url.refreshSec.Some? ==> c1.refreshSec == c2.refreshSec)
      && (url.charMode.Some? ==> c1.charMode == c2.charMode)
      && (url.flipMs.Some? ==> c1.flipMs == c2.flipMs)
      && (url.staggerMs.Some? ==> c1.staggerMs == c2.staggerMs)
      && (url.graceSec.Some? ==> c1.graceSec == c2.graceSec)
      && (url.sweepSpeedMs.Some? ==> c1.sweepSpeedMs == c2.sweepSpeedMs)
      && (url.sweepAfterDepart.Some? ==> c1.sweepAfterDepart == c2.sweepAfterDepart)
      && (url.overshoot.Some? ==> c1.overshoot == c2.overshoot)
      && (url.showBlanks.Some? ==> c1.showBlanks == c2.showBlanks)
      && (url.sound.Some? ==> c1.sound == c2.sound)
      && (url.sweepAllOnDepart.Some? ==> c1.sweepAllOnDepart == c2.sweepAllOnDepart)
      && (url.sweepAllOnUpdate.Some? ==> c1.sweepAllOnUpdate == c2.sweepAllOnUpdate)
      && (url.night.Some? ==> c1.night == c2.night)
      && (url.kiosk.Some? ==> c1.kiosk == c2.kiosk)
      && (url.cols.Some? ==> c1.cols == c2.cols)
  {
  }

  // ----- The settings panel -----

  /** The contents of a numeric input: empty, or the number `Number(...)`
      makes of the text typed. The code's `value || fallback` takes the
      fallback exactly for the empty text. */
  datatype Input = Empty | Entered(n: Num)

  function Or(i: Input, fallback: int): Num {
    match i
    case Empty => N(fallback)
    case Entered(n) => n
  }

  /** The panel's controls. */
  datatype Form = Form(
    station: string, mode: string, filter: string,
    rows: Input, page: Input, rotateSec: Input, refreshSec: Input,
    charMode: string, flipMs: Input, staggerMs: Input, graceSec: Input,
    sweepAfterDepart: bool, showBlanks: bool, sound: bool, overshoot: bool,
    sweepAllOnDepart: bool, sweepAllOnUpdate: bool, sweepSpeedMs: Input,
    night: bool, kiosk: bool)

  /** `applyUIToCfg`: read the panel into the configuration. Empty inputs
      fall back to the defaults, except the page (1) and the rotation
      interval (0); the column widths are kept. */
  function ApplyUIToCfg(c: Cfg, f: Form): (r: Cfg)
    ensures ValidCfg(r)
    ensures r.cols == c.cols
    ensures f.rows == Empty ==> r.rows == DEFAULTS.rows
    ensures f.rotateSec == Empty ==> r.rotateSec == 0
  {
    Cfg(
      Text.Trim(if f.station == "" then DEFAULT_STATION else f.station),
      ModeOf(f.mode),
      Text.Trim(f.filter),
      ClampInt(Or(f.rows, DEFAULTS.rows), 5, 20),
      ClampInt(Or(f.page, 1), 1, 999),
      ClampInt(Or(f.rotateSec, 0), 0, 60),
      ClampInt(Or(f.refreshSec, DEFAULTS.refreshSec), 5, 300),
      CharModeOf(f.charMode),
      ClampInt(Or(f.flipMs, DEFAULTS.flipMs), 60, 350),
      ClampInt(Or(f.staggerMs, DEFAULTS.staggerMs), 0, 60),
      ClampInt(Or(f.graceSec, DEFAULTS.graceSec), 0, 120),
      f.sweepAfterDepart, f.showBlanks, f.sound, f.overshoot,
      f.sweepAllOnDepart, f.sweepAllOnUpdate,
      ClampInt(Or(f.sweepSpeedMs, 28), 5, 80),
      f.night, f.kiosk, c.cols)
  }

  /** `applyCfgToUI`: the panel showing the configuration. */
  function FormOf(c: Cfg): Form {
    Form(
      c.station, ModeName(c.mode), c.filter,
      Entered(N(c.rows)), Entered(N(c.page)), Entered(N(c.rotateSec)), Entered(N(c.refreshSec)),
      CharModeName(c.charMode), Entered(N(c.flipMs)), Entered(N(c.staggerMs)), Entered(N(c.graceSec)),
      c.sweepAfterDepart, c.showBlanks, c.sound, c.overshoot,
      c.sweepAllOnDepart, c.sweepAllOnUpdate, Entered(N(c.sweepSpeedMs)),
      c.night, c.kiosk)
  }

  /** Opening the panel and applying it untouched changes nothing, for a
      valid configuration whose station is set and whose texts carry no
      surrounding whitespace. */
  lemma ApplyUnchangedForm(c: Cfg)
    requires ValidCfg(c)
    requires c.station != "" && Text.Trim(c.station) == c.station
    requires Text.Trim(c.filter) == c.filter
    ensures ApplyUIToCfg(c, FormOf(c)) == c
  {
    ClampInRange(c.rows, 5, 20);
    ClampInRange(c.page, 1, 999);
    ClampInRange(c.rotateSec, 0, 60);
    ClampInRange(c.refreshSec, 5, 300);
    ClampInRange(c.flipMs, 60, 350);
    ClampInRange(c.staggerMs, 0, 60);
    ClampInRange(c.graceSec, 0, 120);
    ClampInRange(c.sweepSpeedMs, 5, 80);
    assert ModeOf(ModeName(c.mode)) == c.mode;
    assert CharModeOf(CharModeName(c.charMode)) == c.charMode;
  }

  /** `btnApply`'s test for rebuilding the grid, as written: the current
      row count against `Number(optRows.value || cfg.rows)`, before the
      input is clamped or replaced by its default. */
  function RebuildAsWritten(c: Cfg, f: Form): (rebuild: bool)
    ensures f.rows == Empty ==> !rebuild
    ensures f.rows.Entered? && f.rows.n == N(c.rows) ==> !rebuild
  {
    match f.rows
    case Empty => false
    case Entered(n) => n != N(c.rows)
  }

  /** The test the grid needs: rebuild exactly when applying the panel
      changes the row count. */
  function Rebuild(c: Cfg, f: Form): bool {
    ApplyUIToCfg(c, f).rows != c.rows
  }

  /** With five rows configured and the rows input emptied, applying sets
      ten rows but the test as written keeps the five-row grid. */
  lemma RebuildMissedOnEmptyRows(c: Cfg, f: Form)
    requires c.rows == 5 && f.rows == Empty
    ensures !RebuildAsWritten(c, f)
    ensures ApplyUIToCfg(c, f).rows == 10
    ensures Rebuild(c, f)
  {
  }

  /** How the two tests differ. The corrected test rebuilds whenever the
      test as written misses a change, which happens only for an emptied
      input away from the default. The test as written rebuilds needlessly
      for an entered value other than the current count that truncates or
      clamps back to it. */
  lemma RebuildCorrected(c: Cfg, f: Form)
    requires ValidCfg(c)
    ensures !RebuildAsWritten(c, f) && Rebuild(c, f) ==> f.rows == Empty && c.rows != DEFAULTS.rows
    ensures RebuildAsWritten(c, f) && !Rebuild(c, f) ==>
      f.rows.Entered? && f.rows.n != N(c.rows) && ClampInt(f.rows.n, 5, 20) == c.rows
  {
    AppliedRows(c, f);
    if f.rows.Entered? && f.rows.n == N(c.rows) {
      ClampInRange(c.rows, 5, 20);
    }
  }

  /** For a whole number of rows in range, both tests agree. */
  lemma RebuildAgreesOnWholeRows(c: Cfg, f: Form, n: int)
    requires 5 <= n <= 20 && f.rows == Entered(N(n))
    ensures RebuildAsWritten(c, f) <==> Rebuild(c, f)
  {
    AppliedRows(c, f);
    ClampInRange(n, 5, 20);
  }

  /** The row count "apply" sets. */
  lemma AppliedRows(c: Cfg, f: Form)
    ensures ApplyUIToCfg(c, f).rows == ClampInt(Or(f.rows, DEFAULTS.rows), 5, 20)
  {
  }

  /** With twenty rows configured, entering 25 rebuilds the grid under the
      test as written although the row count stays twenty. */
  lemma RebuildNeedlessOnClampedRows(c: Cfg, f: Form)
    requires c.rows == 20 && f.rows == Entered(Finite(25.0))
    ensures RebuildAsWritten(c, f)
    ensures !Rebuild(c, f)
  {
    AppliedRows(c, f);
    assert Trunc(25.0) == 25;
  }
}
