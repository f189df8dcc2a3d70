/**
 * The board's session and the transitions that reconcile it with the
 * timetable: `refresh`, the rotation timer and the space key (one page
 * on), the per-second departure watcher, and the settings panel's
 * "apply". Each transition runs to completion before the next one starts.
 *
 * The network, the clock and the random draws are inputs: the feed a
 * transition received, the seconds since midnight, and the draws of
 * every unit.
 */
module Reconciler {
  import opened Wrappers
  import Text
  import Config
  import Rows
  import Board

  /** The session: configuration, what the grid shows (one entry per grid
      row built), the items last fetched, and the last committed board
      with its fingerprint. */
  datatype Session = Session(
    cfg: Config.Cfg,
    display: seq<Rows.Row>,
    items: seq<Rows.Item>,
    lastRows: Option<seq<Rows.Row>>,
    lastHash: string)

  /** What a transition receives from the world. */
  datatype Env = Env(nowSec: int, blankDice: Board.RowDice, dice: Board.BoardDice)

  /** The outcome of `fetchBoard`: the feed's items, or a failure (a
      network error or an error reply). */
  datatype Feed = Items(raw: seq<Rows.Item>) | Failed

  /** `fetchBoard` trims the time of each item it receives. */
  function Received(raw: seq<Rows.Item>): (items: seq<Rows.Item>)
    ensures |items| == |raw|
    ensures forall i :: 0 <= i < |raw| ==> items[i] == raw[i].(time := Text.Trim(raw[i].time))
  {
    seq(|raw|, i requires 0 <= i < |raw| => raw[i].(time := Text.Trim(raw[i].time)))
  }

  /** A board as the reconciler computes it: `cfg.rows` rows of the
      columns' widths. */
  ghost predicate Complete(c: Config.Cfg, rows: seq<Rows.Row>) {
    |rows| == c.rows && forall i :: 0 <= i < |rows| ==> Rows.Fits(rows[i], c.cols)
  }

  /** The session invariant: the grid has the configured shape, and a
      committed board is complete and carries its own fingerprint. */
  ghost predicate Inv(s: Session) {
    && s.cfg.rows >= 1
    && Board.Shaped(s.cfg, s.display)
    && (s.lastRows.Some? ==> Complete(s.cfg, s.lastRows.value) && s.lastHash == Rows.Fingerprint(s.lastRows.value))
  }

  /** The grid shows the committed board. */
  ghost predicate Showing(s: Session) {
    s.lastRows.Some? ==> s.display == s.lastRows.value
  }

  lemma ComputedComplete(c: Config.Cfg, items: seq<Rows.Item>, nowSec: int)
    requires c.rows >= 0
    ensures Complete(c, Rows.ComputeBoardRows(c, items, nowSec))
  {
  }

  // ----- Reconciling -----

  /** How `refresh` brings the board to new rows. */
  datatype Plan =
    | FullFlip            // no committed board yet, or forced
    | NoChange            // the fingerprint is the committed one
    | Flip(sweep: bool)   // a plain update, after a sweep when asked
    | Scroll(sweeps: nat) // a departure: sweeps, then the scroll

  /** `refresh`'s decision for the next rows. */
  function Decide(s: Session, next: seq<Rows.Row>, force: bool, nowSec: int): (p: Plan)
    ensures p == NoChange ==> s.lastRows.Some? && !force && Rows.Fingerprint(next) == s.lastHash
    ensures p.Scroll? ==> s.cfg.sweepAfterDepart && Rows.HasDepartedBetween(s.lastRows, next, nowSec, s.cfg.graceSec)
    ensures p.Scroll? ==> p.sweeps <= 2
  {
    if s.lastRows.None? || force then FullFlip
    else if Rows.Fingerprint(next) == s.lastHash then NoChange
    else
      var onUpdate := if s.cfg.sweepAllOnUpdate then 1 else 0;
      if s.cfg.sweepAfterDepart && Rows.HasDepartedBetween(s.lastRows, next, nowSec, s.cfg.graceSec)
      then Scroll(onUpdate + (if s.cfg.sweepAllOnDepart then 1 else 0))
      else Flip(s.cfg.sweepAllOnUpdate)
  }

  /** `n` sweeps in a row. */
  function Sweeps(display: seq<Rows.Row>, n: nat): (d: seq<Rows.Row>)
    ensures |d| == |display|
    decreases n
  {
    if n == 0 then display else Sweeps(Board.SweepAll(display), n - 1)
  }

  /** Carries out a plan on the grid. */
  function Run(c: Config.Cfg, display: seq<Rows.Row>, next: seq<Rows.Row>, p: Plan, env: Env): (o: Board.Outcome)
    ensures |o.display| == |display|
  {
    match p
    case FullFlip => Board.FlipBoard(c, display, next, env.dice)
    case NoChange => Board.Outcome(display, true)
    case Flip(sweep) => Board.FlipBoard(c, Sweeps(display, if sweep then 1 else 0), next, env.dice)
    case Scroll(n) => Board.ScrollEffect(c, Sweeps(display, n), next, env.blankDice, env.dice)
  }

  /** Records the new rows and their fingerprint when the update completed;
      an update that threw leaves the committed board as it was. */
  function Commit(s: Session, o: Board.Outcome, next: seq<Rows.Row>): (r: Session)
    ensures r.display == o.display && r.cfg == s.cfg && r.items == s.items
    ensures o.ok ==> r.lastRows == Some(next) && r.lastHash == Rows.Fingerprint(next)
    ensures !o.ok ==> r.lastRows == s.lastRows && r.lastHash == s.lastHash
  {
    var shown := s.(display := o.display);
    if o.ok then shown.(lastRows := Some(next), lastHash := Rows.Fingerprint(next)) else shown
  }

  /** The part of `refresh` after the fetch: decide, update, commit. */
  function Reconcile(s: Session, next: seq<Rows.Row>, force: bool, env: Env): Session {
    var p := Decide(s, next, force, env.nowSec);
    if p == NoChange then s else Commit(s, Run(s.cfg, s.display, next, p, env), next)
  }

  /** `refresh(force)`: a failed fetch changes nothing; otherwise the items
      are kept and the board reconciled with the rows they give. */
  function Refresh(s: Session, feed: Feed, force: bool, env: Env): (r: Session)
    ensures feed.Failed? ==> r == s
    ensures feed.Items? ==> r.items == Received(feed.raw) && r.cfg == s.cfg
  {
    match feed
    case Failed => s
    case Items(raw) =>
      var items := Received(raw);
      Reconcile(s.(items := items), Rows.ComputeBoardRows(s.cfg, items, env.nowSec), force, env)
  }

  // ----- Properties of reconciling -----

  lemma {:induction false} SweepsKeepShape(c: Config.Cfg, display: seq<Rows.Row>, n: nat)
    requires Board.Shaped(c, display)
    ensures Board.Shaped(c, Sweeps(display, n))
    decreases n
  {
    if n > 0 {
      Board.SweepKeepsShape(c, display);
      SweepsKeepShape(c, Board.SweepAll(display), n - 1);
    }
  }

  /** Every plan completes on a grid of the configured shape, and the grid
      keeps its shape. */
  lemma RunCompletes(c: Config.Cfg, display: seq<Rows.Row>, next: seq<Rows.Row>, p: Plan, env: Env)
    requires c.rows >= 1 && Board.Shaped(c, display)
    ensures Run(c, display, next, p, env).ok
    ensures Board.Shaped(c, Run(c, display, next, p, env).display)
  {
    var o := Run(c, display, next, p, env);
    match p
    case FullFlip =>
      FlipBoardShape(c, display, next, env.dice);
    case NoChange =>
    case Flip(sweep) =>
      SweepsKeepShape(c, display, if sweep then 1 else 0);
      FlipBoardShape(c, Sweeps(display, if sweep then 1 else 0), next, env.dice);
    case Scroll(n) =>
      SweepsKeepShape(c, display, n);
      ScrollShape(c, Sweeps(display, n), next, env.blankDice, env.dice);
  }

  lemma FlipBoardShape(c: Config.Cfg, display: seq<Rows.Row>, next: seq<Rows.Row>, dice: Board.BoardDice)
    requires Board.Shaped(c, display)
    ensures Board.FlipBoard(c, display, next, dice).ok
    ensures Board.Shaped(c, Board.FlipBoard(c, display, next, dice).display)
  {
    var o := Board.FlipBoard(c, display, next, dice);
    forall r | 0 <= r < |o.display|
      ensures Rows.Fits(o.display[r], c.cols)
    {
      Board.FitsIff(display[r], c.cols);
      Board.FitsIff(o.display[r], c.cols);
    }
  }

  lemma ScrollShape(c: Config.Cfg, display: seq<Rows.Row>, next: seq<Rows.Row>, blankDice: Board.RowDice, dice: Board.BoardDice)
    requires c.rows >= 1 && Board.Shaped(c, display)
    ensures Board.ScrollEffect(c, display, next, blankDice, dice).ok
    ensures Board.Shaped(c, Board.ScrollEffect(c, display, next, blankDice, dice).display)
  {
    Board.BlankLastShape(c, display, blankDice);
    FlipBoardShape(c, Board.BlankLast(c, display, blankDice), next, dice);
  }

  /** `refresh`'s decision order: a full flip exactly when there is no
      committed board or the refresh is forced; otherwise nothing for an
      unchanged fingerprint; otherwise a scroll exactly when departures
      sweep and a departure shows, after one sweep per sweep option that
      is on; otherwise a flip, after a sweep exactly when updates sweep. */
  lemma DecideTable(s: Session, next: seq<Rows.Row>, force: bool, nowSec: int)
    ensures var p := Decide(s, next, force, nowSec);
      var changed := s.lastRows.Some? && !force && Rows.Fingerprint(next) != s.lastHash;
      var departs := s.cfg.sweepAfterDepart && Rows.HasDepartedBetween(s.lastRows, next, nowSec, s.cfg.graceSec);
      && (p == FullFlip <==> s.lastRows.None? || force)
      && (p == NoChange <==> s.lastRows.Some? && !force && Rows.Fingerprint(next) == s.lastHash)
      && (p.Scroll? <==> changed && departs)
      && (p.Flip? <==> changed && !departs)
      && (p.Scroll? ==> p.sweeps == (if s.cfg.sweepAllOnUpdate then 1 else 0) + (if s.cfg.sweepAllOnDepart then 1 else 0))
      && (p.Flip? ==> p.sweep == s.cfg.sweepAllOnUpdate)
  {
  }

  /** Under the invariant, `refresh` skips the update exactly when the new
      rows are the committed ones and the refresh is not forced. */
  lemma NoChangeIff(s: Session, next: seq<Rows.Row>, force: bool, nowSec: int)
    requires Inv(s) && Complete(s.cfg, next)
    ensures Decide(s, next, force, nowSec) == NoChange <==> !force && s.lastRows == Some(next)
  {
    if s.lastRows.Some? {
      Rows.FingerprintInjective(next, s.lastRows.value, s.cfg.cols);
    }
  }

  /** Under the invariant, reconciling complete rows always commits them,
      and keeps the invariant. */
  lemma ReconcileCommits(s: Session, next: seq<Rows.Row>, force: bool, env: Env)
    requires Inv(s) && Complete(s.cfg, next)
    ensures var r := Reconcile(s, next, force, env);
      && Inv(r)
      && r.lastRows == Some(next)
      && r.lastHash == Rows.Fingerprint(next)
      && r.cfg == s.cfg && r.items == s.items
  {
    var p := Decide(s, next, force, env.nowSec);
    NoChangeIff(s, next, force, env.nowSec);
    if p != NoChange {
      RunCompletes(s.cfg, s.display, next, p, env);
    }
  }

  /** A successful fetch always ends with the rows of the fetched items
      committed; a failed one changes nothing. */
  lemma RefreshCommits(s: Session, feed: Feed, force: bool, env: Env)
    requires Inv(s)
    ensures var r := Refresh(s, feed, force, env);
      && Inv(r)
      && (feed.Items? ==> r.lastRows == Some(Rows.ComputeBoardRows(s.cfg, Received(feed.raw), env.nowSec)))
      && (feed.Failed? ==> r == s)
  {
    if feed.Items? {
      var items := Received(feed.raw);
      var next := Rows.ComputeBoardRows(s.cfg, items, env.nowSec);
      ComputedComplete(s.cfg, items, env.nowSec);
      ReconcileCommits(s.(items := items), next, force, env);
    }
  }

  /** When every unit can show its character, the grid ends showing the
      committed rows, whichever plan ran. */
  lemma ReconcileShows(s: Session, next: seq<Rows.Row>, force: bool, env: Env)
    requires Inv(s) && Showing(s) && Complete(s.cfg, next)
    requires Board.RowsReachable(s.cfg, next)
    ensures var r := Reconcile(s, next, force, env);
      Showing(r) && r.display == next
  {
    var p := Decide(s, next, force, env.nowSec);
    NoChangeIff(s, next, force, env.nowSec);
    if p != NoChange {
      var c := s.cfg;
      var o := Run(c, s.display, next, p, env);
      RunCompletes(c, s.display, next, p, env);
      match p
      case FullFlip =>
        SettlesOn(c, s.display, next, env.dice);
      case Flip(sweep) =>
        SweepsKeepShape(c, s.display, if sweep then 1 else 0);
        SettlesOn(c, Sweeps(s.display, if sweep then 1 else 0), next, env.dice);
      case Scroll(n) =>
        SweepsKeepShape(c, s.display, n);
        Board.ScrollEndsLikeFlip(c, Sweeps(s.display, n), next, env.blankDice, env.dice);
        SettlesOn(c, Sweeps(s.display, n), next, env.dice);
    }
  }

  /** A flip of a shaped grid to complete, reachable rows shows them. */
  lemma SettlesOn(c: Config.Cfg, display: seq<Rows.Row>, next: seq<Rows.Row>, dice: Board.BoardDice)
    requires Board.Shaped(c, display) && Complete(c, next) && Board.RowsReachable(c, next)
    ensures Board.FlipBoard(c, display, next, dice).display == next
  {
    Board.ReachableFromShape(c, display, next);
    Board.FlipBoardSettles(c, display, next, dice);
  }

  /** With every unit able to show its character, a plain update and a
      departure end on the same grid: the sweeps and the blanked row leave
      no trace. */
  lemma PlansAgree(s: Session, next: seq<Rows.Row>, env: Env, p: Plan, q: Plan)
    requires Inv(s) && Complete(s.cfg, next) && Board.RowsReachable(s.cfg, next)
    requires p != NoChange && q != NoChange
    ensures Run(s.cfg, s.display, next, p, env) == Run(s.cfg, s.display, next, q, env)
  {
    RunShows(s.cfg, s.display, next, p, env);
    RunShows(s.cfg, s.display, next, q, env);
  }

  lemma RunShows(c: Config.Cfg, display: seq<Rows.Row>, next: seq<Rows.Row>, p: Plan, env: Env)
    requires c.rows >= 1 && Board.Shaped(c, display) && Complete(c, next) && Board.RowsReachable(c, next)
    requires p != NoChange
    ensures Run(c, display, next, p, env) == Board.Outcome(next, true)
  {
    RunCompletes(c, display, next, p, env);
    match p
    case FullFlip =>
      SettlesOn(c, display, next, env.dice);
    case Flip(sweep) =>
      SweepsKeepShape(c, display, if sweep then 1 else 0);
      SettlesOn(c, Sweeps(display, if sweep then 1 else 0), next, env.dice);
    case Scroll(n) =>
      SweepsKeepShape(c, display, n);
      Board.ScrollEndsLikeFlip(c, Sweeps(display, n), next, env.blankDice, env.dice);
      SettlesOn(c, Sweeps(display, n), next, env.dice);
  }

  // ----- Timers and keys -----

  /** Flips to `next` and commits when its fingerprint differs from the
      committed one; otherwise nothing changes. */
  function ShowIfChanged(s: Session, next: seq<Rows.Row>, env: Env): (r: Session)
    ensures r.cfg == s.cfg && r.items == s.items
  {
    if Rows.Fingerprint(next) != s.lastHash then Commit(s, Board.FlipBoard(s.cfg, s.display, next, env.dice), next)
    else s
  }

  /** Under the invariant, showing complete rows keeps the invariant and,
      once a board is committed, commits exactly those rows. */
  lemma ShowIfChangedCommits(s: Session, next: seq<Rows.Row>, env: Env)
    requires Inv(s) && Complete(s.cfg, next)
    ensures Inv(ShowIfChanged(s, next, env))
    ensures s.lastRows.Some? ==> ShowIfChanged(s, next, env).lastRows == Some(next)
  {
    FlipBoardShape(s.cfg, s.display, next, env.dice);
    if s.lastRows.Some? && Rows.Fingerprint(next) == s.lastHash {
      Rows.FingerprintInjective(next, s.lastRows.value, s.cfg.cols);
    }
  }

  /** The rotation timer's callback and the space key: one page on (no
      upper bound, no wrap), rows recomputed from the items already
      fetched, and flipped and committed when their fingerprint
      differs. */
  function NextPage(s: Session, env: Env): (r: Session)
    ensures r.cfg == s.cfg.(page := s.cfg.page + 1) && r.items == s.items
  {
    var c := s.cfg.(page := s.cfg.page + 1);
    ShowIfChanged(s.(cfg := c), Rows.ComputeBoardRows(c, s.items, env.nowSec), env)
  }

  /** Turning the page keeps the invariant and, once a board is committed,
      commits the new page's rows. */
  lemma NextPageCommits(s: Session, env: Env)
    requires Inv(s)
    ensures Inv(NextPage(s, env))
    ensures s.lastRows.Some? ==>
      NextPage(s, env).lastRows == Some(Rows.ComputeBoardRows(s.cfg.(page := s.cfg.page + 1), s.items, env.nowSec))
  {
    var c := s.cfg.(page := s.cfg.page + 1);
    var next := Rows.ComputeBoardRows(c, s.items, env.nowSec);
    ComputedComplete(c, s.items, env.nowSec);
    SameShape(s, c);
    ShowIfChangedCommits(s.(cfg := c), next, env);
    assert NextPage(s, env) == ShowIfChanged(s.(cfg := c), next, env);
  }

  /** A configuration change that keeps the rows and columns keeps the
      invariant. */
  lemma SameShape(s: Session, c: Config.Cfg)
    requires Inv(s) && c.rows == s.cfg.rows && c.cols == s.cfg.cols
    ensures Inv(s.(cfg := c))
  {
  }

  /** The page is not kept within the range loading enforces: from the
      last allowed page the rotation moves past it. */
  lemma NextPageLeavesRange(s: Session, env: Env)
    requires s.cfg.page == 999
    ensures NextPage(s, env).cfg.page == 1000
  {
  }

  /** The per-second watcher: with items fetched and a committed board,
      when the recomputed rows differ and show a departure, sweep when
      asked, scroll, and commit. Otherwise nothing changes. */
  function Watch(s: Session, env: Env): (r: Session)
    ensures r.cfg == s.cfg && r.items == s.items
  {
    if |s.items| == 0 || s.lastRows.None? then s
    else
      var c := s.cfg;
      var next := Rows.ComputeBoardRows(c, s.items, env.nowSec);
      if Rows.Fingerprint(next) != s.lastHash && c.sweepAfterDepart
        && Rows.HasDepartedBetween(s.lastRows, next, env.nowSec, c.graceSec)
      then
        var swept := Sweeps(s.display, if c.sweepAllOnDepart then 1 else 0);
        Commit(s, Board.ScrollEffect(c, swept, next, env.blankDice, env.dice), next)
      else s
  }

  /** The watcher keeps the invariant; it moves the board only on a
      departure, and on every departure it qualifies it commits the
      recomputed rows. */
  lemma WatchOnlyOnDeparture(s: Session, env: Env)
    requires Inv(s)
    ensures var r := Watch(s, env);
      var next := Rows.ComputeBoardRows(s.cfg, s.items, env.nowSec);
      && Inv(r)
      && (r != s ==> s.cfg.sweepAfterDepart && Rows.HasDepartedBetween(s.lastRows, next, env.nowSec, s.cfg.graceSec))
      && (r != s ==> r.lastRows == Some(next))
      && (|s.items| > 0 && s.lastRows.Some? && Rows.Fingerprint(next) != s.lastHash
          && s.cfg.sweepAfterDepart && Rows.HasDepartedBetween(s.lastRows, next, env.nowSec, s.cfg.graceSec)
          ==> r.lastRows == Some(next) && r.lastHash == Rows.Fingerprint(next))
  {
    var c := s.cfg;
    if |s.items| > 0 && s.lastRows.Some? {
      var next := Rows.ComputeBoardRows(c, s.items, env.nowSec);
      ComputedComplete(c, s.items, env.nowSec);
      var swept := Sweeps(s.display, if c.sweepAllOnDepart then 1 else 0);
      SweepsKeepShape(c, s.display, if c.sweepAllOnDepart then 1 else 0);
      ScrollShape(c, swept, next, env.blankDice, env.dice);
    }
  }

  /** The keys `d` and `a`: switch the mode and refresh by force. */
  function SetMode(s: Session, m: Config.Mode, feed: Feed, env: Env): (r: Session)
    ensures r.cfg.mode == m
  {
    Refresh(s.(cfg := s.cfg.(mode := m)), feed, true, env)
  }

  /** Switching the mode keeps the invariant, and a successful fetch
      commits the rows of its items. */
  lemma SetModeCommits(s: Session, m: Config.Mode, feed: Feed, env: Env)
    requires Inv(s)
    ensures Inv(SetMode(s, m, feed, env))
    ensures feed.Items? ==>
      SetMode(s, m, feed, env).lastRows == Some(Rows.ComputeBoardRows(s.cfg.(mode := m), Received(feed.raw), env.nowSec))
  {
    var c := s.cfg.(mode := m);
    SameShape(s, c);
    RefreshCommits(s.(cfg := c), feed, true, env);
    assert SetMode(s, m, feed, env) == Refresh(s.(cfg := c), feed, true, env);
  }

  // ----- The settings panel -----

  /** `buildBoard`: a grid of `cfg.rows` blank rows. */
  function BlankGrid(c: Config.Cfg): (g: seq<Rows.Row>)
    ensures c.rows >= 0 ==> Board.Shaped(c, g)
  {
    seq(Config.Max(c.rows, 0), _ => Rows.BlankRow(c.cols))
  }

  /** "Apply" with a given rebuild decision: read the panel, rebuild the
      grid (forgetting the committed board) when asked, then refresh by
      force. */
  function ApplyWith(s: Session, form: Config.Form, rebuild: bool, feed: Feed, env: Env): Session {
    var c := Config.ApplyUIToCfg(s.cfg, form);
    var s1 := if rebuild then Session(c, BlankGrid(c), s.items, None, "") else s.(cfg := c);
    Refresh(s1, feed, true, env)
  }

  /** `btnApply` as written: rebuild by `Config.RebuildAsWritten`. */
  function ApplyAsWritten(s: Session, form: Config.Form, feed: Feed, env: Env): Session {
    ApplyWith(s, form, Config.RebuildAsWritten(s.cfg, form), feed, env)
  }

  /** `btnApply` corrected: rebuild exactly when the row count changes. */
  function Apply(s: Session, form: Config.Form, feed: Feed, env: Env): Session {
    ApplyWith(s, form, Config.Rebuild(s.cfg, form), feed, env)
  }

  /** The corrected "apply" keeps the invariant. */
  lemma ApplyKeepsInv(s: Session, form: Config.Form, feed: Feed, env: Env)
    requires Inv(s)
    ensures Inv(Apply(s, form, feed, env))
    ensures Config.ValidCfg(Apply(s, form, feed, env).cfg)
  {
    var c := Config.ApplyUIToCfg(s.cfg, form);
    var s1 := if Config.Rebuild(s.cfg, form) then Session(c, BlankGrid(c), s.items, None, "") else s.(cfg := c);
    assert Inv(s1);
    RefreshCommits(s1, feed, true, env);
  }

  /** A grid with fewer rows than configured never commits again: every
      refresh's update throws, whatever it fetched. */
  lemma ShortGridStuck(s: Session, feed: Feed, force: bool, env: Env)
    requires 1 <= |s.display| < s.cfg.rows
    ensures var r := Refresh(s, feed, force, env);
      && r.lastRows == s.lastRows && r.lastHash == s.lastHash
      && r.cfg == s.cfg && |r.display| == |s.display|
  {
    if feed.Items? {
      var items := Received(feed.raw);
      var s1 := s.(items := items);
      var next := Rows.ComputeBoardRows(s.cfg, items, env.nowSec);
      var p := Decide(s1, next, force, env.nowSec);
      if p != NoChange {
        var o := Run(s.cfg, s.display, next, p, env);
        assert !o.ok;
      }
    }
  }

  /** With five rows and the rows input emptied, "apply" as written sets
      ten rows but keeps the five-row grid, and the forced refresh that
      follows throws: the committed board stays the old one, and so it
      stays on every later refresh. */
  lemma ApplyAsWrittenLeavesShortGrid(s: Session, form: Config.Form, feed: Feed, env: Env)
    requires Inv(s) && s.cfg.rows == 5 && form.rows == Config.Empty
    ensures var r := ApplyAsWritten(s, form, feed, env);
      && r.cfg.rows == 10 && |r.display| == 5
      && r.lastRows == s.lastRows
      && !Inv(r)
  {
    Config.RebuildMissedOnEmptyRows(s.cfg, form);
    var c := Config.ApplyUIToCfg(s.cfg, form);
    ShortGridStuck(s.(cfg := c), feed, true, env);
  }

  /** The corrected "apply" in the same situation rebuilds a ten-row grid
      and commits the new board. */
  lemma ApplyRebuildsOnEmptyRows(s: Session, form: Config.Form, feed: Feed, env: Env)
    requires Inv(s) && s.cfg.rows == 5 && form.rows == Config.Empty && feed.Items?
    ensures var r := Apply(s, form, feed, env);
      && r.cfg.rows == 10 && |r.display| == 10
      && r.lastRows.Some?
  {
    Config.RebuildMissedOnEmptyRows(s.cfg, form);
    var c := Config.ApplyUIToCfg(s.cfg, form);
    RefreshCommits(Session(c, BlankGrid(c), s.items, None, ""), feed, true, env);
  }

  // ----- Start-up -----

  /** Start-up: build the grid, flip it to blank rows, then refresh by
      force. The blank flip draws its own overshoots (`startDice`),
      independent of the refresh's. */
  function Start(c: Config.Cfg, feed: Feed, startDice: Board.BoardDice, env: Env): Session {
    var grid := BlankGrid(c);
    var o := Board.FlipBoard(c, grid, BlankGrid(c), startDice);
    Refresh(Session(c, o.display, [], None, ""), feed, true, env)
  }

  /** A valid configuration starts in the invariant, with the first
      fetch's rows committed when it succeeded. */
  lemma StartEstablishesInv(c: Config.Cfg, feed: Feed, startDice: Board.BoardDice, env: Env)
    requires Config.ValidCfg(c)
    ensures Inv(Start(c, feed, startDice, env))
    ensures feed.Items? ==> Start(c, feed, startDice, env).lastRows.Some?
  {
    var grid := BlankGrid(c);
    FlipBoardShape(c, grid, BlankGrid(c), startDice);
    var o := Board.FlipBoard(c, grid, BlankGrid(c), startDice);
    RefreshCommits(Session(c, o.display, [], None, ""), feed, true, env);
  }
}
