# Split-flap departure board: reconciliation core

A Dafny model of the browser side of a split-flap ("Pragotron"-style) departure
board. The board shows timetable rows of five fixed-width fields (time,
destination, train, platform, status). Each character sits on a mechanical
flap unit whose drum carries 44 symbols. The model covers:

- how an item becomes a padded, normalised row;
- when a train counts as departed;
- which items a page shows;
- how a change of board is detected and classified (plain update or departure);
- how a flap unit walks its drum to a new symbol, in direct mode, in step mode,
  and in step mode with overshoot;
- how the field, row and board updates, the sweep and the scroll effect combine
  those walks;
- the reconciler: `refresh`, the rotation timer, the space key, the per-second
  departure watcher, the mode keys and the settings panel's "apply". Each is a
  transition on an explicit session record.

Wall-clock time (`nowSec`, seconds since local midnight) and the random draws
(`Flap.Roll` per unit) are parameters. The network reply is a `Feed` input.

Modules, one file each:

| file | module | what it holds |
|---|---|---|
| `wrappers.dfy` | `Wrappers` | `Option` |
| `text.dfy` | `Text` | case mapping, trimming, whitespace collapsing, transliteration, `normalizeText`, `padAlign`, `includes` |
| `alphabet.dfy` | `Alphabet` | the 44-symbol drum, `idxInAlphabet`, `stepChar` |
| `flap.dfy` | `Flap` | `flipToChar` as a trace of flips, with its closed form |
| `config.dfy` | `Config` | `clampInt`, defaults, `loadCfgMergeUrl`, `saveCfg`, `applyUIToCfg`, the rebuild test of "apply" |
| `schedule.dfy` | `Schedule` | `parseTimeToTodaySeconds`, `isDeparted` |
| `rows.dfy` | `Rows` | `blankRow`, `itemToRow`, `filteredItems`, `pageSlice`, `computeBoardRows`, `boardFingerprint`, `hasDepartedBetween` |
| `board.dfy` | `Board` | `flipField`, `flipRow`, `flipBoard`, `sweepAll`, `scrollEffect` |
| `reconciler.dfy` | `Reconciler` | the session, `refresh` and the timer and key callbacks |

The central facts are these:

- **Step mode.** `Flap.StepTrace` gives a closed form for step mode. Every
  step-mode transition is the turn of `StepFlips` successive drum symbols after
  the one shown. That count is:
  - the forward distance, for a plain walk to a drum symbol;
  - the forward distance plus one full turn of 44, with overshoot;
  - 280 (both loop guards used up), for a character that is not on the drum.
- **Session invariant.** `Reconciler.Inv` is kept by every transition except
  "apply" as written (`Reconciler.ApplyAsWrittenLeavesShortGrid`, see
  "## Findings"); the corrected apply keeps it (`Reconciler.ApplyKeepsInv`). The grid
  has the configured shape, and a committed board has `cfg.rows` rows of the
  column widths and carries its own fingerprint.
- **Commits.** `Reconciler.RefreshCommits` shows that a successful fetch always
  commits the rows computed from its items, and that a failed fetch changes
  nothing.

## Model

| member | source | states |
|---|---|---|
| Text.NormalizeTextIsNormalized | public/app.js:99-106 | the normalised text has no lower-case or Polish diacritic letter, no whitespace but single blanks, and no blank at either end |
| Text.NormalizedIsFixpoint | public/app.js:99-106 | a text already in normalised shape comes back unchanged |
| Text.NormalizeTextIdempotent | public/app.js:99-106 | normalising twice gives the same text as normalising once |
| Text.NormalizeTextWords | public/app.js:99-106 | the normalised text is the input's words (its maximal runs of non-whitespace characters), in order, each upper-cased and transliterated, separated by single blanks |
| Text.WordsAreWords | public/app.js:105 | every word is non-empty and holds no whitespace |
| Text.CollapseWords | public/app.js:105 | on text without whitespace at either end, replacing each whitespace run by a blank joins its words with single blanks |
| Text.WordsTrim | public/app.js:101 | trimming a text changes none of its words |
| Text.WordsMap | public/app.js:101-104 | a character map that sends whitespace to whitespace and nothing else maps the words one by one, keeping their number and order |
| Text.CollapseNoRuns | public/app.js:105 | after replacing whitespace runs by a blank, no two whitespace characters are adjacent |
| Text.CollapseChars | public/app.js:105 | collapsing whitespace introduces no character except the blank |
| Text.CollapseEnds | public/app.js:105 | collapsing keeps the text empty or non-empty, and keeps whether it starts or ends with whitespace |
| Text.CollapseFixpoint | public/app.js:105 | a text whose only whitespace is single blanks is unchanged by collapsing |
| Text.UpperCharIdempotent | public/app.js:101-105 | upper-casing and transliteration are idempotent and neither turns whitespace into non-whitespace or back |
| Text.Cut | public/app.js:109 | the cut is a prefix of the text of exactly `len` characters, or the whole text when shorter |
| Text.LeftPad | public/app.js:110-118 | the blanks put before the text never exceed the free space |
| Text.PadAlign | public/app.js:107-119 | a field is always exactly `len` characters wide |
| Text.FitCutsLong | public/app.js:108-111 | text at least `len` long is cut to its first `len` characters with no padding |
| Text.FitCells | public/app.js:107-119 | each cell holds the cut text's character inside its frame and a blank outside; left puts the text first, right last, and centre leaves at most one more blank on the right than on the left |
| Text.FitTrimRoundTrip | public/app.js:107-119 | trimming a fitted field gives back any text that fits and has no blank at its ends |
| Text.PadAlignTrimRoundTrip | public/app.js:107-119 | trimming `padAlign`'s field gives back the normalised text whenever it fits, for every alignment |
| Text.ContainsIff | public/app.js:352 | `includes` holds exactly when the query occurs at some position of the text |
| Alphabet.AlphabetIsDrum | public/app.js:37 | the alphabet has 44 symbols, none repeated, all upper case |
| Alphabet.AlphabetEnds | public/app.js:37 | the drum starts with the blank, then `A`, `B`, and ends with `)` |
| Alphabet.IndexOf | public/app.js:397 | the lookup is -1 or a position holding the character |
| Alphabet.IndexOfFirst | public/app.js:397 | the lookup is -1 exactly for an absent character, and otherwise is its first position |
| Alphabet.Idx | public/app.js:395-399 | the drum position is a valid index of the drum, or 0 |
| Alphabet.IdxFound | public/app.js:395-399 | the drum position is 0 when the drum does not carry the upper-cased character, and otherwise the first position holding it |
| Alphabet.IdxOfSym | public/app.js:395-399 | the symbol at position `k` is found at `k mod 44` |
| Alphabet.IdxOnDrum | public/app.js:395-399 | for a drum symbol the position is its index, and the symbol there is itself |
| Alphabet.StepCharSym | public/app.js:400-402 | `stepChar` moves exactly one drum position forward, wrapping at the end |
| Alphabet.SymHits | public/app.js:400-402 | drum position `k` shows a drum symbol exactly when `k` is congruent to its index, and never shows a character off the drum |
| Alphabet.StepCharWraps | public/app.js:401 | `)` steps to the blank |
| Alphabet.LastWraps | public/app.js:401 | on any drum, the last symbol steps to the first |
| Alphabet.StepCharUnknown | public/app.js:395-402 | a character off the drum counts as position 0, so it steps to `A` |
| Alphabet.StepTwice | public/app.js:400-402 | two steps advance a drum character by two positions mod 44, and take an unknown character to the third symbol |
| Flap.OvershootSteps | public/app.js:439-440 | the overshoot is 0, 1 or 2 symbols, and positive exactly when overshoot is on and the draw hits |
| Flap.FlipToChar | public/app.js:426-436 | nothing flips when the unit already shows the target; direct mode flips once, to the target, after the delay |
| Flap.StepTrace | public/app.js:438-471 | step mode is the turn of `StepFlips` successive drum symbols after the shown one; that is the distance, plus 44 with overshoot, or 280 off the drum |
| Flap.StepModePlain | public/app.js:441-471 | without overshoot: `Dist` flips (at most 44), each to the successor, only the first delayed, ending on the target, which shows at no earlier flip |
| Flap.StepModeOvershoot | public/app.js:439-463 | with overshoot: `Dist + 44` flips, each to the successor, only the first delayed, ending on the target, which shows exactly at flip `Dist` and at the last |
| Flap.StepModeForeign | public/app.js:443-471 | a target off the drum is never shown; the unit stops after 280 successor flips, away from the target |
| Flap.SettlesIff | public/app.js:426-471 | a unit ends on its target exactly when it showed it already, the mode is direct, or the target is on the drum |
| Flap.FlipCountBound | public/app.js:443-471 | every transition terminates within 280 flips |
| Flap.DistFormula | public/app.js:400-402 | between drum symbols the distance is `(idx(target) - idx(current) + 44) mod 44` |
| Flap.ForeignToFirst | public/app.js:395-402 | from a shown character that is off the drum, reaching the blank takes a full turn |
| Board.Target | public/app.js:477 | the field's target is exactly as long as the field and equals a text of that length |
| Board.FlipField | public/app.js:473-482 | a field keeps its width |
| Board.FlipFieldAt | public/app.js:473-482 | unit `i` ends on its character exactly when it already showed it or can reach it |
| Board.FlipFieldSettles | public/app.js:473-482 | a field whose characters are reachable ends showing its text, cut or blank-padded, whatever it showed |
| Board.TransitionTiming | public/app.js:426-471 | in every mode only the first flip of a transition waits, and it waits the given delay |
| Board.UnitTraceTiming | public/app.js:475-479 | unit `i` waits `i * staggerMs` before its first flip only, and flips at most 280 times |
| Board.FlipRow | public/app.js:483-491 | a row keeps the width of every field |
| Board.FlipRowSettles | public/app.js:483-491 | a row of the column widths ends showing a reachable target of the same widths |
| Board.BlankIsReachable | public/app.js:120-122 | the blank is reachable in either mode |
| Board.BlankReachable | public/app.js:120-122 | a blank row is reachable from any row |
| Board.FlipBoard | public/app.js:492-498 | the grid keeps its size, the update completes exactly when the grid has `cfg.rows` rows, and rows past `cfg.rows` stay as they were |
| Board.FlipBoardSettles | public/app.js:492-498 | on a grid of the configured shape the update completes and row `r` shows target `r`, or a blank row past the targets |
| Board.ReachableFromShape | public/app.js:492-498 | targets of the column widths using reachable characters are reachable from every grid of the configured shape |
| Board.FlipForgetsStart | public/app.js:492-498 | flipping to reachable targets gives the same result from any starting grid of the configured shape |
| Board.SweepAdvancesTwo | public/app.js:508-516 | the sweep advances every drum character two positions, and takes any other character to `B` |
| Board.SweepKeepsShape | public/app.js:501-517 | the sweep keeps the grid's shape |
| Board.SweepTrace | public/app.js:508-514 | a unit's sweep is two flips, ending on the swept character |
| Board.SweepIndexShaped | public/app.js:502-513 | in a grid of the configured shape, the sweep staggers unit `k` of field `f` of row `r` by its reading-order index `r * units + offset(f) + k` |
| Board.UnitsBeforeShaped | public/app.js:502-507 | the rows before a row of the configured shape hold `rows * units per row` units |
| Board.ScrollEffect | public/app.js:518-522 | the scroll completes exactly when the grid has row `cfg.rows - 1`, and a failed scroll changes nothing |
| Board.BlankLast | public/app.js:520 | blanking the last row changes no other row |
| Board.BlankLastShape | public/app.js:520 | blanking the last row keeps the grid's shape |
| Board.ScrollBlanksLastRow | public/app.js:520 | after the first step of the scroll the last configured row is blank |
| Board.ScrollEndsLikeFlip | public/app.js:518-522 | with reachable targets the scroll ends exactly where a plain board flip ends |
| Board.SweepThenFlip | public/app.js:578-585 | a sweep before a board flip to reachable targets does not change where the flip ends |
| Config.Trunc | public/app.js:97 | truncation rounds toward zero, for negative values too |
| Config.ClampInt | public/app.js:94-98 | the result lies in `[lo, hi]`, and not-a-number gives `lo` |
| Config.ClampInRange | public/app.js:94-98 | an integer already in range is kept |
| Config.ClampOutOfRange | public/app.js:94-98 | values below the range, including minus infinity, give `lo`; values above it, including infinity, give `hi` |
| Config.ClampIdempotent | public/app.js:94-98 | clamping a clamped value changes nothing |
| Config.ClampMonotone | public/app.js:94-98 | clamping keeps the order of its inputs |
| Config.DefaultsValid | public/app.js:40-69 | every default lies in the range loading enforces |
| Config.ModeRoundTrip | public/app.js:170 | a saved mode reads back as itself; a text reads back unchanged exactly when it is `arrivals` or `departures`, and any text other than `arrivals` means departures |
| Config.CharModeRoundTrip | public/app.js:171 | a saved flap mode reads back as itself; a text reads back unchanged exactly when it is `direct` or `step`, and any text other than `direct` means step mode |
| Config.LoadCfgMergeUrl | public/app.js:159-174 | every integer option is in its range; a URL row count is clamped into `[5,20]`; arrivals mode exactly when the merged text is `arrivals` |
| Config.LoadDefaults | public/app.js:159-174 | with nothing stored and no URL values the board runs on its defaults |
| Config.SaveLoadRoundTrip | public/app.js:159-177 | loading what was saved, with no URL values, gives back any valid configuration |
| Config.LoadSaveLoad | public/app.js:159-177 | saving a loaded configuration and loading it again changes nothing |
| Config.UrlTakesPrecedence | public/app.js:131-160 | for each of the 20 options a URL can set (and for `cols`, which only stored options carry in practice), a value the URL layer sets decides the option whatever was stored |
| Config.ApplyUIToCfg | public/app.js:213-235 | the panel always yields a valid configuration with the columns kept; an empty rows input means the default 10, an empty rotation input means 0 |
| Config.ApplyUnchangedForm | public/app.js:186-235 | applying the panel as it was filled from a valid configuration gives that configuration back |
| Config.RebuildAsWritten | public/app.js:246 | an empty rows input, or one equal to the current count, never rebuilds the grid |
| Config.RebuildMissedOnEmptyRows | public/app.js:246-249 | with 5 rows and the rows input emptied, the configuration gets 10 rows while the test as written does not rebuild |
| Config.RebuildCorrected | public/app.js:246-249 | the corrected test catches a change the test as written misses only for an emptied rows input away from the default; the test as written rebuilds needlessly only for an entered value other than the current count that truncates or clamps back to it |
| Config.RebuildAgreesOnWholeRows | public/app.js:246-249 | for a whole number of rows between 5 and 20 both tests agree |
| Config.RebuildNeedlessOnClampedRows | public/app.js:246-249 | at 20 rows, entering 25 rebuilds under the test as written although the row count stays 20 |
| Schedule.ParseTime | public/app.js:333-339 | a time is read exactly when it matches `H:MM` or `HH:MM`, giving whole minutes between 0 and `99*3600 + 99*60` seconds |
| Schedule.ParseFormatted | public/app.js:333-339 | reading a formatted `HH:MM` gives back `HH*3600 + MM*60` |
| Schedule.ParseShortHour | public/app.js:334 | a one-digit hour reads like the same hour with a leading zero |
| Schedule.MinutesNotChecked | public/app.js:334-338 | minutes are not range-checked: `08:75` reads as `09:15` |
| Schedule.IsDeparted | public/app.js:340-346 | only a time of the `H:MM` shape can have departed, so a time the pattern rejects never departs |
| Schedule.DepartedShortHour | public/app.js:332-346 | a time with a one-digit hour (`H:MM`) has departed exactly when the clock is past `h*3600 + m*60` plus the grace period |
| Schedule.DepartedFormatted | public/app.js:340-346 | a formatted time has departed exactly when the clock is strictly past it plus the grace period |
| Schedule.DepartedIgnoresPadding | public/app.js:341 | blanks around the time do not change the answer |
| Schedule.DepartedStays | public/app.js:345 | once departed, a train stays departed later in the day |
| Schedule.DepartedGraceMonotone | public/app.js:345 | a longer grace period never makes a train depart sooner |
| Schedule.DepartedExample | public/app.js:340-346 | `08:15` with 15 s of grace has not departed at 29715 s and has departed at 29716 s |
| Rows.BlankRow | public/app.js:120-122 | the blank row has the column widths and holds only blanks |
| Rows.ItemToRow | public/app.js:360-368 | the row of an item has exactly the column widths |
| Rows.ItemToRowReadBack | public/app.js:360-368 | trimming each field of an item's row gives back the normalised field, when it fits |
| Rows.Keep | public/app.js:352 | the filter keeps exactly the elements that satisfy the predicate |
| Rows.KeepAppend | public/app.js:352 | filtering a concatenation filters each part in turn, so kept items stay in their original order |
| Rows.KeepAll | public/app.js:352 | filtering keeps a list whose every element passes |
| Rows.FilteredItems | public/app.js:349-353 | an empty filter keeps every item; otherwise an item stays exactly when its lower-cased search text contains the lower-cased query |
| Rows.FilterIgnoresCase | public/app.js:350 | filtering by the upper-cased query gives the same items as filtering by the query |
| Rows.Live | public/app.js:545 | an item stays exactly when it has not departed |
| Rows.SliceIndex | public/app.js:356 | a slice bound is clamped into the list, and an in-range bound is kept |
| Rows.PageSlice | public/app.js:354-357 | a page holds at most `rows` items |
| Rows.PageSliceAt | public/app.js:354-357 | entry `i` of page `p` exists exactly when item `(p-1)*rows + i` does, and is that item |
| Rows.SliceAt | public/app.js:356 | entry `i` of a slice from `start` exists exactly when item `start + i` does, and is that item |
| Rows.ItemOnItsPage | public/app.js:354-357 | item `j` appears on page `j / rows + 1`, at position `j mod rows` |
| Rows.ComputeBoardRows | public/app.js:544-555 | exactly `cfg.rows` rows, each of the column widths |
| Rows.VisibleIff | public/app.js:544-546 | an item is a candidate for the board exactly when it has not departed and matches the filter |
| Rows.BoardRowAt | public/app.js:549-553 | on page `p`, board row `i` is the row of candidate item `(p-1)*rows + i` whenever that item exists |
| Rows.BoardShowsOnlySelected | public/app.js:544-555 | every board row is blank or the row of an item that has not departed and matches the filter |
| Rows.VisibleItemShown | public/app.js:544-555 | every candidate item appears on its page, at position `j mod rows` |
| Rows.RowsAfterPageBlank | public/app.js:549-553 | rows past the last candidate item on the page are blank |
| Rows.LineRoundTrip | public/app.js:372 | a row of the column widths is recovered from its line, the fields joined by bars |
| Rows.FingerprintRoundTrip | public/app.js:371-373 | rows of the column widths are recovered from their fingerprint |
| Rows.FingerprintInjective | public/app.js:371-373 | for rows of the column widths, equal fingerprints mean equal rows, and conversely |
| Rows.HasDepartedBetween | public/app.js:374-379 | a departure needs a previous board with a first row |
| Rows.DepartedBetweenIff | public/app.js:374-379 | a departure happened exactly when the previous first time is present, differs from the next first time after trimming, and has departed |
| Rows.NoDepartureWithoutChange | public/app.js:374-379 | if the first row's trimmed time is unchanged, no departure is seen |
| Reconciler.ComputedComplete | public/app.js:549-554 | computed rows always form a complete board of `cfg.rows` rows of the column widths |
| Reconciler.Decide | public/app.js:569-585 | nothing is done only for an unforced refresh with a committed board whose fingerprint matches; a scroll is chosen only on a departure with sweeping after departures on, after at most two sweeps |
| Reconciler.DecideTable | public/app.js:569-585 | in both directions: a full flip exactly without a committed board or when forced; nothing exactly for an unchanged fingerprint otherwise; a scroll exactly when the board changed and a departure shows with sweeping after departures on, after one sweep per sweep option that is on; otherwise a flip, after a sweep exactly when updates sweep |
| Reconciler.Refresh | public/app.js:558-592 | a failed fetch changes nothing; a successful one keeps the trimmed items and the configuration |
| Reconciler.SweepsKeepShape | public/app.js:578-581 | any number of sweeps keeps the grid's shape |
| Reconciler.RunCompletes | public/app.js:569-585 | on a grid of the configured shape every plan completes and keeps that shape |
| Reconciler.NoChangeIff | public/app.js:576 | under the invariant, a complete board is left alone exactly when the refresh is unforced and the board equals the committed one |
| Reconciler.ReconcileCommits | public/app.js:569-588 | under the invariant, reconciling to a complete board keeps the invariant and commits that board with its fingerprint |
| Reconciler.RefreshCommits | public/app.js:558-592 | `refresh` keeps the invariant; a successful fetch commits the rows computed from its items, and a failed one changes nothing |
| Reconciler.ReconcileShows | public/app.js:569-588 | when the grid shows the committed board and the new board is reachable, the grid ends showing the new board |
| Reconciler.PlansAgree | public/app.js:569-585 | full flip, plain flip, sweep-then-flip and sweep-then-scroll all end in the same grid for a reachable board |
| Reconciler.RunShows | public/app.js:569-585 | every plan that updates the grid ends showing the new board and completes |
| Reconciler.ShowIfChanged | public/app.js:608-614 | the rotation step changes neither the configuration nor the items |
| Reconciler.ShowIfChangedCommits | public/app.js:608-614 | flipping on a changed fingerprint keeps the invariant and, once a board is committed, leaves the new rows committed |
| Reconciler.NextPage | public/app.js:603-615 | the rotation and the space key move exactly one page on and keep the items |
| Reconciler.NextPageCommits | public/app.js:652-660 | turning the page keeps the invariant and commits the new page's rows once a board is committed |
| Reconciler.NextPageLeavesRange | public/app.js:604 | from page 999 the rotation moves to page 1000, outside the range loading enforces |
| Reconciler.Watch | public/app.js:619-629 | the watcher changes neither the configuration nor the items |
| Reconciler.WatchOnlyOnDeparture | public/app.js:619-629 | the watcher keeps the invariant; it moves the board only on a departure with sweeping after departures on, and on every such departure of a changed board, with items fetched and a board committed, it commits the recomputed rows and their fingerprint |
| Reconciler.SetMode | public/app.js:646-647 | the `d` and `a` keys set the mode |
| Reconciler.SetModeCommits | public/app.js:646-647 | switching the mode keeps the invariant and commits the rows of a successful fetch in the new mode |
| Reconciler.BlankGrid | public/app.js:286-330 | the built grid has the configured shape |
| Reconciler.ApplyKeepsInv | public/app.js:245-252 | the corrected "apply" keeps the invariant and leaves a valid configuration |
| Reconciler.ShortGridStuck | public/app.js:558-592 | on a grid with fewer rows than configured, no refresh ever commits, and the grid keeps its size |
| Reconciler.ApplyAsWrittenLeavesShortGrid | public/app.js:245-252 | as written, emptying the rows input at 5 rows configures 10 rows on a 5-row grid, commits nothing, and breaks the invariant |
| Reconciler.ApplyRebuildsOnEmptyRows | public/app.js:245-252 | corrected, the same input rebuilds a 10-row grid and commits the fetched board |
| Reconciler.StartEstablishesInv | public/app.js:665-676 | start-up from a valid configuration establishes the invariant, with the first fetch's rows committed when it succeeds |

## Left out

- Behaviour of `public/app.js` that the model keeps as it is, and that a reader might expect otherwise:
  - The sweep is two waves of one successor step each (lines 508-516).
  - A character that is not on the drum keeps its value in the target text. `idxInAlphabet` treats it as position 0 only for stepping. In step mode the unit makes 280 flips and stops away from the target (`Flap.StepModeForeign`); in direct mode it flips straight to it.
  - An overrun of the 140-step guard ends the transition silently; nothing reports it.
  - The row count is clamped into `[5, 20]`, so the board has at least five rows.
  - Invalid stored or URL numbers are clamped, and not-a-number gives the lower bound.
  - The fingerprint tells boards apart only for rows whose fields have the column widths (`Rows.FingerprintInjective`); a bar character inside a field of free width could make two boards collide.
  - The rotation moves the page on without bound or wrap (`Reconciler.NextPageLeavesRange`).
  - Minutes are not range-checked (`Schedule.MinutesNotChecked`).
- DOM and presentation are not modelled: `setFlapChar`, element building beyond the grid's shape, labels, `applyCfgToUI`'s text, brightness, night and kiosk styling, the clock, opening and closing the panel, the Escape, `o` and Enter keys.
- The `n`, `k` and `s` keys are left out; they only toggle presentation options and save them.
- Audio (`ensureAudio`, `playClack`) and fullscreen are browser side effects.
- Timing is not modelled: `setTimeout`, `setInterval`, `animationend`, the timers' periods and their restart. A flip is one atomic step carrying only its start delay.
- Concurrency is not modelled: the `Promise.all` fan-out and overlapping callbacks. Each transition runs to completion before the next starts. The code has no lock, so overlapping `refresh`, rotation and watcher callbacks can interleave in ways the model does not cover.
- Flap.FlipToChar: the flip duration `cfg.flipMs` plus up to 40 ms of random jitter is not part of a flip.
- Config.LoadCfgMergeUrl: `brightness` and `overshootChance` are left out, since they are floating-point clamps. The overshoot draw `Math.random() < overshootChance` is the `Roll.hit` input instead.
- Config.ApplyUIToCfg: `brightness` and `overshootChance` are left out, for the same reason; saving and redrawing the panel are left out.
- `fetchBoard`'s network call, JSON decoding and status text are left out. Its reply is the `Feed` input, and only the mapping of items (`Reconciler.Received`, which trims each item's time) is modelled.
- `loadCfg`, `saveCfg` (localStorage, JSON) and `parseUrlParams` (URL parsing) are left out. The stored options and the URL values are `Layer`s of already-converted values. `Number()` is abstracted as the `Num` values it can produce: a finite real, plus or minus infinity, or not-a-number.
- Text: case mapping and `\s` cover ASCII and the nine Polish letters `normalizeText` transliterates; other Unicode letters and whitespace are not modelled.
- JavaScript strings are sequences of UTF-16 code units; the model uses Dafny characters, which agree for every character the board uses.
- `server.js` is not part of this model: routing, scraping and caching of the timetable.

## Findings

| source | as written | input that shows it | evidently intended | confidence | as-written member | corrected member |
|---|---|---|---|---|---|---|
| public/app.js:246 | "apply" decides to rebuild the grid by comparing `cfg.rows` with the raw rows input (itself when the input is empty), before `applyUIToCfg` replaces an empty rows input by the default 10 (line 217) | 5 rows configured, the rows input emptied, "apply" pressed: the configuration gets 10 rows, the grid keeps 5, every later `flipBoard` throws on row 5, and no refresh commits again | rebuild whenever the row count that applying sets differs from the current one | not executed | Reconciler.ApplyAsWrittenLeavesShortGrid | Reconciler.ApplyRebuildsOnEmptyRows |
