/**
 * From timetable items to the rows the board shows: the padded row of an
 * item (`itemToRow`), the blank row, the text filter, the page window, the
 * board's rows (`computeBoardRows`), the fingerprint that tells whether the
 * board changed (`boardFingerprint`), and the test for a departure between
 * two boards (`hasDepartedBetween`).
 */
module Rows {
  import opened Wrappers
  import Text
  import Config
  import Schedule

  /** One timetable entry as the server's feed gives it; a missing field is
      the empty text. */
  datatype Item = Item(time: string, destination: string, train: string, platform: string, status: string)

  /** One board row: the text of each of its five fields. */
  datatype Row = Row(time: string, destination: string, train: string, platform: string, status: string)

  /** Every field of the row is exactly as wide as its column. */
  predicate Fits(r: Row, cols: Config.Cols) {
    && |r.time| == cols.time && |r.destination| == cols.destination
    && |r.train| == cols.train && |r.platform| == cols.platform
    && |r.status| == cols.status
  }

  /** `blankRow`: every field all blanks. */
  function BlankRow(cols: Config.Cols): (r: Row)
    ensures Fits(r, cols)
    ensures forall c :: c in r.time + r.destination + r.train + r.platform + r.status ==> c == ' '
  {
    Row(Text.Spaces(cols.time), Text.Spaces(cols.destination), Text.Spaces(cols.train),
        Text.Spaces(cols.platform), Text.Spaces(cols.status))
  }

  /** `itemToRow`: each field normalised and aligned in its column; the
      time and the platform centred, the rest to the left. */
  function ItemToRow(cols: Config.Cols, it: Item): (r: Row)
    ensures Fits(r, cols)
  {
    Row(Text.PadAlign(it.time, cols.time, Text.Center),
        Text.PadAlign(it.destination, cols.destination, Text.Left),
        Text.PadAlign(it.train, cols.train, Text.Left),
        Text.PadAlign(it.platform, cols.platform, Text.Center),
        Text.PadAlign(it.status, cols.status, Text.Left))
  }

  /** Reading a row back: trimming a field of the row gives the
      normalised field whenever that fits its column. */
  lemma ItemToRowReadBack(cols: Config.Cols, it: Item)
    ensures var r := ItemToRow(cols, it);
      && (|Text.NormalizeText(it.time)| <= cols.time ==> Text.Trim(r.time) == Text.NormalizeText(it.time))
      && (|Text.NormalizeText(it.destination)| <= cols.destination ==>
            Text.Trim(r.destination) == Text.NormalizeText(it.destination))
      && (|Text.NormalizeText(it.train)| <= cols.train ==> Text.Trim(r.train) == Text.NormalizeText(it.train))
      && (|Text.NormalizeText(it.platform)| <= cols.platform ==>
            Text.Trim(r.platform) == Text.NormalizeText(it.platform))
      && (|Text.NormalizeText(it.status)| <= cols.status ==> Text.Trim(r.status) == Text.NormalizeText(it.status))
  {
    if |Text.NormalizeText(it.time)| <= cols.time {
      Text.PadAlignTrimRoundTrip(it.time, cols.time, Text.Center);
    }
    if |Text.NormalizeText(it.destination)| <= cols.destination {
      Text.PadAlignTrimRoundTrip(it.destination, cols.destination, Text.Left);
    }
    if |Text.NormalizeText(it.train)| <= cols.train {
      Text.PadAlignTrimRoundTrip(it.train, cols.train, Text.Left);
    }
    if |Text.NormalizeText(it.platform)| <= cols.platform {
      Text.PadAlignTrimRoundTrip(it.platform, cols.platform, Text.Center);
    }
    if |Text.NormalizeText(it.status)| <= cols.status {
      Text.PadAlignTrimRoundTrip(it.status, cols.status, Text.Left);
    }
  }

  // ----- Selecting items -----

  /** `Array.prototype.filter`: the elements that pass, in order. */
  function Keep<T(!new)>(s: seq<T>, p: T -> bool): (r: seq<T>)
    ensures |r| <= |s|
    ensures forall x :: x in r <==> x in s && p(x)
  {
    if |s| == 0 then []
    else
      var rest := Keep(s[1..], p);
      if p(s[0]) then [s[0]] + rest else rest
  }

  /** Filtering keeps the order: it distributes over concatenation. */
  lemma {:induction false} KeepAppend<T(!new)>(a: seq<T>, b: seq<T>, p: T -> bool)
    ensures Keep(a + b, p) == Keep(a, p) + Keep(b, p)
  {
    if |a| == 0 {
      assert a + b == b;
    } else {
      assert (a + b)[0] == a[0];
      assert (a + b)[1..] == a[1..] + b;
      KeepAppend(a[1..], b, p);
    }
  }

  /** When every element passes, filtering changes nothing. */
  lemma {:induction false} KeepAll<T(!new)>(s: seq<T>, p: T -> bool)
    requires forall i :: 0 <= i < |s| ==> p(s[i])
    ensures Keep(s, p) == s
  {
    if |s| > 0 {
      KeepAll(s[1..], p);
      assert s == [s[0]] + s[1..];
    }
  }

  /** The text a filter query is matched against. */
  function SearchText(it: Item): string {
    it.time + " " + it.destination + " " + it.train + " " + it.platform + " " + it.status
  }

  /** The item's lower-cased search text contains the (lower-cased)
      query. */
  predicate Matches(it: Item, q: string) {
    Text.Contains(Text.Lower(SearchText(it)), q)
  }

  /** `filteredItems`: an empty query keeps every item; otherwise the
      items whose search text contains the query, ignoring case. */
  function FilteredItems(items: seq<Item>, filter: string): (r: seq<Item>)
    ensures filter == [] ==> r == items
    ensures forall it :: it in r <==> it in items && (filter == [] || Matches(it, Text.Lower(filter)))
  {
    var q := Text.Lower(filter);
    if q == [] then items else Keep(items, (it: Item) => Matches(it, q))
  }

  /** The query's case does not matter. */
  lemma FilterIgnoresCase(items: seq<Item>, filter: string)
    ensures FilteredItems(items, Text.Upper(filter)) == FilteredItems(items, filter)
  {
    assert Text.Lower(Text.Upper(filter)) == Text.Lower(filter);
  }

  /** Items whose time has not departed (`computeBoardRows`'s first
      step). */
  function Live(items: seq<Item>, nowSec: int, graceSec: int): (r: seq<Item>)
    ensures forall it :: it in r <==> it in items && !Schedule.IsDeparted(it.time, nowSec, graceSec)
  {
    Keep(items, (it: Item) => !Schedule.IsDeparted(it.time, nowSec, graceSec))
  }

  // ----- Paging -----

  /** How `Array.prototype.slice` reads an index: negative counts from the
      end; the result lies in `[0, n]`. */
  function SliceIndex(i: int, n: nat): (k: nat)
    ensures k <= n
    ensures 0 <= i <= n ==> k == i
  {
    if i < 0 then (if n + i < 0 then 0 else n + i)
    else if i > n then n
    else i
  }

  /** `Array.prototype.slice(b, e)`. */
  function Slice<T>(s: seq<T>, b: int, e: int): seq<T> {
    var from, to := SliceIndex(b, |s|), SliceIndex(e, |s|);
    if from < to then s[from..to] else []
  }

  /** `pageSlice`: the items of page `page` when each page holds `rows`
      items. */
  function PageSlice(items: seq<Item>, page: int, rows: int): (r: seq<Item>)
    ensures page >= 1 && rows >= 0 ==> |r| <= rows
  {
    var start := (page - 1) * rows;
    Slice(items, start, start + rows)
  }

  /** Line `i` of page `page` is the item at `(page - 1) * rows + i`, and
      exists exactly when that item does. */
  lemma PageSliceAt(items: seq<Item>, page: int, rows: int, i: int)
    requires page >= 1 && rows >= 0 && 0 <= i < rows
    ensures var r := PageSlice(items, page, rows);
      var j := (page - 1) * rows + i;
      && (i < |r| <==> j < |items|)
      && (i < |r| ==> r[i] == items[j])
  {
    ProductNonNegative(page - 1, rows);
    SliceAt(items, (page - 1) * rows, rows, i);
  }

  lemma ProductNonNegative(x: int, y: int)
    requires x >= 0 && y >= 0
    ensures x * y >= 0
  {
  }

  /** `slice(start, start + len)` from a non-negative start. */
  lemma SliceAt(items: seq<Item>, start: nat, len: nat, i: nat)
    requires i < len
    ensures var r := Slice(items, start, start + len);
      && (i < |r| <==> start + i < |items|)
      && (i < |r| ==> r[i] == items[start + i])
  {
  }

  /** Every item is on exactly one line of one page. */
  lemma ItemOnItsPage(items: seq<Item>, rows: int, j: int)
    requires rows > 0 && 0 <= j < |items|
    ensures var r := PageSlice(items, j / rows + 1, rows);
      j % rows < |r| && r[j % rows] == items[j]
  {
    var p, k := j / rows, j % rows;
    assert p * rows + k == j;
    PageSliceAt(items, p + 1, rows, k);
  }

  // ----- The board's rows -----

  /** The items the board lists, page by page: those not departed that
      match the filter, in their order. */
  function Visible(c: Config.Cfg, items: seq<Item>, nowSec: int): seq<Item> {
    FilteredItems(Live(items, nowSec, c.graceSec), c.filter)
  }

  /** `computeBoardRows`: one row per configured line, the page's items
      first and blank rows after them. */
  function ComputeBoardRows(c: Config.Cfg, items: seq<Item>, nowSec: int): (rows: seq<Row>)
    ensures |rows| == Config.Max(c.rows, 0)
    ensures forall i :: 0 <= i < |rows| ==> Fits(rows[i], c.cols)
  {
    var shown := PageSlice(Visible(c, items, nowSec), c.page, c.rows);
    seq(Config.Max(c.rows, 0), i requires 0 <= i => LineOf(c.cols, shown, i))
  }

  /** Line `i` of a page: its `i`-th item, or blank past its end. */
  function LineOf(cols: Config.Cols, shown: seq<Item>, i: nat): (r: Row)
    ensures Fits(r, cols)
  {
    if i < |shown| then ItemToRow(cols, shown[i]) else BlankRow(cols)
  }

  /** Every item of a page comes from the paged sequence. */
  lemma PageFrom(items: seq<Item>, page: int, rows: int, k: int)
    requires 0 <= k < |PageSlice(items, page, rows)|
    ensures PageSlice(items, page, rows)[k] in items
  {
    var start := (page - 1) * rows;
    var from := SliceIndex(start, |items|);
    assert PageSlice(items, page, rows)[k] == items[from + k];
  }

  /** An item the board may list: not departed and matching the
      filter. */
  predicate Selected(c: Config.Cfg, it: Item, nowSec: int) {
    !Schedule.IsDeparted(it.time, nowSec, c.graceSec)
    && (c.filter == [] || Matches(it, Text.Lower(c.filter)))
  }

  /** The visible items are exactly the selected ones. */
  lemma VisibleIff(c: Config.Cfg, items: seq<Item>, nowSec: int, it: Item)
    ensures it in Visible(c, items, nowSec) <==> it in items && Selected(c, it, nowSec)
  {
  }

  /** Line `i` of the board is the row of the visible item at
      `(page - 1) * rows + i` when there is one (`RowsAfterPageBlank`
      gives the blank lines after it). */
  lemma BoardRowAt(c: Config.Cfg, items: seq<Item>, nowSec: int, i: int)
    requires c.page >= 1 && 0 <= i < c.rows
    ensures 0 <= (c.page - 1) * c.rows + i < |Visible(c, items, nowSec)| ==>
      ComputeBoardRows(c, items, nowSec)[i] == ItemToRow(c.cols, Visible(c, items, nowSec)[(c.page - 1) * c.rows + i])
  {
    BoardLineAt(c, items, nowSec, i);
    VisibleLineAt(c, items, nowSec, i);
  }

  lemma VisibleLineAt(c: Config.Cfg, items: seq<Item>, nowSec: int, i: int)
    requires c.page >= 1 && 0 <= i < c.rows
    ensures 0 <= (c.page - 1) * c.rows + i < |Visible(c, items, nowSec)| ==>
      LineOf(c.cols, PageSlice(Visible(c, items, nowSec), c.page, c.rows), i)
        == ItemToRow(c.cols, Visible(c, items, nowSec)[(c.page - 1) * c.rows + i])
  {
    PageItemLine(c, Visible(c, items, nowSec), i);
  }

  lemma PageItemLine(c: Config.Cfg, v: seq<Item>, i: int)
    requires c.page >= 1 && 0 <= i < c.rows
    ensures 0 <= (c.page - 1) * c.rows + i < |v| ==>
      LineOf(c.cols, PageSlice(v, c.page, c.rows), i) == ItemToRow(c.cols, v[(c.page - 1) * c.rows + i])
  {
    PageLineAt(c.cols, v, c.page, c.rows, i, (c.page - 1) * c.rows + i);
  }

  /** Line `i` of page `page` is the row of item `j`, or blank when
      there is no such item. */
  lemma PageLineAt(cols: Config.Cols, v: seq<Item>, page: int, rows: int, i: int, j: int)
    requires page >= 1 && 0 <= i < rows && j == (page - 1) * rows + i
    ensures 0 <= j
    ensures j < |v| ==> LineOf(cols, PageSlice(v, page, rows), i) == ItemToRow(cols, v[j])
    ensures j >= |v| ==> LineOf(cols, PageSlice(v, page, rows), i) == BlankRow(cols)
  {
    ProductNonNegative(page - 1, rows);
    PageSliceAt(v, page, rows, i);
    if j < |v| {
      LineOfItem(cols, PageSlice(v, page, rows), i, v[j]);
    }
  }

  lemma LineOfItem(cols: Config.Cols, shown: seq<Item>, i: nat, it: Item)
    requires i < |shown| && shown[i] == it
    ensures LineOf(cols, shown, i) == ItemToRow(cols, it)
  {
  }

  /** Line `i` of the board is line `i` of the page. */
  lemma BoardLineAt(c: Config.Cfg, items: seq<Item>, nowSec: int, i: int)
    requires 0 <= i < c.rows
    ensures ComputeBoardRows(c, items, nowSec)[i] == LineOf(c.cols, PageSlice(Visible(c, items, nowSec), c.page, c.rows), i)
  {
  }

  /** The board shows nothing but blank rows and rows of selected
      items. */
  lemma BoardShowsOnlySelected(c: Config.Cfg, items: seq<Item>, nowSec: int, i: int)
    requires 0 <= i < |ComputeBoardRows(c, items, nowSec)|
    ensures var row := ComputeBoardRows(c, items, nowSec)[i];
      || row == BlankRow(c.cols)
      || exists it :: it in items && Selected(c, it, nowSec) && row == ItemToRow(c.cols, it)
  {
    var v := Visible(c, items, nowSec);
    var shown := PageSlice(v, c.page, c.rows);
    BoardLineAt(c, items, nowSec, i);
    if i < |shown| {
      PageFrom(v, c.page, c.rows, i);
      VisibleIff(c, items, nowSec, shown[i]);
    }
  }

  /** A visible item appears on its page, on the line its position
      gives. */
  lemma VisibleItemShown(c: Config.Cfg, items: seq<Item>, nowSec: int, j: int)
    requires c.rows > 0 && 0 <= j < |Visible(c, items, nowSec)|
    requires c.page == j / c.rows + 1
    ensures var rows := ComputeBoardRows(c, items, nowSec);
      j % c.rows < |rows| && rows[j % c.rows] == ItemToRow(c.cols, Visible(c, items, nowSec)[j])
  {
    ItemOnItsPage(Visible(c, items, nowSec), c.rows, j);
  }

  /** Lines past the page's last item are blank. */
  lemma RowsAfterPageBlank(c: Config.Cfg, items: seq<Item>, nowSec: int, i: int)
    requires c.page >= 1 && 0 <= i < c.rows
    ensures (c.page - 1) * c.rows + i >= |Visible(c, items, nowSec)| ==>
      ComputeBoardRows(c, items, nowSec)[i] == BlankRow(c.cols)
  {
    PageSliceAt(Visible(c, items, nowSec), c.page, c.rows, i);
  }

  // ----- Fingerprint -----

  /** A row as one line of the fingerprint: its fields joined by `|`. */
  function Line(r: Row): string {
    r.time + "|" + r.destination + "|" + r.train + "|" + r.platform + "|" + r.status
  }

  /** `boardFingerprint`: the rows' lines joined by line feeds. */
  function Fingerprint(rows: seq<Row>): string {
    if |rows| == 0 then ""
    else if |rows| == 1 then Line(rows[0])
    else Line(rows[0]) + "\n" + Fingerprint(rows[1..])
  }

  /** Length of a line of rows that fit the columns. */
  function Width(cols: Config.Cols): nat {
    cols.time + cols.destination + cols.train + cols.platform + cols.status + 4
  }

  /** Cuts a line of the given widths back into its fields. */
  function ParseLine(s: string, cols: Config.Cols): Row
    requires |s| == Width(cols)
  {
    var a := cols.time;
    var b := a + 1 + cols.destination;
    var c := b + 1 + cols.train;
    var d := c + 1 + cols.platform;
    Row(s[..a], s[a + 1..b], s[b + 1..c], s[c + 1..d], s[d + 1..])
  }

  /** Cuts a fingerprint of rows that fit the columns back into rows. */
  function ParseFingerprint(s: string, cols: Config.Cols): seq<Row>
    decreases |s|
  {
    var w := Width(cols);
    if |s| < w then []
    else [ParseLine(s[..w], cols)] + (if |s| > w then ParseFingerprint(s[w + 1..], cols) else [])
  }

  /** A line of a fitting row has the columns' width and cuts back into
      the row. */
  lemma LineRoundTrip(r: Row, cols: Config.Cols)
    requires Fits(r, cols)
    ensures |Line(r)| == Width(cols)
    ensures ParseLine(Line(r), cols) == r
  {
    var s := Line(r);
    var a := cols.time;
    var b := a + 1 + cols.destination;
    var c := b + 1 + cols.train;
    var d := c + 1 + cols.platform;
    var s1 := r.time + "|";
    var s2 := s1 + r.destination + "|";
    var s3 := s2 + r.train + "|";
    var s4 := s3 + r.platform + "|";
    assert s == s4 + r.status;
    assert s[..a] == r.time by { assert s[..a] == s1[..a]; }
    assert s[a + 1..b] == r.destination by { assert s[a + 1..b] == s2[a + 1..b]; }
    assert s[b + 1..c] == r.train by { assert s[b + 1..c] == s3[b + 1..c]; }
    assert s[c + 1..d] == r.platform by { assert s[c + 1..d] == s4[c + 1..d]; }
    assert s[d + 1..] == r.status;
  }

  /** Round trip: the fingerprint of rows that fit the columns cuts back
      into the same rows. */
  lemma {:induction false} FingerprintRoundTrip(rows: seq<Row>, cols: Config.Cols)
    requires forall i :: 0 <= i < |rows| ==> Fits(rows[i], cols)
    ensures ParseFingerprint(Fingerprint(rows), cols) == rows
  {
    var w := Width(cols);
    if |rows| == 1 {
      LineRoundTrip(rows[0], cols);
      assert Line(rows[0])[..w] == Line(rows[0]);
    } else if |rows| > 1 {
      LineRoundTrip(rows[0], cols);
      var s := Fingerprint(rows);
      var rest := Fingerprint(rows[1..]);
      assert s == Line(rows[0]) + "\n" + rest;
      assert s[..w] == Line(rows[0]);
      assert s[w + 1..] == rest;
      FingerprintRoundTrip(rows[1..], cols);
      assert rows == [rows[0]] + rows[1..];
    }
  }

  /** Two boards of fitting rows have the same fingerprint only when they
      are the same board. */
  lemma FingerprintInjective(a: seq<Row>, b: seq<Row>, cols: Config.Cols)
    requires forall i :: 0 <= i < |a| ==> Fits(a[i], cols)
    requires forall i :: 0 <= i < |b| ==> Fits(b[i], cols)
    ensures Fingerprint(a) == Fingerprint(b) <==> a == b
  {
    FingerprintRoundTrip(a, cols);
    FingerprintRoundTrip(b, cols);
  }

  // ----- Departure between two boards -----

  /** The trimmed time of the first row, or the empty text when there is
      no board or no row. */
  function FirstTime(rows: Option<seq<Row>>): string {
    if rows.Some? && |rows.value| > 0 then Text.Trim(rows.value[0].time) else ""
  }

  /** `hasDepartedBetween`: the previous first row had a time, the next
      board's first row shows a different one, and the previous one has
      departed. */
  function HasDepartedBetween(prev: Option<seq<Row>>, next: seq<Row>, nowSec: int, graceSec: int): (b: bool)
    ensures b ==> prev.Some? && |prev.value| > 0
  {
    var prev0 := FirstTime(prev);
    var next0 := FirstTime(Some(next));
    if prev0 == "" then false
    else prev0 != next0 && Schedule.IsDeparted(prev0, nowSec, graceSec)
  }

  /** The empty-time test is subsumed by the departure test: a departure
      happened exactly when the first time changed and the old one has
      departed. */
  lemma DepartedBetweenIff(prev: Option<seq<Row>>, next: seq<Row>, nowSec: int, graceSec: int)
    ensures HasDepartedBetween(prev, next, nowSec, graceSec) <==>
      && prev.Some? && |prev.value| > 0
      && FirstTime(prev) != FirstTime(Some(next))
      && Schedule.IsDeparted(prev.value[0].time, nowSec, graceSec)
  {
    if prev.Some? && |prev.value| > 0 {
      Text.TrimIdempotent(prev.value[0].time);
    }
  }

  /** A board whose first time did not change saw no departure. */
  lemma NoDepartureWithoutChange(prev: seq<Row>, next: seq<Row>, nowSec: int, graceSec: int)
    requires |prev| > 0 && |next| > 0 && Text.Trim(prev[0].time) == Text.Trim(next[0].time)
    ensures !HasDepartedBetween(Some(prev), next, nowSec, graceSec)
  {
  }
}
