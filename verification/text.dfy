/**
 * Character and string shaping for the board: case mapping, trimming,
 * whitespace collapsing, the "PKP strict" transliteration of Polish letters,
 * and fixed-width alignment of a field's text.
 *
 * Case mapping and whitespace are restricted to ASCII plus the nine Polish
 * letters the board transliterates.
 */
module Text {

  /** The whitespace recognised by `trim` and by the `\s` class (ASCII part):
      space, tab, line feed, vertical tab, form feed and carriage return. */
  predicate IsSpace(c: char) {
    c == ' ' || '\t' <= c <= '\r'
  }

  /** `toUpperCase` on one character. */
  function UpperChar(c: char): char {
    if 'a' <= c <= 'z' then (c as int - 32) as char
    else match c
      case 'ą' => 'Ą' case 'ć' => 'Ć' case 'ę' => 'Ę'
      case 'ł' => 'Ł' case 'ń' => 'Ń' case 'ó' => 'Ó'
      case 'ś' => 'Ś' case 'ź' => 'Ź' case 'ż' => 'Ż'
      case _ => c
  }

  /** `toLowerCase` on one character. */
  function LowerChar(c: char): char {
    if 'A' <= c <= 'Z' then (c as int + 32) as char
    else match c
      case 'Ą' => 'ą' case 'Ć' => 'ć' case 'Ę' => 'ę'
      case 'Ł' => 'ł' case 'Ń' => 'ń' case 'Ó' => 'ó'
      case 'Ś' => 'ś' case 'Ź' => 'ź' case 'Ż' => 'ż'
      case _ => c
  }

  /** The chain of `replaceAll` calls that strips Polish diacritics from
      upper-case letters. */
  function Transliterate(c: char): char {
    match c
    case 'Ą' => 'A' case 'Ć' => 'C' case 'Ę' => 'E'
    case 'Ł' => 'L' case 'Ń' => 'N' case 'Ó' => 'O'
    case 'Ś' => 'S' case 'Ź' => 'Z' case 'Ż' => 'Z'
    case _ => c
  }

  function Upper(s: string): (r: string)
    ensures |r| == |s|
    ensures forall i :: 0 <= i < |s| ==> r[i] == UpperChar(s[i])
  {
    seq(|s|, i requires 0 <= i < |s| => UpperChar(s[i]))
  }

  function Lower(s: string): (r: string)
    ensures |r| == |s|
    ensures forall i :: 0 <= i < |s| ==> r[i] == LowerChar(s[i])
  {
    seq(|s|, i requires 0 <= i < |s| => LowerChar(s[i]))
  }

  function StripDiacritics(s: string): (r: string)
    ensures |r| == |s|
    ensures forall i :: 0 <= i < |s| ==> r[i] == Transliterate(s[i])
  {
    seq(|s|, i requires 0 <= i < |s| => Transliterate(s[i]))
  }

  /** `n` blanks: `" ".repeat(n)`. */
  function Spaces(n: nat): (r: string)
    ensures |r| == n
    ensures forall i :: 0 <= i < n ==> r[i] == ' '
  {
    seq(n, _ => ' ')
  }

  /** Drops leading whitespace. */
  function TrimStart(s: string): (r: string)
    ensures |r| <= |s| && r == s[|s| - |r|..]
    ensures |r| > 0 ==> !IsSpace(r[0])
    ensures forall i :: 0 <= i < |s| - |r| ==> IsSpace(s[i])
  {
    if |s| > 0 && IsSpace(s[0]) then TrimStart(s[1..]) else s
  }

  /** Drops trailing whitespace. */
  function TrimEnd(s: string): (r: string)
    ensures |r| <= |s| && r == s[..|r|]
    ensures |r| > 0 ==> !IsSpace(r[|r| - 1])
    ensures forall i :: |r| <= i < |s| ==> IsSpace(s[i])
  {
    if |s| > 0 && IsSpace(s[|s| - 1]) then TrimEnd(s[..|s| - 1]) else s
  }

  /** `String.prototype.trim`. */
  function Trim(s: string): string {
    TrimEnd(TrimStart(s))
  }

  /** `replace(/\s+/g, " ")`: every maximal run of whitespace becomes one blank. */
  function CollapseSpaces(s: string): string
    decreases |s|
  {
    if |s| == 0 then []
    else if IsSpace(s[0]) then [' '] + CollapseSpaces(TrimStart(s[1..]))
    else [s[0]] + CollapseSpaces(s[1..])
  }

  /** `normalizeText`: upper-case, trim, strip diacritics, collapse whitespace. */
  function NormalizeText(s: string): string {
    CollapseSpaces(StripDiacritics(Trim(Upper(s))))
  }

  /** Characters no upper-casing or transliteration changes. */
  ghost predicate CaseStable(c: char) {
    UpperChar(c) == c && Transliterate(c) == c
  }

  /** The shape every normalised text has, stated without reference to how it
      is computed: no character that upper-casing or transliteration would
      change, only plain blanks as whitespace, no blank at either end and
      never two blanks in a row. */
  ghost predicate Normalized(t: string) {
    && (forall i :: 0 <= i < |t| ==> CaseStable(t[i]))
    && (forall i :: 0 <= i < |t| ==> IsSpace(t[i]) ==> t[i] == ' ')
    && (|t| > 0 ==> !IsSpace(t[0]) && !IsSpace(t[|t| - 1]))
    && (forall i :: 0 <= i < |t| - 1 ==> !(IsSpace(t[i]) && IsSpace(t[i + 1])))
  }

  lemma UpperCharIdempotent(c: char)
    ensures UpperChar(UpperChar(c)) == UpperChar(c)
    ensures Transliterate(Transliterate(c)) == Transliterate(c)
    ensures UpperChar(Transliterate(UpperChar(c))) == Transliterate(UpperChar(c))
    ensures IsSpace(Transliterate(c)) <==> IsSpace(c)
    ensures IsSpace(UpperChar(c)) <==> IsSpace(c)
  {
  }

  /** Every character of `CollapseSpaces(s)` is a blank or a non-blank
      character of `s`. */
  lemma {:induction false} CollapseChars(s: string)
    ensures forall c :: c in CollapseSpaces(s) ==> c == ' ' || (c in s && !IsSpace(c))
    decreases |s|
  {
    if |s| == 0 {
    } else if IsSpace(s[0]) {
      var rest := TrimStart(s[1..]);
      CollapseChars(rest);
      assert forall c :: c in rest ==> c in s[1..];
      assert CollapseSpaces(s) == [' '] + CollapseSpaces(rest);
    } else {
      CollapseChars(s[1..]);
      assert CollapseSpaces(s) == [s[0]] + CollapseSpaces(s[1..]);
    }
  }

  /** `CollapseSpaces(s)` is empty exactly when `s` is, and starts and ends
      with whitespace exactly when `s` does. */
  lemma {:induction false} CollapseEnds(s: string)
    ensures var r := CollapseSpaces(s);
      && (|r| == 0 <==> |s| == 0)
      && (|r| > 0 ==> (IsSpace(r[0]) <==> IsSpace(s[0])))
      && (|r| > 0 ==> (IsSpace(r[|r| - 1]) <==> IsSpace(s[|s| - 1])))
    decreases |s|
  {
    if |s| == 0 {
    } else if IsSpace(s[0]) {
      var rest := TrimStart(s[1..]);
      CollapseEnds(rest);
      if |rest| == 0 {
        if |s| > 1 { assert IsSpace(s[|s| - 1]); }
      } else {
        assert rest[|rest| - 1] == s[|s| - 1];
      }
    } else {
      CollapseEnds(s[1..]);
      if |s| > 1 {
        assert s[1..][|s| - 2] == s[|s| - 1];
      }
    }
  }

  /** `CollapseSpaces(s)` never has two whitespace characters in a row. */
  lemma {:induction false} CollapseNoRuns(s: string)
    ensures var r := CollapseSpaces(s);
      forall i :: 0 <= i < |r| - 1 ==> !(IsSpace(r[i]) && IsSpace(r[i + 1]))
    decreases |s|
  {
    if |s| == 0 {
    } else if IsSpace(s[0]) {
      var rest := TrimStart(s[1..]);
      CollapseNoRuns(rest);
      CollapseEnds(rest);
      var tail := CollapseSpaces(rest);
      assert CollapseSpaces(s) == [' '] + tail;
      assert |tail| > 0 ==> !IsSpace(tail[0]);
    } else {
      CollapseNoRuns(s[1..]);
      assert CollapseSpaces(s) == [s[0]] + CollapseSpaces(s[1..]);
    }
  }

  /** On text that already has no whitespace runs and only blanks as
      whitespace, collapsing changes nothing. */
  lemma {:induction false} CollapseFixpoint(t: string)
    requires forall i :: 0 <= i < |t| ==> IsSpace(t[i]) ==> t[i] == ' '
    requires forall i :: 0 <= i < |t| - 1 ==> !(IsSpace(t[i]) && IsSpace(t[i + 1]))
    ensures CollapseSpaces(t) == t
    decreases |t|
  {
    if |t| == 0 {
    } else if IsSpace(t[0]) {
      assert TrimStart(t[1..]) == t[1..] by {
        if |t| > 1 { assert !IsSpace(t[1..][0]); }
      }
      CollapseFixpoint(t[1..]);
    } else {
      CollapseFixpoint(t[1..]);
    }
  }

  lemma UpperChars(s: string)
    ensures forall c :: c in Upper(s) ==> UpperChar(c) == c
  {
    forall c | c in Upper(s)
      ensures UpperChar(c) == c
    {
      var k :| 0 <= k < |s| && Upper(s)[k] == c;
      UpperCharIdempotent(s[k]);
    }
  }

  lemma TrimChars(u: string)
    ensures forall c :: c in Trim(u) ==> c in u
  {
    var ts := TrimStart(u);
    assert Trim(u) == ts[..|Trim(u)|];
    assert forall c :: c in ts ==> c in u;
  }

  lemma StripChars(tr: string)
    requires forall c :: c in tr ==> UpperChar(c) == c
    ensures forall c :: c in StripDiacritics(tr) ==> CaseStable(c)
  {
    forall c | c in StripDiacritics(tr)
      ensures CaseStable(c)
    {
      var k :| 0 <= k < |tr| && StripDiacritics(tr)[k] == c;
      assert tr[k] in tr;
      UpperCharIdempotent(tr[k]);
    }
  }

  /** Every character that upper-casing then transliteration produces is
      case-stable. */
  lemma StrippedUpperChars(s: string)
    ensures forall c :: c in StripDiacritics(Trim(Upper(s))) ==> CaseStable(c)
  {
    UpperChars(s);
    TrimChars(Upper(s));
    StripChars(Trim(Upper(s)));
  }

  /** Collapsing case-stable text without whitespace at either end gives
      normalised text. */
  lemma CollapseNormalized(d: string)
    requires forall c :: c in d ==> CaseStable(c)
    requires |d| > 0 ==> !IsSpace(d[0]) && !IsSpace(d[|d| - 1])
    ensures Normalized(CollapseSpaces(d))
  {
    var r := CollapseSpaces(d);
    CollapseChars(d);
    CollapseEnds(d);
    CollapseNoRuns(d);
    assert CaseStable(' ');
    forall i | 0 <= i < |r|
      ensures CaseStable(r[i])
      ensures IsSpace(r[i]) ==> r[i] == ' '
    {
      assert r[i] in r;
    }
  }

  /** `normalizeText` always produces normalised text. */
  lemma NormalizeTextIsNormalized(s: string)
    ensures Normalized(NormalizeText(s))
  {
    var ts := TrimStart(Upper(s));
    var tr := Trim(Upper(s));
    var d := StripDiacritics(tr);
    StrippedUpperChars(s);
    if |tr| > 0 {
      assert tr[0] == ts[0];
      UpperCharIdempotent(tr[0]);
      UpperCharIdempotent(tr[|tr| - 1]);
    }
    CollapseNormalized(d);
  }

  /** Normalised text is a fixed point of `normalizeText`. */
  lemma NormalizedIsFixpoint(t: string)
    requires Normalized(t)
    ensures NormalizeText(t) == t
  {
    assert Upper(t) == t;
    assert TrimStart(t) == t;
    assert TrimEnd(t) == t;
    assert StripDiacritics(t) == t;
    CollapseFixpoint(t);
  }

  /** `normalizeText` is idempotent. */
  lemma NormalizeTextIdempotent(s: string)
    ensures NormalizeText(NormalizeText(s)) == NormalizeText(s)
  {
    NormalizeTextIsNormalized(s);
    NormalizedIsFixpoint(NormalizeText(s));
  }

  // ----- The content of a normalised text -----

  /** Length of the run of non-whitespace characters that starts `t`. */
  function WordLen(t: string): (n: nat)
    ensures n <= |t|
    ensures forall i :: 0 <= i < n ==> !IsSpace(t[i])
    ensures n < |t| ==> IsSpace(t[n])
  {
    if |t| == 0 || IsSpace(t[0]) then 0 else 1 + WordLen(t[1..])
  }

  /** A word: a non-empty text without whitespace. */
  ghost predicate IsWord(w: string) {
    |w| > 0 && forall i :: 0 <= i < |w| ==> !IsSpace(w[i])
  }

  /** The words of `s`: its maximal runs of non-whitespace characters, in
      order. */
  function Words(s: string): seq<string>
    decreases |s|
  {
    var t := TrimStart(s);
    if |t| == 0 then []
    else
      var n := WordLen(t);
      [t[..n]] + Words(t[n..])
  }

  /** Words separated by single blanks. */
  function JoinWords(ws: seq<string>): string {
    if |ws| == 0 then ""
    else if |ws| == 1 then ws[0]
    else ws[0] + (" " + JoinWords(ws[1..]))
  }

  /** A character map applied to every character. */
  function MapChars(f: char -> char, s: string): (r: string)
    ensures |r| == |s|
    ensures forall i :: 0 <= i < |s| ==> r[i] == f(s[i])
  {
    seq(|s|, i requires 0 <= i < |s| => f(s[i]))
  }

  /** A character map applied to every word. */
  function MapWords(f: char -> char, ws: seq<string>): (r: seq<string>)
    ensures |r| == |ws|
    ensures forall k :: 0 <= k < |ws| ==> r[k] == MapChars(f, ws[k])
  {
    seq(|ws|, k requires 0 <= k < |ws| => MapChars(f, ws[k]))
  }

  /** The map sends whitespace to whitespace and nothing else. */
  ghost predicate KeepsSpaces(f: char -> char) {
    forall c :: IsSpace(f(c)) <==> IsSpace(c)
  }

  /** Upper-casing, then transliteration, on one character. */
  function Fold(c: char): char {
    Transliterate(UpperChar(c))
  }

  /** `normalizeText`'s content: the words of the input, each upper-cased
      and transliterated, separated by single blanks. */
  lemma NormalizeTextWords(s: string)
    ensures NormalizeText(s) == JoinWords(MapWords(Fold, Words(s)))
  {
    var up := Upper(s);
    var tr := Trim(up);
    var u := StripDiacritics(tr);
    KeepsSpacesUpperFold();
    assert up == MapChars(UpperChar, s);
    assert u == MapChars(Transliterate, tr);
    TrimmedEnds(up);
    StrippedEnds(tr);
    CollapseWords(u);
    WordsMap(Transliterate, tr);
    WordsTrim(up);
    WordsMap(UpperChar, s);
    MapWordsCompose(Words(s));
  }

  lemma KeepsSpacesUpperFold()
    ensures KeepsSpaces(UpperChar) && KeepsSpaces(Transliterate)
  {
    forall c: char
      ensures IsSpace(UpperChar(c)) <==> IsSpace(c)
      ensures IsSpace(Transliterate(c)) <==> IsSpace(c)
    {
      UpperCharIdempotent(c);
    }
  }

  /** `Trim` leaves no whitespace at either end. */
  lemma TrimmedEnds(x: string)
    ensures var tr := Trim(x);
      |tr| > 0 ==> !IsSpace(tr[0]) && !IsSpace(tr[|tr| - 1])
  {
    var ts := TrimStart(x);
    var tr := Trim(x);
    if |tr| > 0 {
      assert tr[0] == ts[0];
    }
  }

  /** Transliteration keeps whitespace off the ends. */
  lemma StrippedEnds(tr: string)
    requires |tr| > 0 ==> !IsSpace(tr[0]) && !IsSpace(tr[|tr| - 1])
    ensures var u := StripDiacritics(tr);
      |u| > 0 ==> !IsSpace(u[0]) && !IsSpace(u[|u| - 1])
  {
    if |tr| > 0 {
      UpperCharIdempotent(tr[0]);
      UpperCharIdempotent(tr[|tr| - 1]);
    }
  }

  lemma MapWordsCompose(ws: seq<string>)
    ensures MapWords(Transliterate, MapWords(UpperChar, ws)) == MapWords(Fold, ws)
  {
    forall k | 0 <= k < |ws|
      ensures MapChars(Transliterate, MapChars(UpperChar, ws[k])) == MapChars(Fold, ws[k])
    {
    }
  }

  /** Every entry of `Words(s)` is a word. */
  lemma {:induction false} WordsAreWords(s: string)
    ensures forall k :: 0 <= k < |Words(s)| ==> IsWord(Words(s)[k])
    decreases |s|
  {
    var t := TrimStart(s);
    WordsStep(s);
    if |t| > 0 {
      var n := WordLen(t);
      WordsAreWords(t[n..]);
      FirstIsWord(t, n);
      ConsWords(t[..n], Words(t[n..]));
    }
  }

  lemma FirstIsWord(t: string, n: nat)
    requires |t| > 0 && !IsSpace(t[0]) && n == WordLen(t)
    ensures IsWord(t[..n])
  {
  }

  lemma ConsWords(w: string, ws: seq<string>)
    requires IsWord(w) && forall k :: 0 <= k < |ws| ==> IsWord(ws[k])
    ensures forall k :: 0 <= k < |[w] + ws| ==> IsWord(([w] + ws)[k])
  {
    forall k | 0 < k < |[w] + ws|
      ensures IsWord(([w] + ws)[k])
    {
      assert ([w] + ws)[k] == ws[k - 1];
    }
  }

  /** One step of `Words`: skip the leading whitespace, take one word. */
  lemma WordsStep(s: string)
    ensures var t := TrimStart(s);
      && (|t| == 0 ==> Words(s) == [])
      && (|t| > 0 ==> 0 < WordLen(t) && Words(s) == [t[..WordLen(t)]] + Words(t[WordLen(t)..]))
  {
  }

  /** Collapsing a text without whitespace at either end joins its words
      with single blanks. */
  lemma {:induction false} CollapseWords(u: string)
    requires |u| > 0 ==> !IsSpace(u[0]) && !IsSpace(u[|u| - 1])
    ensures CollapseSpaces(u) == JoinWords(Words(u))
    decreases |u|
  {
    if |u| == 0 {
      WordsStep(u);
    } else {
      var n := WordLen(u);
      FirstWord(u, n);
      CollapseWordRest(u, n);
      var r := u[n..];
      if |r| == 0 {
        LastWord(u, n);
      } else {
        var v := TrimStart(r[1..]);
        SpaceSplit(u, n);
        CollapseWords(v);
        RestWords(r, v);
        JoinCons(u[..n], Words(v));
      }
    }
  }

  /** A text that starts with a non-blank starts with its first word. */
  lemma FirstWord(u: string, n: nat)
    requires |u| > 0 && !IsSpace(u[0]) && n == WordLen(u)
    ensures Words(u) == [u[..n]] + Words(u[n..])
  {
    assert TrimStart(u) == u;
    WordsStep(u);
  }

  /** A text that is one word has just that word. */
  lemma LastWord(u: string, n: nat)
    requires n == |u|
    ensures [u[..n]] + Words(u[n..]) == [u]
  {
    WordsStep(u[n..]);
    assert u[..n] == u;
  }

  /** Collapsing keeps the first word and goes on with the rest. */
  lemma CollapseWordRest(u: string, n: nat)
    requires n == WordLen(u)
    ensures CollapseSpaces(u) == u[..n] + CollapseSpaces(u[n..])
    ensures n == |u| ==> CollapseSpaces(u) == u
  {
    assert u == u[..n] + u[n..];
    CollapseWord(u[..n], u[n..]);
  }

  /** After the first word: a blank, then the words of the rest. */
  lemma RestWords(r: string, v: string)
    requires |r| > 0 && IsSpace(r[0]) && v == TrimStart(r[1..])
    requires |v| > 0 && !IsSpace(v[0])
    ensures CollapseSpaces(r) == " " + CollapseSpaces(v)
    ensures Words(r) == Words(v) && |Words(v)| > 0
  {
    assert TrimStart(r) == v;
    assert TrimStart(v) == v;
    WordsStep(r);
    WordsStep(v);
  }

  /** Past the first word, the rest of a text that ends in a non-blank
      still ends in it after its leading whitespace is dropped. */
  lemma SpaceSplit(u: string, n: nat)
    requires n < |u| && IsSpace(u[n]) && !IsSpace(u[|u| - 1])
    ensures var v := TrimStart(u[n..][1..]);
      |v| > 0 && v[|v| - 1] == u[|u| - 1]
  {
    var r := u[n..];
    var v := TrimStart(r[1..]);
    assert |r| > 1;
  }

  /** Non-whitespace characters pass through collapsing one by one. */
  lemma {:induction false} CollapseWord(w: string, r: string)
    requires forall i :: 0 <= i < |w| ==> !IsSpace(w[i])
    ensures CollapseSpaces(w + r) == w + CollapseSpaces(r)
    decreases |w|
  {
    if |w| > 0 {
      assert (w + r)[1..] == w[1..] + r;
      CollapseWord(w[1..], r);
      assert w == [w[0]] + w[1..];
    } else {
      assert w + r == r;
    }
  }

  lemma JoinCons(w: string, ws: seq<string>)
    requires |ws| > 0
    ensures JoinWords([w] + ws) == w + (" " + JoinWords(ws))
  {
    assert ([w] + ws)[1..] == ws;
  }

  /** Trimming changes no word. */
  lemma WordsTrim(x: string)
    ensures Words(Trim(x)) == Words(x)
  {
    var ts := TrimStart(x);
    var tr := Trim(x);
    assert ts == tr + ts[|tr|..];
    WordsTrailing(tr, ts[|tr|..]);
    TrimStartTwice(x);
  }

  lemma TrimStartTwice(x: string)
    ensures TrimStart(TrimStart(x)) == TrimStart(x)
  {
  }

  /** Trailing whitespace adds no word. */
  lemma {:induction false} WordsTrailing(y: string, sp: string)
    requires forall i :: 0 <= i < |sp| ==> IsSpace(sp[i])
    ensures Words(y + sp) == Words(y)
    decreases |y|
  {
    var t := TrimStart(y);
    WordsStep(y);
    if |t| == 0 {
      AllSpaces(y + sp);
    } else {
      var n := WordLen(t);
      WordsTrailingStep(y, sp, t, n);
      WordsTrailing(t[n..], sp);
    }
  }

  lemma WordsTrailingStep(y: string, sp: string, t: string, n: nat)
    requires forall i :: 0 <= i < |sp| ==> IsSpace(sp[i])
    requires t == TrimStart(y) && |t| > 0 && n == WordLen(t)
    ensures Words(y + sp) == [t[..n]] + Words(t[n..] + sp)
  {
    TrimStartAppend(y, sp);
    WordLenAppend(t, sp);
    ConcatSlices(t, sp, n);
    WordsStep(y + sp);
  }

  lemma ConcatSlices(a: string, b: string, n: nat)
    requires n <= |a|
    ensures (a + b)[..n] == a[..n] && (a + b)[n..] == a[n..] + b
  {
  }

  lemma AllSpaces(z: string)
    requires forall i :: 0 <= i < |z| ==> IsSpace(z[i])
    ensures Words(z) == []
  {
    WordsStep(z);
  }

  lemma {:induction false} TrimStartAppend(y: string, z: string)
    requires |TrimStart(y)| > 0
    ensures TrimStart(y + z) == TrimStart(y) + z
    decreases |y|
  {
    if IsSpace(y[0]) {
      assert (y + z)[1..] == y[1..] + z;
      TrimStartAppend(y[1..], z);
    }
  }

  lemma {:induction false} WordLenAppend(t: string, sp: string)
    requires forall i :: 0 <= i < |sp| ==> IsSpace(sp[i])
    ensures WordLen(t + sp) == WordLen(t)
    decreases |t|
  {
    if |t| == 0 {
      assert t + sp == sp;
    } else if !IsSpace(t[0]) {
      assert (t + sp)[1..] == t[1..] + sp;
      WordLenAppend(t[1..], sp);
    }
  }

  /** Words commute with a map that keeps whitespace. */
  lemma {:induction false} WordsMap(f: char -> char, x: string)
    requires KeepsSpaces(f)
    ensures Words(MapChars(f, x)) == MapWords(f, Words(x))
    decreases |x|
  {
    var t := TrimStart(x);
    TrimStartMap(f, x);
    WordsStep(x);
    WordsStep(MapChars(f, x));
    if |t| > 0 {
      var n := WordLen(t);
      WordsMapStep(f, t, n);
      WordsMap(f, t[n..]);
      MapWordsCons(f, t[..n], Words(t[n..]));
    }
  }

  lemma WordsMapStep(f: char -> char, t: string, n: nat)
    requires KeepsSpaces(f) && |t| > 0 && n == WordLen(t)
    ensures var mt := MapChars(f, t);
      && WordLen(mt) == n
      && mt[..n] == MapChars(f, t[..n])
      && mt[n..] == MapChars(f, t[n..])
  {
    WordLenMap(f, t);
  }

  lemma MapWordsCons(f: char -> char, w: string, ws: seq<string>)
    ensures MapWords(f, [w] + ws) == [MapChars(f, w)] + MapWords(f, ws)
  {
  }

  lemma {:induction false} TrimStartMap(f: char -> char, x: string)
    requires KeepsSpaces(f)
    ensures TrimStart(MapChars(f, x)) == MapChars(f, TrimStart(x))
    decreases |x|
  {
    if |x| > 0 {
      assert MapChars(f, x)[1..] == MapChars(f, x[1..]);
      TrimStartMap(f, x[1..]);
    }
  }

  lemma {:induction false} WordLenMap(f: char -> char, t: string)
    requires KeepsSpaces(f)
    ensures WordLen(MapChars(f, t)) == WordLen(t)
    decreases |t|
  {
    if |t| > 0 {
      assert MapChars(f, t)[1..] == MapChars(f, t[1..]);
      WordLenMap(f, t[1..]);
    }
  }

  /** Alignment of a field inside its fixed width. */
  datatype Align = Left | Right | Center

  /** Number of blanks `padAlign` puts before the text when `space` cells are
      free: none for left alignment, all for right, the lower half for
      centre. */
  function LeftPad(space: nat, align: Align): (n: nat)
    ensures n <= space
  {
    match align
    case Left => 0
    case Right => space
    case Center => space / 2
  }

  /** The first `len` characters of `t` (all of it when shorter). */
  function Cut(t: string, len: nat): (cut: string)
    ensures |cut| <= len && |cut| <= |t| && cut == t[..|cut|]
    ensures |t| >= len ==> |cut| == len
    ensures |t| <= len ==> cut == t
  {
    if |t| <= len then t else t[..len]
  }

  /** Frames `cut` with blanks up to `len` cells: `LeftPad` blanks before
      it and the rest after it. With no free space this is `cut` itself;
      left alignment puts every blank after the text, right alignment
      every blank before it, centring the lower half before it. */
  function Pad(cut: string, len: nat, align: Align): (r: string)
    requires |cut| <= len
    ensures |r| == len
  {
    var space := len - |cut|;
    var left := LeftPad(space, align);
    Spaces(left) + cut + Spaces(space - left)
  }

  /** `padAlign`: the normalised text cut to `len` characters and padded
      with blanks to exactly `len`. */
  function PadAlign(text: string, len: nat, align: Align): (r: string)
    ensures |r| == len
  {
    Fit(NormalizeText(text), len, align)
  }

  /** `padAlign` after normalising: cut, then pad. */
  function Fit(t: string, len: nat, align: Align): (r: string)
    ensures |r| == len
  {
    Pad(Cut(t, len), len, align)
  }

  /** A text that fills the field is cut to its first `len` characters,
      with no blanks added. */
  lemma FitCutsLong(t: string, len: nat, align: Align)
    requires |t| >= len
    ensures Fit(t, len, align) == t[..len]
  {
  }

  /** Cell by cell: position `i` of the fitted field holds the cut text's
      character when it falls inside the text's frame, and a blank
      otherwise. Centring puts the smaller half of the free space on the
      left. */
  lemma FitCells(t: string, len: nat, align: Align)
    ensures var cut := Cut(t, len);
      var off := LeftPad(len - |cut|, align);
      var r := Fit(t, len, align);
      && (forall i :: 0 <= i < len ==> r[i] == if off <= i < off + |cut| then cut[i - off] else ' ')
      && (align == Center ==> off <= len - |cut| - off <= off + 1)
  {
    var cut := Cut(t, len);
    var off := LeftPad(len - |cut|, align);
    FrameCells(Fit(t, len, align), Spaces(off), cut, Spaces(len - |cut| - off));
    if align == Center {
      HalfSplit(len - |cut|);
    }
  }

  /** The lower half of a space and the rest differ by at most one. */
  lemma HalfSplit(space: nat)
    ensures space / 2 <= space - space / 2 <= space / 2 + 1
  {
  }

  /** The cells of a text framed by blanks. */
  lemma FrameCells(r: string, before: string, t: string, after: string)
    requires r == before + t + after
    requires forall i :: 0 <= i < |before| ==> before[i] == ' '
    requires forall i :: 0 <= i < |after| ==> after[i] == ' '
    ensures forall i :: 0 <= i < |r| ==>
      r[i] == if |before| <= i < |before| + |t| then t[i - |before|] else ' '
  {
    forall i | 0 <= i < |r|
      ensures r[i] == if |before| <= i < |before| + |t| then t[i - |before|] else ' '
    {
      if i < |before| {
        assert r[i] == before[i];
      } else if i < |before| + |t| {
        assert r[i] == t[i - |before|];
      } else {
        assert r[i] == after[i - |before| - |t|];
      }
    }
  }

  /** Round trip: when the normalised text fits, trimming the padded field
      gives the normalised text back, whatever the alignment. */
  lemma PadAlignTrimRoundTrip(text: string, len: nat, align: Align)
    requires |NormalizeText(text)| <= len
    ensures Trim(PadAlign(text, len, align)) == NormalizeText(text)
  {
    NormalizeTextIsNormalized(text);
    FitTrimRoundTrip(NormalizeText(text), len, align);
  }

  /** Trimming a fitted field gives back a text with no blank at either
      end that fits. */
  lemma FitTrimRoundTrip(t: string, len: nat, align: Align)
    requires |t| <= len
    requires |t| > 0 ==> !IsSpace(t[0]) && !IsSpace(t[|t| - 1])
    ensures Trim(Fit(t, len, align)) == t
  {
    var off := LeftPad(len - |t|, align);
    assert Cut(t, len) == t;
    TrimFramed(Fit(t, len, align), off, t, len - |t| - off);
  }

  /** `TrimAroundCore` for a text known to be framed by blanks. */
  lemma TrimFramed(r: string, a: nat, t: string, b: nat)
    requires r == Spaces(a) + t + Spaces(b)
    requires |t| > 0 ==> !IsSpace(t[0]) && !IsSpace(t[|t| - 1])
    ensures Trim(r) == t
  {
    TrimAroundCore(a, t, b);
  }

  /** Trimming leaves no whitespace at either end, so trimming again
      changes nothing. */
  lemma TrimIdempotent(s: string)
    ensures var t := Trim(s);
      && (|t| > 0 ==> !IsSpace(t[0]) && !IsSpace(t[|t| - 1]))
      && Trim(t) == t
  {
    var t := Trim(s);
    TrimAroundCore(0, t, 0);
    assert Spaces(0) + t + Spaces(0) == t;
  }

  /** Trimming blanks placed around a text with no whitespace at its ends
      recovers the text. */
  lemma {:induction false} TrimAroundCore(a: nat, t: string, b: nat)
    requires |t| > 0 ==> !IsSpace(t[0]) && !IsSpace(t[|t| - 1])
    ensures Trim(Spaces(a) + t + Spaces(b)) == t
  {
    if |t| == 0 {
      assert Spaces(a) + t + Spaces(b) == Spaces(a + b) + [];
      TrimStartSpaces(a + b, []);
    } else {
      assert (t + Spaces(b))[0] == t[0];
      TrimStartSpaces(a, t + Spaces(b));
      assert Spaces(a) + t + Spaces(b) == Spaces(a) + (t + Spaces(b));
      TrimEndSpaces(t, b);
    }
  }

  lemma {:induction false} TrimStartSpaces(a: nat, t: string)
    requires |t| > 0 ==> !IsSpace(t[0])
    ensures TrimStart(Spaces(a) + t) == t
    decreases a
  {
    if a > 0 {
      assert (Spaces(a) + t)[1..] == Spaces(a - 1) + t;
      TrimStartSpaces(a - 1, t);
    } else {
      assert Spaces(a) + t == t;
    }
  }

  lemma {:induction false} TrimEndSpaces(t: string, b: nat)
    requires |t| > 0 ==> !IsSpace(t[|t| - 1])
    ensures TrimEnd(t + Spaces(b)) == t
    decreases b
  {
    if b > 0 {
      assert (t + Spaces(b))[..|t| + b - 1] == t + Spaces(b - 1);
      TrimEndSpaces(t, b - 1);
    } else {
      assert t + Spaces(b) == t;
    }
  }

  /** `needle` occurs in `hay` starting at index `i`. */
  ghost predicate OccursAt(hay: string, needle: string, i: int) {
    0 <= i && i + |needle| <= |hay| && hay[i..i + |needle|] == needle
  }

  /** `String.prototype.includes`. */
  function Contains(hay: string, needle: string): bool
    decreases |hay|
  {
    if |needle| > |hay| then false
    else if hay[..|needle|] == needle then true
    else Contains(hay[1..], needle)
  }

  /** `Contains` holds exactly when the needle occurs at some position. */
  lemma {:induction false} ContainsIff(hay: string, needle: string)
    ensures Contains(hay, needle) <==> exists i :: OccursAt(hay, needle, i)
    decreases |hay|
  {
    if |needle| > |hay| {
    } else if hay[..|needle|] == needle {
      assert OccursAt(hay, needle, 0);
    } else {
      ContainsIff(hay[1..], needle);
      forall i | OccursAt(hay, needle, i)
        ensures OccursAt(hay[1..], needle, i - 1)
      {
        assert i != 0;
        assert hay[1..][i - 1..i - 1 + |needle|] == hay[i..i + |needle|];
      }
      if Contains(hay[1..], needle) {
        var i :| OccursAt(hay[1..], needle, i);
        assert hay[i + 1..i + 1 + |needle|] == hay[1..][i..i + |needle|];
        assert OccursAt(hay, needle, i + 1);
      }
    }
  }
}
