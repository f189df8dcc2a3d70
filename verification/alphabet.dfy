/**
 * The mechanical alphabet of a flap unit: the drum's symbols in the order
 * the drum turns, the lookup `idxInAlphabet` and the successor `stepChar`.
 *
 * The lookup and the successor are defined for any drum `a` of 44
 * symbols; the board uses `ALPHABET`. The facts about them hold for every
 * drum whose symbols are distinct and upper case (`IsDrum`), and
 * `AlphabetIsDrum` shows that `ALPHABET` is one.
 */
module Alphabet {
  import Text

  /** The symbols on one flap drum, in the order the drum turns. */
  const ALPHABET: string := " ABCDEFGHIJKLMNOPQRSTUVWXYZ0123456789-./:+()"

  /** Number of symbols on the drum. */
  const SIZE: nat := 44

  /** A usable drum: 44 symbols, none twice, and none that upper-casing
      changes. */
  ghost predicate IsDrum(a: string) {
    |a| == SIZE && Distinct(a) && AllUpper(a)
  }

  /** No symbol occurs twice. */
  ghost predicate Distinct(s: string) {
    |s| == 0 || (s[0] !in s[1..] && Distinct(s[1..]))
  }

  /** Upper-casing changes no symbol. */
  ghost predicate AllUpper(s: string) {
    |s| == 0 || (Text.UpperChar(s[0]) == s[0] && AllUpper(s[1..]))
  }

  lemma {:induction false} DistinctAt(s: string, i: int, j: int)
    requires Distinct(s) && 0 <= i < j < |s|
    ensures s[i] != s[j]
  {
    if i == 0 {
      assert s[j] == s[1..][j - 1];
    } else {
      DistinctAt(s[1..], i - 1, j - 1);
    }
  }

  lemma {:induction false} AllUpperAt(s: string, i: int)
    requires AllUpper(s) && 0 <= i < |s|
    ensures Text.UpperChar(s[i]) == s[i]
  {
    if i > 0 {
      AllUpperAt(s[1..], i - 1);
    }
  }

  lemma {:induction false} DistinctOf(s: string)
    requires forall i, j :: 0 <= i < j < |s| ==> s[i] != s[j]
    ensures Distinct(s)
  {
    if |s| > 0 {
      forall i, j | 0 <= i < j < |s| - 1
        ensures s[1..][i] != s[1..][j]
      {
        assert s[1..][i] == s[i + 1] && s[1..][j] == s[j + 1];
      }
      DistinctOf(s[1..]);
      forall k | 0 <= k < |s| - 1
        ensures s[1..][k] != s[0]
      {
        assert s[1..][k] == s[k + 1];
      }
      assert s[0] !in s[1..];
    }
  }

  lemma {:induction false} AllUpperOf(s: string)
    requires forall i :: 0 <= i < |s| ==> Text.UpperChar(s[i]) == s[i]
    ensures AllUpper(s)
  {
    if |s| > 0 {
      forall i | 0 <= i < |s| - 1
        ensures Text.UpperChar(s[1..][i]) == s[1..][i]
      {
        assert s[1..][i] == s[i + 1];
      }
      AllUpperOf(s[1..]);
    }
  }

  /** `String.prototype.indexOf` for one character: a position of `c` in
      `s`, or -1 (`IndexOfFirst` shows it is the first one). */
  function IndexOf(s: string, c: char): (r: int)
    ensures -1 <= r < |s|
    ensures r >= 0 ==> s[r] == c
  {
    if |s| == 0 then -1
    else if s[0] == c then 0
    else
      var k := IndexOf(s[1..], c);
      if k < 0 then -1 else k + 1
  }

  /** `indexOf` reports -1 exactly when the character does not occur,
      and otherwise its first occurrence. */
  lemma {:induction false} IndexOfFirst(s: string, c: char)
    ensures IndexOf(s, c) == -1 <==> c !in s
    ensures forall k :: 0 <= k < IndexOf(s, c) ==> s[k] != c
  {
    if |s| > 0 && s[0] != c {
      IndexOfFirst(s[1..], c);
      assert s == [s[0]] + s[1..];
      forall k | 0 < k < IndexOf(s, c)
        ensures s[k] != c
      {
        assert s[k] == s[1..][k - 1];
      }
    }
  }

  /** The character is one of the drum's symbols. */
  predicate OnDrum(a: string, c: char) {
    IndexOf(a, c) >= 0
  }

  /** `idxInAlphabet`: the drum position of the upper-cased character, or
      0 (the first symbol) when the drum does not carry it. */
  function Idx(a: string, c: char): (r: nat)
    ensures r < |a| || r == 0
  {
    var i := IndexOf(a, Text.UpperChar(c));
    if i >= 0 then i else 0
  }

  /** The drum position of a character is 0 when the drum does not carry
      its upper-case form, and otherwise the first position holding it. */
  lemma IdxFound(a: string, c: char)
    ensures Text.UpperChar(c) !in a ==> Idx(a, c) == 0
    ensures Text.UpperChar(c) in a ==> Idx(a, c) < |a| && a[Idx(a, c)] == Text.UpperChar(c)
    ensures Text.UpperChar(c) in a ==> Text.UpperChar(c) !in a[..Idx(a, c)]
  {
    IndexOfFirst(a, Text.UpperChar(c));
  }

  /** The symbol `k` positions round the drum from its first symbol. */
  function Sym(a: string, k: int): char
    requires |a| == SIZE
  {
    a[k % SIZE]
  }

  /** `stepChar`: the symbol after the character's position, wrapping
      after the last. */
  function StepChar(a: string, c: char): char
    requires |a| == SIZE
  {
    Sym(a, Idx(a, c) + 1)
  }

  // ----- Facts about any drum -----

  /** On a drum each symbol is found at its own position. */
  lemma IndexOfDrum(a: string, j: int)
    requires IsDrum(a) && 0 <= j < |a|
    ensures IndexOf(a, a[j]) == j
  {
    IndexOfFirst(a, a[j]);
    var r := IndexOf(a, a[j]);
    if r < j {
      DistinctAt(a, r, j);
    }
  }

  /** Every symbol read off the drum is on it. */
  lemma SymOnDrum(a: string, k: int)
    requires IsDrum(a)
    ensures OnDrum(a, Sym(a, k))
  {
    IndexOfDrum(a, k % SIZE);
  }

  /** The position of `Sym(a, k)` is `k` round the drum. */
  lemma IdxOfSym(a: string, k: int)
    requires IsDrum(a)
    ensures Idx(a, Sym(a, k)) == k % SIZE
  {
    IndexOfDrum(a, k % SIZE);
    AllUpperAt(a, k % SIZE);
  }

  /** A drum symbol sits at its `indexOf` position and reads back as
      itself. */
  lemma IdxOnDrum(a: string, c: char)
    requires IsDrum(a) && OnDrum(a, c)
    ensures Idx(a, c) == IndexOf(a, c)
    ensures Sym(a, Idx(a, c)) == c
  {
    AllUpperAt(a, IndexOf(a, c));
  }

  /** The successor of the symbol `k` positions round is the one at
      `k + 1`. */
  lemma StepCharSym(a: string, k: int)
    requires IsDrum(a)
    ensures StepChar(a, Sym(a, k)) == Sym(a, k + 1)
  {
    IdxOfSym(a, k);
    SymShift(a, k, 1);
  }

  /** Positions are only meaningful round the drum. */
  lemma SymShift(a: string, k: int, d: int)
    requires |a| == SIZE
    ensures Sym(a, k % SIZE + d) == Sym(a, k + d)
  {
    assert (k % SIZE + d) % SIZE == (k + d) % SIZE;
  }

  /** `Sym(a, k)` is the drum symbol `t` exactly when `k` is congruent to
      the position of `t`; a character off the drum is never read. */
  lemma SymHits(a: string, k: int, t: char)
    requires IsDrum(a)
    ensures OnDrum(a, t) ==> (Sym(a, k) == t <==> k % SIZE == Idx(a, t))
    ensures !OnDrum(a, t) ==> Sym(a, k) != t
  {
    SymOnDrum(a, k);
    if OnDrum(a, t) {
      IdxOnDrum(a, t);
      IndexOfDrum(a, k % SIZE);
    }
  }

  // ----- The board's drum -----

  /** Position of a symbol of `ALPHABET`, written out by character class;
      -1 for a character that is not on it. */
  function Rank(c: char): int {
    if c == ' ' then 0
    else if 'A' <= c <= 'Z' then (c as int) - ('A' as int) + 1
    else if '0' <= c <= '9' then (c as int) - ('0' as int) + 27
    else if c == '-' then 37 else if c == '.' then 38 else if c == '/' then 39
    else if c == ':' then 40 else if c == '+' then 41 else if c == '(' then 42
    else if c == ')' then 43 else -1
  }

  lemma RankOfAlphabet(j: int)
    requires 0 <= j < |ALPHABET|
    ensures Rank(ALPHABET[j]) == j
  {
  }

  /** Upper-casing leaves every ranked symbol unchanged. */
  lemma RankedIsUpperCase(c: char)
    requires Rank(c) >= 0
    ensures Text.UpperChar(c) == c
  {
  }

  /** `ALPHABET` is a drum of 44 symbols. */
  lemma AlphabetIsDrum()
    ensures |ALPHABET| == SIZE
    ensures IsDrum(ALPHABET)
  {
    forall i, j | 0 <= i < j < |ALPHABET|
      ensures ALPHABET[i] != ALPHABET[j]
    {
      RankOfAlphabet(i);
      RankOfAlphabet(j);
    }
    forall i | 0 <= i < |ALPHABET|
      ensures Text.UpperChar(ALPHABET[i]) == ALPHABET[i]
    {
      RankOfAlphabet(i);
      RankedIsUpperCase(ALPHABET[i]);
    }
    DistinctOf(ALPHABET);
    AllUpperOf(ALPHABET);
  }

  /** The drum starts with the blank, `A` and `B`, and ends with `)`. */
  lemma AlphabetEnds()
    ensures ALPHABET[0] == ' ' && ALPHABET[1] == 'A' && ALPHABET[2] == 'B' && ALPHABET[43] == ')'
  {
  }

  /** Two successor steps move a drum symbol two positions on; a character
      off the drum counts as the first symbol and ends on the third. */
  lemma StepTwice(a: string, ch: char)
    requires IsDrum(a)
    ensures OnDrum(a, Text.UpperChar(ch)) ==> Idx(a, StepChar(a, StepChar(a, ch))) == (Idx(a, ch) + 2) % SIZE
    ensures !OnDrum(a, Text.UpperChar(ch)) ==> StepChar(a, StepChar(a, ch)) == a[2]
  {
    var k := Idx(a, ch);
    StepCharSym(a, k + 1);
    SymShift(a, k, 1);
    IdxOfSym(a, k + 2);
  }

  /** The first symbol of a drum is on it. */
  lemma FirstOnDrum(a: string)
    requires IsDrum(a)
    ensures OnDrum(a, a[0])
  {
    IndexOfDrum(a, 0);
  }

  /** After its last symbol a drum wraps to its first. */
  lemma LastWraps(a: string)
    requires IsDrum(a)
    ensures StepChar(a, a[43]) == a[0]
  {
    IdxOfSym(a, 43);
  }

  /** After the last symbol, `)`, the drum wraps to the blank. */
  lemma StepCharWraps()
    ensures StepChar(ALPHABET, ')') == ' '
  {
    AlphabetEnds();
    AlphabetIsDrum();
    LastWraps(ALPHABET);
  }

  /** A character that is not on the drum counts as the blank, so its
      successor is `A`. */
  lemma StepCharUnknown(c: char)
    requires !OnDrum(ALPHABET, Text.UpperChar(c))
    ensures Idx(ALPHABET, c) == 0
    ensures StepChar(ALPHABET, c) == 'A'
  {
    AlphabetEnds();
    assert Idx(ALPHABET, c) == 0;
    assert Sym(ALPHABET, 1) == ALPHABET[1];
  }
}
