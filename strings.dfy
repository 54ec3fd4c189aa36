/**
  The JavaScript string operations the chat front-end relies on: `includes`,
  `indexOf`, `trim`, `substring(0, n)`, `replace` with a string pattern, the
  white-space class `\s`, and the rendering of a non-negative integer in a
  template literal. Strings are sequences of Unicode characters.
 */
module Strings {
  import opened Wrappers

  /** JavaScript white space: the class `\s` of regular expressions, which is also what `trim` strips. */
  predicate IsSpace(c: char) {
    || c == '\t' || c == '\n' || c == '\U{000B}' || c == '\U{000C}' || c == '\r' || c == ' '
    || c == '\U{00A0}' || c == '\U{1680}' || ('\U{2000}' <= c <= '\U{200A}')
    || c == '\U{2028}' || c == '\U{2029}' || c == '\U{202F}' || c == '\U{205F}'
    || c == '\U{3000}' || c == '\U{FEFF}'
  }

  /** Every character of `t` at an index in `[i, j)` is white space. */
  predicate SpacesBetween(t: string, i: nat, j: nat)
    requires j <= |t|
  {
    forall k :: i <= k < j ==> IsSpace(t[k])
  }

  /** `pat` occurs in `t` starting at index `i`. */
  predicate Occurs(t: string, pat: string, i: nat) {
    i + |pat| <= |t| && t[i..i + |pat|] == pat
  }

  /** `t.indexOf(pat, from)`: the first index at or after `from` where `pat` occurs, if any. */
  function IndexOf(t: string, pat: string, from: nat): (r: Option<nat>)
    ensures r.Some? ==> from <= r.value && r.value + |pat| <= |t|
    decreases |t| - from
  {
    if from + |pat| > |t| then None
    else if t[from..from + |pat|] == pat then Some(from)
    else IndexOf(t, pat, from + 1)
  }

  /** `IndexOf` reports an occurrence, and skips none. */
  lemma {:induction false} IndexOfSpec(t: string, pat: string, from: nat)
    ensures IndexOf(t, pat, from).Some? ==> Occurs(t, pat, IndexOf(t, pat, from).value)
    ensures forall q: nat :: from <= q && (IndexOf(t, pat, from).None? || q < IndexOf(t, pat, from).value) ==> !Occurs(t, pat, q)
    decreases |t| - from
  {
    if from + |pat| <= |t| && t[from..from + |pat|] != pat {
      IndexOfSpec(t, pat, from + 1);
    }
  }

  /** `IndexOf` finds the occurrence that no earlier one precedes. */
  lemma IndexOfIs(t: string, pat: string, from: nat, k: nat)
    requires from <= k && Occurs(t, pat, k)
    requires forall q: nat :: from <= q < k ==> !Occurs(t, pat, q)
    ensures IndexOf(t, pat, from) == Some(k)
  {
    IndexOfSpec(t, pat, from);
  }

  /** `s.includes(pat)`. */
  function Includes(s: string, pat: string): bool {
    IndexOf(s, pat, 0).Some?
  }

  /** `Includes` holds exactly when `pat` occurs somewhere in `s`. */
  lemma IncludesSpec(s: string, pat: string)
    ensures Includes(s, pat) <==> exists i: nat :: Occurs(s, pat, i)
  {
    IndexOfSpec(s, pat, 0);
  }

  /** A string that lacks one of the characters of `pat` cannot contain `pat`. */
  lemma MissingCharExcludes(s: string, pat: string, k: nat)
    requires k < |pat| && pat[k] !in s
    ensures !Includes(s, pat)
  {
    IncludesSpec(s, pat);
    forall i: nat | Occurs(s, pat, i)
      ensures false
    {
    }
  }

  /** `s.substring(start, end)`: both bounds are clamped to the length of `s`, and swapped when
      they come in the wrong order. */
  function Substring(s: string, start: nat, end: nat): (r: string)
    ensures start <= end <= |s| ==> r == s[start..end]
  {
    var a := if start < |s| then start else |s|;
    var b := if end < |s| then end else |s|;
    if a <= b then s[a..b] else s[b..a]
  }

  /** `s.substring(0, end)` is the first `end` characters of `s`, or all of `s` when it is shorter. */
  lemma SubstringPrefix(s: string, end: nat)
    ensures Substring(s, 0, end) <= s
    ensures |Substring(s, 0, end)| == if end < |s| then end else |s|
  {
  }

  /** The first index at or after `i` that does not hold white space (`|t|` when there is none):
      how far a greedy `\s*` reaches from `i`. */
  function SkipSpaces(t: string, i: nat): (r: nat)
    requires i <= |t|
    ensures i <= r <= |t|
    decreases |t| - i
  {
    if i < |t| && IsSpace(t[i]) then SkipSpaces(t, i + 1) else i
  }

  /** Everything `SkipSpaces` skips is white space, and it stops only at the end or at a
      character that is not. */
  lemma {:induction false} SkippedAreSpaces(t: string, i: nat)
    requires i <= |t|
    ensures SpacesBetween(t, i, SkipSpaces(t, i))
    ensures SkipSpaces(t, i) < |t| ==> !IsSpace(t[SkipSpaces(t, i)])
    decreases |t| - i
  {
    if i < |t| && IsSpace(t[i]) {
      SkippedAreSpaces(t, i + 1);
    }
  }

  /** Only one index fits the description that `SkipSpaces` promises. */
  lemma SkipSpacesUnique(t: string, i: nat, k: nat)
    requires i <= k <= |t| && SpacesBetween(t, i, k) && (k < |t| ==> !IsSpace(t[k]))
    ensures SkipSpaces(t, i) == k
  {
    SkippedAreSpaces(t, i);
  }

  /** `t` from `a` and `s` from `c` hold the same `n` characters. */
  predicate SameWindow(t: string, a: nat, s: string, c: nat, n: nat) {
    a + n <= |t| && c + n <= |s| && t[a..a + n] == s[c..c + n]
  }

  /** A character inside a shared window is the same on both sides. */
  lemma CharMoves(t: string, a: nat, s: string, c: nat, n: nat, k: nat)
    requires SameWindow(t, a, s, c, n) && a <= k < a + n
    ensures t[k] == s[k - a + c]
  {
    assert t[k] == t[a..a + n][k - a];
  }

  /** An occurrence inside a shared window is an occurrence on both sides. */
  lemma OccursMoves(t: string, a: nat, s: string, c: nat, n: nat, pat: string, i: nat)
    requires SameWindow(t, a, s, c, n) && a <= i && i + |pat| <= a + n
    ensures Occurs(t, pat, i) <==> Occurs(s, pat, i - a + c)
  {
    forall k | i <= k < i + |pat|
      ensures t[k] == s[k - a + c]
    {
      CharMoves(t, a, s, c, n, k);
    }
    assert t[i..i + |pat|] == s[i - a + c..i - a + c + |pat|];
  }

  /** `SkipSpaces` stops at the latest at a character that is not white space. */
  lemma {:induction false} SkipStopsBy(t: string, i: nat, j: nat)
    requires i <= j < |t| && !IsSpace(t[j])
    ensures SkipSpaces(t, i) <= j
    decreases j - i
  {
    if i < j && IsSpace(t[i]) {
      SkipStopsBy(t, i + 1, j);
    }
  }

  /** A white-space run that ends inside a shared window, at the non-space character at `j`,
      is the same run on both sides. */
  lemma {:induction false} SkipMoves(t: string, a: nat, s: string, c: nat, n: nat, i: nat, j: nat)
    requires SameWindow(t, a, s, c, n) && a <= i <= j < a + n && !IsSpace(t[j])
    ensures SkipSpaces(s, i - a + c) == SkipSpaces(t, i) - a + c
    decreases j - i
  {
    CharMoves(t, a, s, c, n, i);
    if i < j && IsSpace(t[i]) {
      SkipMoves(t, a, s, c, n, i + 1, j);
    }
  }

  /** The four pieces of a concatenation sit where their lengths put them. */
  lemma ConcatPieces(a: string, b: string, c: string, d: string)
    ensures var t := a + b + c + d;
            && t[..|a|] == a
            && t[|a|..|a| + |b|] == b
            && t[|a| + |b|..|a| + |b| + |c|] == c
            && t[|a| + |b| + |c|..] == d
  {
    var t := a + b + c + d;
    assert t == a + (b + (c + d));
    assert t[|a|..] == b + (c + d);
    assert t[|a| + |b|..] == c + d;
  }

  /** `s` has no leading and no trailing white space. */
  predicate IsTrimmed(s: string) {
    s == [] || (!IsSpace(s[0]) && !IsSpace(s[|s| - 1]))
  }

  /** `s` without its leading white space. */
  function TrimStart(s: string): (r: string)
    ensures |r| <= |s| && r == s[|s| - |r|..]
  {
    s[SkipSpaces(s, 0)..]
  }

  /** `TrimStart` removes white space only, and all of it. */
  lemma TrimStartSpec(s: string)
    ensures SpacesBetween(s, 0, |s| - |TrimStart(s)|)
    ensures TrimStart(s) == [] || !IsSpace(TrimStart(s)[0])
  {
    SkippedAreSpaces(s, 0);
  }

  /** `s` without its trailing white space. */
  function TrimEnd(s: string): (r: string)
    ensures |r| <= |s| && r == s[..|r|]
  {
    if s != [] && IsSpace(s[|s| - 1]) then TrimEnd(s[..|s| - 1]) else s
  }

  /** `TrimEnd` removes white space only, and all of it. */
  lemma {:induction false} TrimEndSpec(s: string)
    ensures SpacesBetween(s, |TrimEnd(s)|, |s|)
    ensures TrimEnd(s) == [] || !IsSpace(TrimEnd(s)[|TrimEnd(s)| - 1])
  {
    if s != [] && IsSpace(s[|s| - 1]) {
      TrimEndSpec(s[..|s| - 1]);
    }
  }

  /** `s.trim()`. */
  function Trim(s: string): (r: string)
    ensures |r| <= |s|
  {
    TrimEnd(TrimStart(s))
  }

  /** `Trim` leaves no white space at either end, and leaves nothing exactly when `s` is all white space. */
  lemma TrimSpec(s: string)
    ensures IsTrimmed(Trim(s))
    ensures Trim(s) == [] <==> SpacesBetween(s, 0, |s|)
  {
    var u := TrimStart(s);
    TrimStartSpec(s);
    TrimEndSpec(u);
  }

  /** Trimming leaves a string that has no surrounding white space as it is. */
  lemma {:induction false} TrimOfTrimmed(s: string)
    requires IsTrimmed(s)
    ensures Trim(s) == s
  {
    if s != [] {
      SkipSpacesUnique(s, 0, 0);
    }
  }

  /** White space appended to a string is removed again by `TrimEnd`. */
  lemma {:induction false} TrimEndDropsSpaces(s: string, w: string)
    requires SpacesBetween(w, 0, |w|)
    ensures TrimEnd(s + w) == TrimEnd(s)
    decreases |w|
  {
    if w == [] {
      assert s + w == s;
    } else {
      var w' := w[..|w| - 1];
      assert IsSpace((s + w)[|s + w| - 1]);
      assert (s + w)[..|s + w| - 1] == s + w';
      assert TrimEnd(s + w) == TrimEnd(s + w');
      TrimEndDropsSpaces(s, w');
    }
  }

  /** A trimmed string followed by white space trims back to itself. */
  lemma TrimmedPlusSpaces(s: string, w: string)
    requires IsTrimmed(s) && SpacesBetween(w, 0, |w|)
    ensures Trim(s + w) == s
  {
    if s == [] {
      assert s + w == w;
      TrimSpec(w);
    } else {
      SkipSpacesUnique(s + w, 0, 0);
      assert TrimStart(s + w) == s + w;
      TrimEndDropsSpaces(s, w);
      TrimOfTrimmed(s);
    }
  }

  /** `t.replace(pat, '')` for a string `pat`: the first occurrence of `pat` is removed. */
  function RemoveFirst(t: string, pat: string): (r: string)
  {
    match IndexOf(t, pat, 0)
    case None => t
    case Some(p) => t[..p] + t[p + |pat|..]
  }

  /** The decimal digit for `d`. */
  function DigitChar(d: nat): char
    requires d < 10
  {
    (48 + d) as char
  }

  /** `${n}` for a non-negative integer `n` below 10^21 (decimal digits, no leading zero). */
  function DecimalString(n: nat): (r: string)
    ensures |r| >= 1 && (forall i :: 0 <= i < |r| ==> '0' <= r[i] <= '9')
    ensures r[0] == '0' ==> n == 0
  {
    if n < 10 then [DigitChar(n)] else DecimalString(n / 10) + [DigitChar(n % 10)]
  }

  /** The number a string of decimal digits denotes. */
  function DecimalValue(s: string): nat
    requires forall i :: 0 <= i < |s| ==> '0' <= s[i] <= '9'
  {
    if s == [] then 0 else 10 * DecimalValue(s[..|s| - 1]) + (s[|s| - 1] as int - 48)
  }

  /** Reading the rendered digits back gives the number. */
  lemma {:induction false} DecimalRoundTrip(n: nat)
    ensures DecimalValue(DecimalString(n)) == n
  {
    if n >= 10 {
      var s := DecimalString(n);
      assert s[..|s| - 1] == DecimalString(n / 10);
      DecimalRoundTrip(n / 10);
    }
  }
}
