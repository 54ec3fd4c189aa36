/**
  `parseResponseForChart` from the reply pipeline: the regular expression
  /```json\s*(\{[\s\S]*?"chart":[\s\S]*?\})\s*```/ written out as a scanner,
  and the split of a raw reply into narrative text and an optional chart.
 */
module ChartParser {
  import opened Wrappers
  import opened Strings
  import opened Json
  import opened Types

  /** The literal pieces of the pattern. */
  const Fence: string := "```json"
  const ChartKey: string := "\"chart\":"
  const FenceEnd: string := "```"

  /** One match of the pattern: where the whole match starts, the `{` that opens the captured
      group, the `"chart":` the first lazy scan stops at, the `}` that closes the group, and the
      index just past the closing fence. */
  datatype Match = Match(start: nat, open: nat, key: nat, close: nat, end: nat)

  /** A `}` at `q` that is followed by white space and the closing fence. */
  predicate ClosesAt(t: string, q: nat) {
    q < |t| && t[q] == '}' && Occurs(t, FenceEnd, SkipSpaces(t, q + 1))
  }

  /** The fence at `start` is followed by white space up to the `{` at `open`. The `\s*` of the
      pattern is greedy, and giving white space back cannot help because `{` is not white space. */
  predicate OpensAt(t: string, start: nat, open: nat) {
    && Occurs(t, Fence, start)
    && start + |Fence| <= open < |t|
    && SpacesBetween(t, start + |Fence|, open)
    && t[open] == '{'
  }

  /** `key` is the first `"chart":` after the `{` at `open`: the lazy `[\s\S]*?` stops at the first
      one, and a later one would only narrow the choice of the closing `}`. */
  predicate FirstKeyAt(t: string, open: nat, key: nat) {
    && open < key
    && Occurs(t, ChartKey, key)
    && (forall p: nat :: open < p < key ==> !Occurs(t, ChartKey, p))
  }

  /** `close` is the first `}` at or after `from` that white space and "```" follow. */
  predicate FirstCloseAt(t: string, from: nat, close: nat) {
    && from <= close
    && ClosesAt(t, close)
    && (forall q: nat :: from <= q < close ==> !ClosesAt(t, q))
  }

  /** `m` is what the backtracking regular expression matches when it is tried at `m.start`. */
  predicate IsMatchAt(t: string, m: Match) {
    && OpensAt(t, m.start, m.open)
    && FirstKeyAt(t, m.open, m.key)
    && FirstCloseAt(t, m.key + |ChartKey|, m.close)
    && m.end == SkipSpaces(t, m.close + 1) + |FenceEnd|
  }

  /** The positions of a match come in the order the pattern reads them, inside the text. */
  predicate InOrder(t: string, m: Match) {
    m.start + |Fence| <= m.open < m.key && m.key + |ChartKey| <= m.close && m.close + 1 + |FenceEnd| <= m.end <= |t|
  }

  /** `m` is the leftmost match, the one `String.prototype.match` returns. */
  ghost predicate IsFirstMatch(t: string, m: Match) {
    IsMatchAt(t, m) && forall m' :: IsMatchAt(t, m') ==> m.start <= m'.start
  }

  /** The first `}` at or after `from` that ends a match. */
  function FirstClose(t: string, from: nat): (r: Option<nat>)
    ensures r.Some? ==> from <= r.value < |t|
    decreases |t| - from
  {
    if from >= |t| then None
    else if ClosesAt(t, from) then Some(from)
    else FirstClose(t, from + 1)
  }

  /** `FirstClose` finds a closing `}` and skips none. */
  lemma {:induction false} FirstCloseSpec(t: string, from: nat)
    ensures FirstClose(t, from).Some? ==> ClosesAt(t, FirstClose(t, from).value)
    ensures forall q: nat :: from <= q && (FirstClose(t, from).None? || q < FirstClose(t, from).value) ==> !ClosesAt(t, q)
    decreases |t| - from
  {
    if from < |t| && !ClosesAt(t, from) {
      FirstCloseSpec(t, from + 1);
    }
  }

  /** `FirstClose` finds exactly the `}` that `FirstCloseAt` describes. */
  lemma FirstCloseIff(t: string, from: nat, close: nat)
    ensures FirstClose(t, from) == Some(close) <==> FirstCloseAt(t, from, close)
  {
    FirstCloseSpec(t, from);
  }

  /** The `{` the fence at `i` leads to, after white space, if there is a fence and a `{`. */
  function OpenAt(t: string, i: nat): (r: Option<nat>)
    ensures r.Some? ==> i + |Fence| <= r.value < |t|
  {
    if !Occurs(t, Fence, i) then None
    else
      var open := SkipSpaces(t, i + |Fence|);
      if open < |t| && t[open] == '{' then Some(open) else None
  }

  /** The pattern tried at index `i` only. */
  function MatchAt(t: string, i: nat): Option<Match> {
    match OpenAt(t, i)
    case None => None
    case Some(open) => MatchFromOpen(t, i, open)
  }

  /** The rest of the pattern once the `{` at `open` is found: the key, then the closing brace. */
  function MatchFromOpen(t: string, i: nat, open: nat): Option<Match> {
    match IndexOf(t, ChartKey, open + 1)
    case None => None
    case Some(key) => MatchFromKey(t, i, open, key)
  }

  /** The rest of the pattern once the key at `key` is found. */
  function MatchFromKey(t: string, i: nat, open: nat, key: nat): Option<Match> {
    match FirstClose(t, key + |ChartKey|)
    case None => None
    case Some(close) => Some(Match(i, open, key, close, SkipSpaces(t, close + 1) + |FenceEnd|))
  }

  /** `OpenAt` finds exactly the `{` that `OpensAt` describes. */
  lemma OpenAtIff(t: string, i: nat, open: nat)
    ensures OpenAt(t, i) == Some(open) <==> OpensAt(t, i, open)
  {
    if Occurs(t, Fence, i) {
      SkippedAreSpaces(t, i + |Fence|);
      if OpensAt(t, i, open) {
        SkipSpacesUnique(t, i + |Fence|, open);
      }
    }
  }

  /** `IndexOf` finds exactly the key that `FirstKeyAt` describes. */
  lemma KeyIff(t: string, open: nat, key: nat)
    ensures IndexOf(t, ChartKey, open + 1) == Some(key) <==> FirstKeyAt(t, open, key)
  {
    IndexOfSpec(t, ChartKey, open + 1);
  }

  /** What `MatchAt` finds is a match at `i`. */
  lemma MatchAtSound(t: string, i: nat, m: Match)
    requires MatchAt(t, i) == Some(m)
    ensures m.start == i && IsMatchAt(t, m)
  {
    MatchAtParts(t, i, m);
    PartsMatch(t, m);
  }

  /** The three searches succeeding in turn make a match. */
  lemma PartsMatch(t: string, m: Match)
    requires OpenAt(t, m.start) == Some(m.open)
    requires IndexOf(t, ChartKey, m.open + 1) == Some(m.key)
    requires FirstClose(t, m.key + |ChartKey|) == Some(m.close)
    requires m.end == SkipSpaces(t, m.close + 1) + |FenceEnd|
    ensures IsMatchAt(t, m)
  {
    OpenAtIff(t, m.start, m.open);
    KeyIff(t, m.open, m.key);
    FirstCloseIff(t, m.key + |ChartKey|, m.close);
  }

  /** What `MatchAt` finds is put together from its three searches. */
  lemma MatchAtParts(t: string, i: nat, m: Match)
    requires MatchAt(t, i) == Some(m)
    ensures && m.start == i
            && OpenAt(t, i) == Some(m.open)
            && IndexOf(t, ChartKey, m.open + 1) == Some(m.key)
            && FirstClose(t, m.key + |ChartKey|) == Some(m.close)
            && m.end == SkipSpaces(t, m.close + 1) + |FenceEnd|
  {
  }

  /** `MatchAt` assembles a match from its three searches. */
  lemma MatchAtOf(t: string, m: Match)
    requires OpenAt(t, m.start) == Some(m.open)
    requires IndexOf(t, ChartKey, m.open + 1) == Some(m.key)
    requires FirstClose(t, m.key + |ChartKey|) == Some(m.close)
    requires m.end == SkipSpaces(t, m.close + 1) + |FenceEnd|
    ensures MatchAt(t, m.start) == Some(m)
  {
    MatchFromKeyOf(t, m);
    assert MatchFromOpen(t, m.start, m.open) == Some(m);
  }

  /** The closing brace found after the key completes the match. */
  lemma MatchFromKeyOf(t: string, m: Match)
    requires FirstClose(t, m.key + |ChartKey|) == Some(m.close)
    requires m.end == SkipSpaces(t, m.close + 1) + |FenceEnd|
    ensures MatchFromKey(t, m.start, m.open, m.key) == Some(m)
  {
  }

  /** A match at `i` is the one `MatchAt` finds: the pattern matches at most one way at each index. */
  lemma MatchAtComplete(t: string, m: Match)
    requires IsMatchAt(t, m)
    ensures MatchAt(t, m.start) == Some(m)
  {
    OpenAtIff(t, m.start, m.open);
    KeyIff(t, m.open, m.key);
    FirstCloseIff(t, m.key + |ChartKey|, m.close);
    MatchAtOf(t, m);
  }

  /** The scan from left to right: the first index at or after `from` where the pattern matches. */
  function FindMatch(t: string, from: nat): Option<Match>
    decreases |t| - from
  {
    if from >= |t| then None
    else
      match MatchAt(t, from)
      case Some(m) => Some(m)
      case None => FindMatch(t, from + 1)
  }

  /** `FindMatch` returns what `MatchAt` finds at the first index where it finds anything. */
  lemma {:induction false} FindMatchSpec(t: string, from: nat)
    ensures FindMatch(t, from).Some? ==>
              from <= FindMatch(t, from).value.start && MatchAt(t, FindMatch(t, from).value.start) == FindMatch(t, from)
    ensures forall i: nat :: from <= i && (FindMatch(t, from).None? || i < FindMatch(t, from).value.start) ==> MatchAt(t, i).None?
    decreases |t| - from
  {
    if from < |t| && MatchAt(t, from).None? {
      FindMatchSpec(t, from + 1);
    }
  }

  /** The scan finds the leftmost match when there is one, and reports none otherwise. */
  lemma FindMatchIsFirst(t: string)
    ensures FindMatch(t, 0).Some? ==> IsFirstMatch(t, FindMatch(t, 0).value)
    ensures FindMatch(t, 0).None? ==> forall m :: !IsMatchAt(t, m)
  {
    FindMatchSpec(t, 0);
    if FindMatch(t, 0).Some? {
      var r := FindMatch(t, 0).value;
      MatchAtSound(t, r.start, r);
    }
    forall m | IsMatchAt(t, m)
      ensures FindMatch(t, 0).Some? && FindMatch(t, 0).value.start <= m.start
    {
      MatchAtComplete(t, m);
    }
  }

  /** There is only one leftmost match, and the scan returns it. */
  lemma FirstMatchFound(t: string, m: Match)
    requires IsFirstMatch(t, m)
    ensures FindMatch(t, 0) == Some(m)
  {
    FindMatchIsFirst(t);
    FindMatchSpec(t, 0);
    var r := FindMatch(t, 0).value;
    assert r.start == m.start;
    MatchAtComplete(t, m);
  }

  /** `m` moved so that it starts at `c`. */
  function Moved(m: Match, c: nat): Match
    requires m.start <= m.open <= m.key <= m.close <= m.end
  {
    Match(c, m.open - m.start + c, m.key - m.start + c, m.close - m.start + c, m.end - m.start + c)
  }

  /** Whether `}` at `q` ends a match is decided inside a window that holds the closing fence at `j`. */
  lemma ClosesMoves(t: string, a: nat, s: string, c: nat, n: nat, q: nat, j: nat)
    requires SameWindow(t, a, s, c, n) && a <= q < j && j + |FenceEnd| <= a + n
    requires Occurs(t, FenceEnd, j)
    ensures ClosesAt(t, q) <==> ClosesAt(s, q - a + c)
  {
    assert t[j] == t[j..j + |FenceEnd|][0];
    SkipMoves(t, a, s, c, n, q + 1, j);
    SkipStopsBy(t, q + 1, j);
    CharMoves(t, a, s, c, n, q);
    OccursMoves(t, a, s, c, n, FenceEnd, SkipSpaces(t, q + 1));
  }

  /** The fence and the `{` of a match read the same wherever its text is copied. */
  lemma OpenMoves(t: string, a: nat, s: string, c: nat, n: nat, open: nat, open': nat)
    requires SameWindow(t, a, s, c, n) && OpensAt(t, a, open) && open < a + n && open' + a == open + c
    ensures OpensAt(s, c, open')
  {
    OccursMoves(t, a, s, c, n, Fence, a);
    CharMoves(t, a, s, c, n, open);
    forall k | c + |Fence| <= k < open'
      ensures IsSpace(s[k])
    {
      CharMoves(t, a, s, c, n, k - c + a);
    }
  }

  /** The key of a match, and the absence of an earlier one, read the same wherever its text is copied. */
  lemma KeyMoves(t: string, a: nat, s: string, c: nat, n: nat, open: nat, key: nat, open': nat, key': nat)
    requires SameWindow(t, a, s, c, n) && a <= open && FirstKeyAt(t, open, key) && key + |ChartKey| <= a + n
    requires open' + a == open + c && key' + a == key + c
    ensures FirstKeyAt(s, open', key')
  {
    OccursMoves(t, a, s, c, n, ChartKey, key);
    forall p: nat | open' < p < key'
      ensures !Occurs(s, ChartKey, p)
    {
      OccursMoves(t, a, s, c, n, ChartKey, p - c + a);
    }
  }

  /** The closing `}` of a match, the absence of an earlier one and the end of the match read the
      same wherever its text is copied. */
  lemma CloseMoves(t: string, a: nat, s: string, c: nat, n: nat, from: nat, close: nat, from': nat, close': nat)
    requires SameWindow(t, a, s, c, n) && a <= from && FirstCloseAt(t, from, close)
    requires a + n == SkipSpaces(t, close + 1) + |FenceEnd|
    requires from' + a == from + c && close' + a == close + c
    ensures FirstCloseAt(s, from', close')
    ensures n + c == SkipSpaces(s, close' + 1) + |FenceEnd|
  {
    var j := a + n - |FenceEnd|;
    ClosesMoves(t, a, s, c, n, close, j);
    forall q: nat | from' <= q < close'
      ensures !ClosesAt(s, q)
    {
      ClosesMoves(t, a, s, c, n, q - c + a, j);
    }
    assert t[j] == t[j..j + |FenceEnd|][0];
    SkipMoves(t, a, s, c, n, close + 1, j);
  }

  /** A match depends only on its own text: copied anywhere, it is a match there. */
  lemma MatchMoves(t: string, m: Match, s: string, c: nat)
    requires IsMatchAt(t, m) && SameWindow(t, m.start, s, c, m.end - m.start)
    ensures IsMatchAt(s, Moved(m, c))
  {
    MatchInOrder(t, m);
    HeadMoves(t, m, s, c);
    TailMoves(t, m, s, c);
  }

  /** The fence, the `{` and the key of a match, copied. */
  lemma HeadMoves(t: string, m: Match, s: string, c: nat)
    requires IsMatchAt(t, m) && InOrder(t, m) && SameWindow(t, m.start, s, c, m.end - m.start)
    ensures OpensAt(s, c, Moved(m, c).open) && FirstKeyAt(s, Moved(m, c).open, Moved(m, c).key)
  {
    var a, n, mv := m.start, m.end - m.start, Moved(m, c);
    OpenMoves(t, a, s, c, n, m.open, mv.open);
    KeyMoves(t, a, s, c, n, m.open, m.key, mv.open, mv.key);
  }

  /** The closing `}` and the end of a match, copied. */
  lemma TailMoves(t: string, m: Match, s: string, c: nat)
    requires IsMatchAt(t, m) && InOrder(t, m) && SameWindow(t, m.start, s, c, m.end - m.start)
    ensures var mv := Moved(m, c);
            FirstCloseAt(s, mv.key + |ChartKey|, mv.close) && mv.end == SkipSpaces(s, mv.close + 1) + |FenceEnd|
  {
    var a, n, mv := m.start, m.end - m.start, Moved(m, c);
    CloseMoves(t, a, s, c, n, m.key + |ChartKey|, m.close, mv.key + |ChartKey|, mv.close);
  }

  /** The text of the leftmost match does not occur earlier, so `replace(match[0], '')` removes
      exactly the match. */
  lemma FirstMatchRemoved(t: string, m: Match)
    requires IsFirstMatch(t, m)
    ensures RemoveFirst(t, t[m.start..m.end]) == t[..m.start] + t[m.end..]
  {
    var w := t[m.start..m.end];
    forall p: nat | p < m.start
      ensures !Occurs(t, w, p)
    {
      if Occurs(t, w, p) {
        assert SameWindow(t, m.start, t, p, m.end - m.start);
        MatchMoves(t, m, t, p);
        assert false;
      }
    }
    IndexOfIs(t, w, 0, m.start);
  }

  lemma MatchInOrder(t: string, m: Match)
    requires IsMatchAt(t, m)
    ensures InOrder(t, m)
  {
  }

  /** The reply for a captured `group`: if it parses to a value with a truthy `chart`, the `cleaned`
      text, trimmed, goes with that chart; otherwise the full text `t` is kept. */
  function ChartReply(t: string, group: string, cleaned: string, parse: string -> Option<JsonValue>): Reply {
    match parse(group)
    case None => Reply(t, None)
    case Some(parsed) =>
      var chart := Member(parsed, "chart");
      if Truthy(chart) then Reply(Trim(cleaned), chart) else Reply(t, None)
  }

  /** `parseResponseForChart`: when the reply holds a fenced JSON block whose object has a truthy
      `chart`, the block is cut out of the text (which is then trimmed) and the chart returned;
      otherwise the text is returned as it is. `parse` is `JSON.parse`, with `None` for the input on
      which it throws. The captured group always starts with `{`, so it is never empty. */
  function ParseResponseForChart(fullText: string, parse: string -> Option<JsonValue>): (r: Reply)
    ensures r.chartData.None? ==> r.text == fullText
    ensures r.chartData.Some? ==> Truthy(r.chartData)
  {
    match FindMatch(fullText, 0)
    case None => Reply(fullText, None)
    case Some(m) => ReplyForMatch(fullText, m, parse)
  }

  /** The reply for the match `m`: its group is parsed and the text of the whole match removed. */
  function ReplyForMatch(t: string, m: Match, parse: string -> Option<JsonValue>): Reply {
    ChartReply(t, Substring(t, m.open, m.close + 1), RemoveFirst(t, Substring(t, m.start, m.end)), parse)
  }

  /** Without a match the reply is the text itself and carries no chart. */
  lemma ParseWithoutMatch(t: string, parse: string -> Option<JsonValue>)
    requires forall m :: !IsMatchAt(t, m)
    ensures ParseResponseForChart(t, parse) == Reply(t, None)
  {
    FindMatchIsFirst(t);
  }

  /** With a match, the leftmost one decides: its group is parsed, and if the parsed object has a
      truthy `chart` the reply is the text around the match, trimmed, with that chart. */
  lemma ParseFirstMatch(t: string, parse: string -> Option<JsonValue>, m: Match)
    requires IsFirstMatch(t, m)
    ensures InOrder(t, m)
    ensures ParseResponseForChart(t, parse) == ChartReply(t, t[m.open..m.close + 1], t[..m.start] + t[m.end..], parse)
  {
    MatchInOrder(t, m);
    FirstMatchFound(t, m);
    FirstMatchRemoved(t, m);
    ParseFound(t, parse, m);
    ReplyForMatchIs(t, parse, m, t[m.open..m.close + 1], t[..m.start] + t[m.end..]);
  }

  lemma ParseFound(t: string, parse: string -> Option<JsonValue>, m: Match)
    requires FindMatch(t, 0) == Some(m)
    ensures ParseResponseForChart(t, parse) == ReplyForMatch(t, m, parse)
  {
  }

  lemma ReplyForMatchIs(t: string, parse: string -> Option<JsonValue>, m: Match, group: string, cleaned: string)
    requires Substring(t, m.open, m.close + 1) == group
    requires RemoveFirst(t, Substring(t, m.start, m.end)) == cleaned
    ensures ReplyForMatch(t, m, parse) == ChartReply(t, group, cleaned, parse)
  {
    assert ReplyForMatch(t, m, parse) == ChartReply(t, Substring(t, m.open, m.close + 1), RemoveFirst(t, Substring(t, m.start, m.end)), parse);
  }

  /** A reply with no backquote in it has no fenced block, and is passed on unchanged. */
  lemma NoFenceNoChart(t: string, parse: string -> Option<JsonValue>)
    requires '`' !in t
    ensures ParseResponseForChart(t, parse) == Reply(t, None)
  {
    forall i: nat | i + |Fence| <= |t|
      ensures !Occurs(t, Fence, i)
    {
      assert t[i] in t;
      assert t[i..i + |Fence|][0] == t[i];
    }
    ParseWithoutMatch(t, parse);
  }

  /** What comes between the narrative and the JSON body of a reply that carries a chart. */
  const BlockOpen: string := "\n\n```json\n{"
  /** What comes after the JSON body. */
  const BlockClose: string := "}\n```"

  /** A reply laid out the way the system prompt asks for it: the narrative, then the JSON block at
      the very end. */
  function ChartBlock(narrative: string, body: string): string {
    narrative + BlockOpen + body + BlockClose
  }

  /** The match a chart block makes, with the key at `kb` in the body. */
  function BlockMatch(narrative: string, body: string, kb: nat): Match {
    var l := |narrative|;
    Match(l + 2, l + 10, l + 11 + kb, l + 11 + |body|, l + 16 + |body|)
  }

  /** The fence and the `{` of a chart block. */
  lemma BlockOpens(n: string, body: string)
    ensures OpensAt(ChartBlock(n, body), |n| + 2, |n| + 10)
  {
    var t := ChartBlock(n, body);
    ConcatPieces(n, BlockOpen, body, BlockClose);
    assert SameWindow(BlockOpen, 0, t, |n|, |BlockOpen|);
    assert Occurs(BlockOpen, Fence, 2);
    OccursMoves(BlockOpen, 0, t, |n|, |BlockOpen|, Fence, 2);
    CharMoves(BlockOpen, 0, t, |n|, |BlockOpen|, 9);
    CharMoves(BlockOpen, 0, t, |n|, |BlockOpen|, 10);
  }

  /** The first key in `s` is at `kb`. */
  predicate FirstKeyIn(s: string, kb: nat) {
    Occurs(s, ChartKey, kb) && forall q: nat :: q < kb ==> !Occurs(s, ChartKey, q)
  }

  /** The first key of the body is the first key after the `{` of a chart block. */
  lemma BlockKey(n: string, body: string, kb: nat)
    requires FirstKeyIn(body, kb)
    ensures FirstKeyAt(ChartBlock(n, body), |n| + 10, |n| + 11 + kb)
  {
    var t := ChartBlock(n, body);
    ConcatPieces(n, BlockOpen, body, BlockClose);
    assert SameWindow(body, 0, t, |n| + 11, |body|);
    FirstKeyMoves(body, t, |n| + 11, kb);
  }

  /** The first key of `s` is the first key, from `a` on, of a text holding `s` at `a`. */
  lemma FirstKeyMoves(s: string, t: string, a: nat, kb: nat)
    requires SameWindow(s, 0, t, a, |s|) && FirstKeyIn(s, kb)
    ensures Occurs(t, ChartKey, a + kb)
    ensures forall p: nat :: a <= p < a + kb ==> !Occurs(t, ChartKey, p)
  {
    OccursMoves(s, 0, t, a, |s|, ChartKey, kb);
    forall p: nat | a <= p < a + kb
      ensures !Occurs(t, ChartKey, p)
    {
      OccursMoves(s, 0, t, a, |s|, ChartKey, p - a);
    }
  }

  /** The characters of a chart block, piece by piece. */
  lemma NarrativeChar(n: string, body: string, p: nat)
    requires p < |n|
    ensures ChartBlock(n, body)[p] == n[p]
  {
  }

  lemma OpenChar(n: string, body: string, k: nat)
    requires k < |BlockOpen|
    ensures ChartBlock(n, body)[|n| + k] == BlockOpen[k]
  {
  }

  lemma BodyChar(n: string, body: string, k: nat)
    requires k < |body|
    ensures ChartBlock(n, body)[|n| + 11 + k] == body[k]
  {
  }

  lemma CloseChar(n: string, body: string, k: nat)
    requires k < |BlockClose|
    ensures ChartBlock(n, body)[|n| + 11 + |body| + k] == BlockClose[k]
  {
  }

  /** Before the fence, a chart block holds no backquote. */
  lemma NoTickBefore(n: string, body: string)
    requires '`' !in n
    ensures forall p :: 0 <= p < |n| + 2 ==> ChartBlock(n, body)[p] != '`'
  {
    forall p | 0 <= p < |n| + 2
      ensures ChartBlock(n, body)[p] != '`'
    {
      if p < |n| {
        NarrativeChar(n, body, p);
        assert n[p] in n;
      } else {
        OpenChar(n, body, p - |n|);
      }
    }
  }

  /** Between the `{` and the closing `}` of a chart block, no `}` is followed by the fence: the body
      has no backquote. */
  lemma BlockNoEarlierClose(n: string, body: string, q: nat)
    requires '`' !in body && |n| + 11 <= q < |n| + 11 + |body|
    ensures !ClosesAt(ChartBlock(n, body), q)
  {
    var t, close := ChartBlock(n, body), |n| + 11 + |body|;
    CloseChar(n, body, 0);
    SkipStopsBy(t, q + 1, close);
    var f := SkipSpaces(t, q + 1);
    if f < close {
      BodyChar(n, body, f - |n| - 11);
      assert body[f - |n| - 11] in body;
    }
    assert !Occurs(t, FenceEnd, f) by {
      if f + |FenceEnd| <= |t| {
        assert t[f..f + |FenceEnd|][0] == t[f];
      }
    }
  }

  /** The `}` after the body is the first one that closes a chart block, and the fence follows it
      after one line break. */
  lemma BlockCloses(n: string, body: string, from: nat)
    requires '`' !in body && |n| + 11 <= from <= |n| + 11 + |body|
    ensures FirstCloseAt(ChartBlock(n, body), from, |n| + 11 + |body|)
    ensures SkipSpaces(ChartBlock(n, body), |n| + 12 + |body|) == |n| + 13 + |body|
  {
    var t, close := ChartBlock(n, body), |n| + 11 + |body|;
    CloseChar(n, body, 0);
    CloseChar(n, body, 1);
    CloseChar(n, body, 2);
    SkipSpacesUnique(t, close + 1, close + 2);
    assert t[close + 2..close + 5] == FenceEnd by {
      CloseChar(n, body, 3);
      CloseChar(n, body, 4);
    }
    forall q: nat | from <= q < close
      ensures !ClosesAt(t, q)
    {
      BlockNoEarlierClose(n, body, q);
    }
  }

  /** No match starts inside the narrative or the blank line after it. */
  lemma BlockStartsAfterNarrative(n: string, body: string, m: Match)
    requires '`' !in n && IsMatchAt(ChartBlock(n, body), m)
    ensures |n| + 2 <= m.start
  {
    var t := ChartBlock(n, body);
    NoTickBefore(n, body);
    assert t[m.start..m.start + |Fence|][0] == t[m.start];
  }

  /** The group of a chart block's match is the body in braces. */
  lemma BlockGroup(n: string, body: string, kb: nat)
    ensures var t, m := ChartBlock(n, body), BlockMatch(n, body, kb);
            t[m.open..m.close + 1] == "{" + body + "}"
  {
    var t, g := ChartBlock(n, body), "{" + body + "}";
    forall k | 0 <= k < |g|
      ensures t[|n| + 10 + k] == g[k]
    {
      if k == 0 {
        OpenChar(n, body, 10);
      } else if k <= |body| {
        BodyChar(n, body, k - 1);
      } else {
        CloseChar(n, body, 0);
      }
    }
  }

  /** What remains of a chart block without its match is the narrative and the blank line. */
  lemma BlockCleaned(n: string, body: string, kb: nat)
    ensures var t, m := ChartBlock(n, body), BlockMatch(n, body, kb);
            t[..m.start] + t[m.end..] == n + "\n\n"
  {
    var t := ChartBlock(n, body);
    assert t[|n| + 16 + |body|..] == [];
    forall p | 0 <= p < |n| + 2
      ensures t[p] == (n + "\n\n")[p]
    {
      if p < |n| {
        NarrativeChar(n, body, p);
      } else {
        OpenChar(n, body, p - |n|);
      }
    }
  }

  /** The reply built from a chart block's group and what remains of it. */
  lemma BlockReply(n: string, body: string, parse: string -> Option<JsonValue>, group: string, cleaned: string)
    requires IsTrimmed(n) && group == "{" + body + "}" && cleaned == n + "\n\n"
    ensures var v := parse("{" + body + "}");
            ChartReply(ChartBlock(n, body), group, cleaned, parse) ==
              if v.Some? && Truthy(Member(v.value, "chart")) then Reply(n, Member(v.value, "chart"))
              else Reply(ChartBlock(n, body), None)
  {
    TrimmedPlusSpaces(n, "\n\n");
  }

  /** A chart block is matched where it stands. */
  lemma BlockIsFirstMatch(n: string, body: string, kb: nat)
    requires '`' !in n && '`' !in body && FirstKeyIn(body, kb)
    ensures IsFirstMatch(ChartBlock(n, body), BlockMatch(n, body, kb))
  {
    BlockIsMatch(n, body, kb);
    BlockIsLeftmost(n, body, kb);
  }

  /** The positions of a chart block make a match. */
  lemma BlockIsMatch(n: string, body: string, kb: nat)
    requires '`' !in n && '`' !in body && FirstKeyIn(body, kb)
    ensures IsMatchAt(ChartBlock(n, body), BlockMatch(n, body, kb))
  {
    var m := BlockMatch(n, body, kb);
    BlockOpens(n, body);
    BlockKey(n, body, kb);
    BlockCloses(n, body, m.key + |ChartKey|);
  }

  /** No match of a chart block starts before its fence. */
  lemma BlockIsLeftmost(n: string, body: string, kb: nat)
    requires '`' !in n && '`' !in body
    ensures forall m' :: IsMatchAt(ChartBlock(n, body), m') ==> BlockMatch(n, body, kb).start <= m'.start
  {
    forall m' | IsMatchAt(ChartBlock(n, body), m')
      ensures BlockMatch(n, body, kb).start <= m'.start
    {
      BlockStartsAfterNarrative(n, body, m');
    }
  }

  /** A chart block is parsed at its own match. */
  lemma BlockParsed(n: string, body: string, parse: string -> Option<JsonValue>, kb: nat)
    requires '`' !in n && '`' !in body && FirstKeyIn(body, kb)
    ensures ParseResponseForChart(ChartBlock(n, body), parse) ==
            ChartReply(ChartBlock(n, body), "{" + body + "}", n + "\n\n", parse)
  {
    var t, m := ChartBlock(n, body), BlockMatch(n, body, kb);
    BlockIsFirstMatch(n, body, kb);
    BlockGroup(n, body, kb);
    BlockCleaned(n, body, kb);
    ParsedAt(t, parse, m, "{" + body + "}", n + "\n\n");
  }

  /** `ParseFirstMatch` with the group and the cleaned text given by name. */
  lemma ParsedAt(t: string, parse: string -> Option<JsonValue>, m: Match, group: string, cleaned: string)
    requires IsFirstMatch(t, m) && t[m.open..m.close + 1] == group && t[..m.start] + t[m.end..] == cleaned
    ensures ParseResponseForChart(t, parse) == ChartReply(t, group, cleaned, parse)
  {
    ParseFirstMatch(t, parse, m);
  }

  /** The round trip of the system prompt's convention: a trimmed narrative without backquotes,
      followed by a JSON block whose body holds `"chart":` and no backquote, comes back apart. If
      the block parses to a value with a truthy `chart`, the reply is the narrative with that
      chart; otherwise it is the whole text without a chart. */
  lemma ChartBlockRoundTrip(n: string, body: string, parse: string -> Option<JsonValue>)
    requires IsTrimmed(n) && '`' !in n && '`' !in body && Includes(body, ChartKey)
    ensures var v := parse("{" + body + "}");
            ParseResponseForChart(ChartBlock(n, body), parse) ==
              if v.Some? && Truthy(Member(v.value, "chart")) then Reply(n, Member(v.value, "chart"))
              else Reply(ChartBlock(n, body), None)
  {
    IndexOfSpec(body, ChartKey, 0);
    BlockParsed(n, body, parse, IndexOf(body, ChartKey, 0).value);
    BlockReply(n, body, parse, "{" + body + "}", n + "\n\n");
  }
}
