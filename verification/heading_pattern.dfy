/** The label-heading patterns of the general-chat output cleanup, and what `replace` with a
    global pattern does with them.

    All three patterns have the shape `^ \s* (#+\s*)? (word|word|...) \s* $` with the `i` flag;
    some leave out the leading `\s*` or the hash group, and the ones with the `m` flag let `^`
    and `$` anchor at every line terminator. Case-insensitive matching of a non-unicode
    pattern folds ASCII letters only, so a word matches where the text lower-cases to it.

    A backtracking engine tries every greedy `\s*` and `#+` longest first. Only the longest
    choice can ever succeed, because each of them is followed by something that cannot start
    with the character they stopped at (the hash group must start with `#`, every word starts
    with a letter), so `MatchAt` takes the longest runs directly and tries the words in order;
    `MatchAtSound` and `MatchAtComplete` check it against the pattern read declaratively. */
module HeadingPattern {
  import opened Wrappers
  import opened Text

  /** A heading word: lower-case ASCII letters and single spaces, starting and ending with a
      letter. */
  predicate WordShaped(w: string) {
    && |w| > 0 && IsAsciiLower(w[0]) && IsAsciiLower(w[|w| - 1])
    && forall k :: 0 <= k < |w| ==> IsAsciiLower(w[k]) || w[k] == ' '
  }

  type Words = ws: seq<string> | forall w :: w in ws ==> WordShaped(w)

  /** A pattern: its alternatives in order, whether it has the `(#+\s*)?` group, whether it
      starts with `\s*`, and whether it has the `m` flag. */
  datatype Pattern = Pattern(words: Words, hashes: bool, leadSpace: bool, multiline: bool)

  /** The label lines a greeting reply tends to open with. */
  const GreetingWords: Words := ["friendly greeting", "greeting response"]
  const OpeningWords: Words := ["introduction", "purpose"]
  const ClosingWords: Words := ["actionable items", "conclusion"]
  /** The section titles the general chat mode does not want, in the patterns' order. */
  const SectionWords: Words := GreetingWords + OpeningWords + ClosingWords

  /** The server's test of the trimmed first line: `^(#+\s*)?(...six words...)\s*$`, flag `i`. */
  const FirstLineLabel := Pattern(SectionWords, true, false, false)
  /** The lambda's first pass: `^\s*(friendly greeting|greeting response)\s*$`, flags `gim`. */
  const GreetingLabel := Pattern(GreetingWords, false, true, true)
  /** Both variants' second pass: `^\s*(#+\s*)?(...six words...)\s*$`, flags `gim`. */
  const SectionHeading := Pattern(SectionWords, true, true, true)

  predicate SpaceBetween(s: string, a: int, b: int)
    requires 0 <= a && b <= |s|
  {
    forall k :: a <= k < b ==> IsSpace(s[k])
  }

  predicate HashesBetween(s: string, a: int, b: int)
    requires 0 <= a && b <= |s|
  {
    forall k :: a <= k < b ==> s[k] == '#'
  }

  /** Where `^` can match: the start of the text, or (with `m`) just after a line terminator. */
  predicate LineStart(p: Pattern, s: string, i: nat) {
    i == 0 || (p.multiline && 0 < i <= |s| && IsLineTerminator(s[i - 1]))
  }

  /** Where `$` can match: the end of the text, or (with `m`) just before a line terminator. */
  predicate LineEnd(p: Pattern, s: string, i: nat) {
    i == |s| || (p.multiline && i < |s| && IsLineTerminator(s[i]))
  }

  /** The word `w` matches at `y`, ignoring the case of ASCII letters. */
  predicate WordAt(s: string, y: nat, w: string) {
    y + |w| <= |s| && Lower(s[y..y + |w|]) == w
  }

  /** The hash group matches `s[x..y]`: one or more `#`, then white space. */
  predicate HashGroup(s: string, x: nat, y: nat)
    requires x <= y <= |s|
  {
    exists h :: x < h <= y && HashesBetween(s, x, h) && SpaceBetween(s, h, y)
  }

  /** One way the pattern reads `s[i..q]`: `s[i..x]` is the leading white space (empty when
      the pattern has none), `s[x..y]` the hash group (empty when it is skipped), `w` the word
      at `y`, and white space after it up to `q`. */
  predicate Decomposes(p: Pattern, s: string, i: nat, x: nat, y: nat, w: string, q: nat) {
    && i <= x <= y && y + |w| <= q <= |s|
    && (if p.leadSpace then SpaceBetween(s, i, x) else x == i)
    && (x == y || (p.hashes && HashGroup(s, x, y)))
    && w in p.words && WordAt(s, y, w)
    && SpaceBetween(s, y + |w|, q)
  }

  /** The pattern, read declaratively, matches exactly `s[i..q]`. */
  ghost predicate Matches(p: Pattern, s: string, i: nat, q: nat) {
    && q <= |s| && LineStart(p, s, i) && LineEnd(p, s, q)
    && exists x, y, w :: Decomposes(p, s, i, x, y, w, q)
  }

  /** Length of the run of white space at `i`. */
  function SpaceRun(s: string, i: nat): (n: nat)
    requires i <= |s|
    ensures i + n <= |s| && SpaceBetween(s, i, i + n)
    ensures i + n < |s| ==> !IsSpace(s[i + n])
    decreases |s| - i
  {
    if i < |s| && IsSpace(s[i]) then 1 + SpaceRun(s, i + 1) else 0
  }

  /** Length of the run of `#` at `i`. */
  function HashRun(s: string, i: nat): (n: nat)
    requires i <= |s|
    ensures i + n <= |s| && HashesBetween(s, i, i + n)
    ensures i + n < |s| ==> s[i + n] != '#'
    decreases |s| - i
  {
    if i < |s| && s[i] == '#' then 1 + HashRun(s, i + 1) else 0
  }

  /** The last position `$` can match in `s[e..e + n]`: how far a greedy `\s*$` gets. */
  function LastLineEnd(p: Pattern, s: string, e: nat, n: nat): (r: Option<nat>)
    requires e + n <= |s|
    ensures r.Some? ==> e <= r.value <= e + n && LineEnd(p, s, r.value)
    ensures r.Some? ==> forall k :: r.value < k <= e + n ==> !LineEnd(p, s, k)
    ensures r.None? ==> forall k :: e <= k <= e + n ==> !LineEnd(p, s, k)
    decreases n
  {
    if LineEnd(p, s, e + n) then Some(e + n)
    else if n == 0 then None
    else LastLineEnd(p, s, e, n - 1)
  }

  /** A word the alternation accepted and where the whole match ends. */
  datatype Hit = Hit(word: string, end: nat)

  /** The alternation at `y`: the first of `words` that matches there and after which
      `\s*$` can match. */
  function TryWords(p: Pattern, words: seq<string>, s: string, y: nat): (r: Option<Hit>)
    requires y <= |s|
    ensures r.Some? ==> r.value.word in words && WordAt(s, y, r.value.word)
    ensures r.Some? ==> var e := y + |r.value.word|;
      e <= r.value.end <= e + SpaceRun(s, e) && LineEnd(p, s, r.value.end)
    decreases |words|
  {
    if words == [] then None
    else
      var w := words[0];
      if WordAt(s, y, w) && LastLineEnd(p, s, y + |w|, SpaceRun(s, y + |w|)).Some? then
        Some(Hit(w, LastLineEnd(p, s, y + |w|, SpaceRun(s, y + |w|)).value))
      else TryWords(p, words[1..], s, y)
  }

  /** Where the hash group may start: after the leading white space, if the pattern has any. */
  function GroupStart(p: Pattern, s: string, i: nat): (x: nat)
    requires i <= |s|
    ensures i <= x <= |s|
  {
    if p.leadSpace then i + SpaceRun(s, i) else i
  }

  /** Where the alternation is tried: after the hash group when the pattern has one and a `#`
      is there, otherwise right at `x`. */
  function WordStart(p: Pattern, s: string, x: nat): (y: nat)
    requires x <= |s|
    ensures x <= y <= |s|
  {
    if p.hashes && x < |s| && s[x] == '#' then
      var h := x + HashRun(s, x);
      h + SpaceRun(s, h)
    else x
  }

  /** The match the engine reports at `i`, given by where it ends. */
  function MatchAt(p: Pattern, s: string, i: nat): (r: Option<nat>)
    requires i <= |s|
    ensures r.Some? ==> i < r.value && Matches(p, s, i, r.value)
  {
    if !LineStart(p, s, i) then None
    else
      var hit := TryWords(p, p.words, s, WordStart(p, s, GroupStart(p, s, i)));
      if hit.None? then None
      else
        MatchAtSound(p, s, i);
        Some(hit.value.end)
  }

  /** The engine's match is a reading of the pattern. */
  lemma MatchAtSound(p: Pattern, s: string, i: nat)
    requires i <= |s| && LineStart(p, s, i)
    requires TryWords(p, p.words, s, WordStart(p, s, GroupStart(p, s, i))).Some?
    ensures var hit := TryWords(p, p.words, s, WordStart(p, s, GroupStart(p, s, i))).value;
      i < hit.end && Matches(p, s, i, hit.end)
  {
    var x := GroupStart(p, s, i);
    var y := WordStart(p, s, x);
    var hit := TryWords(p, p.words, s, y).value;
    if y != x {
      var h := x + HashRun(s, x);
      assert HashesBetween(s, x, h) && SpaceBetween(s, h, y);
      assert HashGroup(s, x, y);
    }
    assert |hit.word| > 0;
    assert Decomposes(p, s, i, x, y, hit.word, hit.end);
  }

  /** A run of white space from `i` to `j` that stops at `j` is what `SpaceRun` measures. */
  lemma SpaceRunIs(s: string, i: nat, j: nat)
    requires i <= j <= |s| && SpaceBetween(s, i, j) && (j < |s| ==> !IsSpace(s[j]))
    ensures SpaceRun(s, i) == j - i
    decreases j - i
  {
    if i < j {
      SpaceRunIs(s, i + 1, j);
    }
  }

  /** Every position inside a run of white space sees the same end of the run. */
  lemma SpaceRunInside(s: string, i: nat, c: nat)
    requires i <= |s| && i <= c <= i + SpaceRun(s, i)
    ensures c + SpaceRun(s, c) == i + SpaceRun(s, i)
  {
    SpaceRunIs(s, c, i + SpaceRun(s, i));
  }

  /** A run of white space from `i` to `j` lies within the run `SpaceRun` measures. */
  lemma SpaceRunCovers(s: string, i: nat, j: nat)
    requires i <= j <= |s| && SpaceBetween(s, i, j)
    ensures j <= i + SpaceRun(s, i)
    decreases j - i
  {
    if i < j {
      SpaceRunCovers(s, i + 1, j);
    }
  }

  lemma HashRunIs(s: string, i: nat, j: nat)
    requires i <= j <= |s| && HashesBetween(s, i, j) && (j < |s| ==> s[j] != '#')
    ensures HashRun(s, i) == j - i
    decreases j - i
  {
    if i < j {
      HashRunIs(s, i + 1, j);
    }
  }

  /** The characters a heading word matches are ASCII letters and spaces: no line terminator
      and no `#` among them, and the first one is a letter. */
  lemma WordChars(s: string, y: nat, w: string)
    requires WordShaped(w) && WordAt(s, y, w)
    ensures forall k :: y <= k < y + |w| ==> !IsLineTerminator(s[k]) && s[k] != '#'
    ensures IsAsciiLetter(s[y])
  {
    forall k | y <= k < y + |w| ensures !IsLineTerminator(s[k]) && s[k] != '#' {
      assert LowerChar(s[k]) == w[k - y];
    }
    assert LowerChar(s[y]) == w[0];
  }

  /** Any reading of the pattern uses the white-space and hash runs the engine takes. */
  lemma EngineStart(p: Pattern, s: string, i: nat, x: nat, y: nat, w: string, q: nat)
    requires Decomposes(p, s, i, x, y, w, q)
    ensures GroupStart(p, s, i) == x && WordStart(p, s, x) == y
  {
    WordChars(s, y, w);
    if x != y {
      var h :| x < h <= y && HashesBetween(s, x, h) && SpaceBetween(s, h, y);
      assert s[x] == '#';
      HashRunIs(s, x, h);
      SpaceRunIs(s, h, y);
    }
    if p.leadSpace {
      SpaceRunIs(s, i, x);
    }
  }

  /** The alternation succeeds whenever one of its words matches with a line end reachable
      over white space after it. */
  lemma {:induction false} TryWordsFinds(p: Pattern, words: seq<string>, s: string, y: nat, w: string, q: nat)
    requires w in words && WordAt(s, y, w) && y + |w| <= q <= |s|
    requires SpaceBetween(s, y + |w|, q) && LineEnd(p, s, q)
    ensures TryWords(p, words, s, y).Some?
    decreases |words|
  {
    var e := y + |w|;
    if words[0] == w {
      SpaceRunCovers(s, e, q);
      assert LastLineEnd(p, s, e, SpaceRun(s, e)).Some?;
    } else {
      TryWordsFinds(p, words[1..], s, y, w, q);
    }
  }

  /** Wherever the pattern can be read, the engine reports a match. */
  lemma MatchAtComplete(p: Pattern, s: string, i: nat, q: nat)
    requires Matches(p, s, i, q)
    ensures MatchAt(p, s, i).Some?
  {
    var x, y, w :| Decomposes(p, s, i, x, y, w, q);
    EngineStart(p, s, i, x, y, w, q);
    TryWordsFinds(p, p.words, s, y, w, q);
  }

  /** Spans `[m, n)` in increasing order, none empty, none overlapping, all within
      `[lo, hi]`. */
  predicate Ordered(ms: seq<(nat, nat)>, lo: nat, hi: nat)
    decreases |ms|
  {
    ms == [] || (lo <= ms[0].0 < ms[0].1 <= hi && Ordered(ms[1..], ms[0].1, hi))
  }

  /** Spans ordered from `lo` on are also ordered from any earlier start. */
  lemma OrderedFrom(ms: seq<(nat, nat)>, lo: nat, hi: nat, lo': nat)
    requires Ordered(ms, lo, hi) && lo' <= lo
    ensures Ordered(ms, lo', hi)
  {
  }

  /** Position `j` lies inside one of the spans. */
  predicate Covered(ms: seq<(nat, nat)>, j: nat) {
    exists k :: 0 <= k < |ms| && ms[k].0 <= j < ms[k].1
  }

  /** The matches a global `replace` finds from `i` on: it tries every position in turn, and
      after a match it carries on where the match ended. Each span is a match of the pattern,
      and no position outside the spans starts one. */
  function MatchSpans(p: Pattern, s: string, i: nat): (ms: seq<(nat, nat)>)
    requires i <= |s|
    ensures Ordered(ms, i, |s|)
    ensures forall k :: 0 <= k < |ms| ==> Matches(p, s, ms[k].0, ms[k].1)
    ensures forall j :: i <= j < |s| && !Covered(ms, j) ==> MatchAt(p, s, j).None?
    decreases |s| - i
  {
    if i == |s| then []
    else
      var m := MatchAt(p, s, i);
      if m.Some? then
        var rest := MatchSpans(p, s, m.value);
        SpansCons(p, s, i, m.value, rest);
        [(i, m.value)] + rest
      else
        var rest := MatchSpans(p, s, i + 1);
        SpansSkip(p, s, i, rest);
        rest
  }

  /** A match at `i` followed by the spans found after it. */
  lemma SpansCons(p: Pattern, s: string, i: nat, n: nat, rest: seq<(nat, nat)>)
    requires i < n <= |s| && Matches(p, s, i, n)
    requires Ordered(rest, n, |s|)
    requires forall k :: 0 <= k < |rest| ==> Matches(p, s, rest[k].0, rest[k].1)
    requires forall j :: n <= j < |s| && !Covered(rest, j) ==> MatchAt(p, s, j).None?
    ensures var ms := [(i, n)] + rest;
      && Ordered(ms, i, |s|)
      && (forall k :: 0 <= k < |ms| ==> Matches(p, s, ms[k].0, ms[k].1))
      && (forall j :: i <= j < |s| && !Covered(ms, j) ==> MatchAt(p, s, j).None?)
  {
    var ms := [(i, n)] + rest;
    assert ms[1..] == rest;
    SpansConsMatch(p, s, i, n, rest);
    ShiftCovered(ms, rest, i, n);
  }

  lemma SpansConsMatch(p: Pattern, s: string, i: nat, n: nat, rest: seq<(nat, nat)>)
    requires Matches(p, s, i, n)
    requires forall k :: 0 <= k < |rest| ==> Matches(p, s, rest[k].0, rest[k].1)
    ensures var ms := [(i, n)] + rest; forall k :: 0 <= k < |ms| ==> Matches(p, s, ms[k].0, ms[k].1)
  {
    var ms := [(i, n)] + rest;
    forall k | 0 <= k < |ms| ensures Matches(p, s, ms[k].0, ms[k].1) {
      if k > 0 {
        assert ms[k] == rest[k - 1];
      }
    }
  }

  /** Prepending a span keeps the positions the rest covers covered. */
  lemma ShiftCovered(ms: seq<(nat, nat)>, rest: seq<(nat, nat)>, i: nat, n: nat)
    requires ms == [(i, n)] + rest
    ensures forall j :: Covered(rest, j) ==> Covered(ms, j)
    ensures forall j :: i <= j < n ==> Covered(ms, j)
  {
    forall j | Covered(rest, j) ensures Covered(ms, j) {
      var k :| 0 <= k < |rest| && rest[k].0 <= j < rest[k].1;
      assert ms[k + 1] == rest[k];
    }
    forall j | i <= j < n ensures Covered(ms, j) {
      assert ms[0] == (i, n);
    }
  }

  /** No match at `i`: the spans are those found from `i + 1`. */
  lemma SpansSkip(p: Pattern, s: string, i: nat, rest: seq<(nat, nat)>)
    requires i < |s| && MatchAt(p, s, i).None?
    requires Ordered(rest, i + 1, |s|)
    requires forall j :: i + 1 <= j < |s| && !Covered(rest, j) ==> MatchAt(p, s, j).None?
    ensures Ordered(rest, i, |s|)
    ensures forall j :: i <= j < |s| && !Covered(rest, j) ==> MatchAt(p, s, j).None?
  {
    OrderedFrom(rest, i + 1, |s|, i);
  }

  /** The text outside the spans, in order. */
  function Outside(s: string, i: nat, ms: seq<(nat, nat)>): string
    requires i <= |s| && Ordered(ms, i, |s|)
    decreases |ms|
  {
    if ms == [] then s[i..]
    else
      s[i..ms[0].0] + Outside(s, ms[0].1, ms[1..])
  }

  /** `s.replace(pattern, "")` with the global flag: every match removed. */
  function RemoveMatches(p: Pattern, s: string): string {
    Outside(s, 0, MatchSpans(p, s, 0))
  }

  /** `s[a..b]` is one whole line: it starts where `^` can match, ends where `$` can match, and
      holds no line terminator. */
  predicate WholeLine(p: Pattern, s: string, a: nat, b: nat) {
    && a <= b <= |s| && LineStart(p, s, a) && LineEnd(p, s, b)
    && forall k :: a <= k < b ==> !IsLineTerminator(s[k])
  }

  /** Every line the pattern matches on its own is removed in full: it lies inside one of
      the spans a global `replace` finds, even when an earlier match swallowed its start. */
  lemma HeadingLinesRemoved(p: Pattern, s: string, a: nat, b: nat)
    requires WholeLine(p, s, a, b) && Matches(p, s, a, b)
    ensures Holds(MatchSpans(p, s, 0), a, b)
  {
    LineCovered(p, s, 0, a, b);
  }

  /** A span of `ms` holds the whole of `s[a..b]`. */
  predicate Holds(ms: seq<(nat, nat)>, a: nat, b: nat) {
    exists k :: 0 <= k < |ms| && ms[k].0 <= a && b <= ms[k].1
  }

  lemma {:induction false} LineCovered(p: Pattern, s: string, i: nat, a: nat, b: nat)
    requires i <= a && WholeLine(p, s, a, b) && Matches(p, s, a, b)
    ensures Holds(MatchSpans(p, s, i), a, b)
    decreases |s| - i
  {
    var m := MatchAt(p, s, i);
    if m.Some? {
      if m.value <= a {
        LineCovered(p, s, m.value, a, b);
        HoldsCons(MatchSpans(p, s, m.value), i, m.value, a, b);
      } else {
        MatchReachesLineEnd(p, s, i, a, b);
        HoldsCons(MatchSpans(p, s, m.value), i, m.value, a, b);
      }
    } else {
      NoMatchHere(p, s, i, a, b);
      LineCovered(p, s, i + 1, a, b);
    }
  }

  /** With no match at `i`, the line does not start at `i` and the scan moves on. */
  lemma NoMatchHere(p: Pattern, s: string, i: nat, a: nat, b: nat)
    requires i <= a && WholeLine(p, s, a, b) && Matches(p, s, a, b) && MatchAt(p, s, i).None?
    ensures i < a && MatchSpans(p, s, i) == MatchSpans(p, s, i + 1)
  {
    if i == a {
      MatchAtComplete(p, s, a, b);
    }
  }

  /** Prepending the span `[i, n)` keeps what the rest holds, and holds whatever it spans. */
  lemma HoldsCons(rest: seq<(nat, nat)>, i: nat, n: nat, a: nat, b: nat)
    requires Holds(rest, a, b) || (i <= a && b <= n)
    ensures Holds([(i, n)] + rest, a, b)
  {
    var ms := [(i, n)] + rest;
    if i <= a && b <= n {
      assert ms[0] == (i, n);
    } else {
      var k :| 0 <= k < |rest| && rest[k].0 <= a && b <= rest[k].1;
      assert ms[k + 1] == rest[k];
    }
  }

  /** A match that starts at or before a matching line and reaches into it runs to the end
      of that line. */
  lemma MatchReachesLineEnd(p: Pattern, s: string, i: nat, a: nat, b: nat)
    requires i <= a && WholeLine(p, s, a, b) && Matches(p, s, a, b)
    requires MatchAt(p, s, i).Some? && a < MatchAt(p, s, i).value
    ensures b <= MatchAt(p, s, i).value
  {
    var y := WordStart(p, s, GroupStart(p, s, i));
    var hit := TryWords(p, p.words, s, y).value;
    WordInLine(p, s, i, a, b);
    WordChars(s, y, hit.word);
    LineInterior(p, s, a, b);
  }

  /** No position strictly inside a line is one where `$` can match. */
  lemma LineInterior(p: Pattern, s: string, a: nat, b: nat)
    requires WholeLine(p, s, a, b)
    ensures forall k :: a <= k < b ==> !LineEnd(p, s, k)
  {
  }

  /** The word of a match that reaches into a matching line starts inside that line. */
  lemma WordInLine(p: Pattern, s: string, i: nat, a: nat, b: nat)
    requires i <= a && WholeLine(p, s, a, b) && Matches(p, s, a, b)
    requires MatchAt(p, s, i).Some? && a < MatchAt(p, s, i).value
    ensures a <= WordStart(p, s, GroupStart(p, s, i)) < b
  {
    var xd, yd, wd :| Decomposes(p, s, a, xd, yd, wd, b);
    EngineStart(p, s, a, xd, yd, wd, b);
    if i < a {
      EarlierWordInLine(p, s, i, a, b, xd, yd, wd);
    }
  }

  lemma EarlierWordInLine(p: Pattern, s: string, i: nat, a: nat, b: nat, xd: nat, yd: nat, wd: string)
    requires i < a && WholeLine(p, s, a, b) && Decomposes(p, s, a, xd, yd, wd, b)
    requires GroupStart(p, s, a) == xd && WordStart(p, s, xd) == yd
    requires MatchAt(p, s, i).Some? && a < MatchAt(p, s, i).value
    ensures a <= WordStart(p, s, GroupStart(p, s, i)) < b
  {
    WordChars(s, yd, wd);
    SpaceRunStops(s, a, yd);
    TerminatorBeforeWord(p, s, i, a, b);
    EarlierMatch(p, s, i, a, b, xd);
  }

  /** A match that starts on an earlier line and tries its word after the line terminator in
      front of line `a` crossed that terminator in white space, and so tries its word where the
      line's own match would, or right after the line's leading white space. */
  lemma EarlierMatch(p: Pattern, s: string, i: nat, a: nat, b: nat, xa: nat)
    requires i < a && WholeLine(p, s, a, b) && p.multiline
    requires xa == GroupStart(p, s, a) && a + SpaceRun(s, a) < b && WordStart(p, s, xa) < b
    requires a - 1 < WordStart(p, s, GroupStart(p, s, i))
    ensures var y := WordStart(p, s, GroupStart(p, s, i));
      y == WordStart(p, s, xa) || y == a + SpaceRun(s, a)
  {
    var x := GroupStart(p, s, i);
    if a - 1 < x {
      LeadGap(p, s, i, a - 1);
    } else {
      HashGap(p, s, x, a - 1);
    }
  }

  /** White space at `c` inside the leading white space of a match at `i` runs on to where
      the hash group is tried. */
  lemma LeadGap(p: Pattern, s: string, i: nat, c: nat)
    requires i <= |s| && i <= c < GroupStart(p, s, i) && IsSpace(s[c])
    ensures GroupStart(p, s, i) == GroupStart(p, s, c + 1)
  {
    SpaceRunInside(s, i, c);
    SpaceRunStep(s, c);
  }

  /** The line terminator in front of line `a` comes before the word of a match that starts
      earlier and reaches into the line: neither the word nor the white space after it can
      hold it. */
  lemma TerminatorBeforeWord(p: Pattern, s: string, i: nat, a: nat, b: nat)
    requires i < a && WholeLine(p, s, a, b) && p.multiline && a + SpaceRun(s, a) < b
    requires MatchAt(p, s, i).Some? && a < MatchAt(p, s, i).value
    ensures a - 1 < WordStart(p, s, GroupStart(p, s, i))
  {
    var y := WordStart(p, s, GroupStart(p, s, i));
    var hit := TryWords(p, p.words, s, y).value;
    WordChars(s, y, hit.word);
    TrailStops(p, s, a, b, y + |hit.word|, MatchAt(p, s, i).value);
  }

  /** A line terminator between the hash group's start and the word lies in the white space
      after the hashes, and that white space runs on to the word. */
  lemma HashGap(p: Pattern, s: string, x: nat, c: nat)
    requires x <= |s| && x <= c < WordStart(p, s, x) && IsLineTerminator(s[c])
    ensures c + 1 + SpaceRun(s, c + 1) == WordStart(p, s, x)
  {
    var h := x + HashRun(s, x);
    SpaceRunInside(s, h, c);
    SpaceRunStep(s, c);
  }

  /** White space at `c` extends the run that starts right after it. */
  lemma SpaceRunStep(s: string, c: nat)
    requires c < |s| && IsSpace(s[c])
    ensures SpaceRun(s, c) == 1 + SpaceRun(s, c + 1)
  {
  }

  /** A run of white space stops at the first character that is not white space. */
  lemma SpaceRunStops(s: string, i: nat, j: nat)
    requires i <= j < |s| && !IsSpace(s[j])
    ensures i + SpaceRun(s, i) <= j
    decreases j - i
  {
    if i < j && IsSpace(s[i]) {
      SpaceRunStops(s, i + 1, j);
    }
  }

  /** White space after a word, followed by a line terminator and then a line whose first
      visible character is at `a + SpaceRun(s, a) < b`, offers no place for `$` past the
      terminator: a match ending at `n` within that white space ends before the line. */
  lemma TrailStops(p: Pattern, s: string, a: nat, b: nat, e: nat, n: nat)
    requires 0 < a && WholeLine(p, s, a, b) && IsSpace(s[a - 1]) && a + SpaceRun(s, a) < b
    requires e <= |s| && e <= n <= e + SpaceRun(s, e) && LineEnd(p, s, n)
    ensures e <= a - 1 ==> n <= a - 1
  {
    if e <= a - 1 < e + SpaceRun(s, e) {
      SpaceRunInside(s, e, a - 1);
      SpaceRunStep(s, a - 1);
      LineInterior(p, s, a, b);
    }
  }

  /** A text in which no heading word occurs anywhere, in any letter case, comes out of a
      global `replace` unchanged. */
  lemma NoWordNoChange(p: Pattern, s: string)
    requires forall y, w :: 0 <= y <= |s| && w in p.words ==> !WordAt(s, y, w)
    ensures RemoveMatches(p, s) == s
  {
    NoWordNoSpans(p, s, 0);
  }

  lemma {:induction false} NoWordNoSpans(p: Pattern, s: string, i: nat)
    requires i <= |s|
    requires forall y, w :: 0 <= y <= |s| && w in p.words ==> !WordAt(s, y, w)
    ensures MatchSpans(p, s, i) == []
    decreases |s| - i
  {
    if i < |s| {
      NoWordNoSpans(p, s, i + 1);
    }
  }
}
