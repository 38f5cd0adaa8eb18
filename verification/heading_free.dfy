/** What a global `replace` of the section-heading pattern leaves behind: the pattern matches
    nowhere in it any more, and neither collapsing runs of line feeds nor trimming brings a
    match back. This is what makes the general-chat cleanups idempotent.

    The argument goes line by line. Every match implies one covering exactly the line its word
    is on (`MatchOnLine`). Each of the three steps copies every line of its result, character
    for character, from a whole line of its input (`Embeds`, `LineTransfer`, `TrimMatch`), and a
    whole line that matches in the input lies inside one of the removed spans
    (`HeadingLinesRemoved`), so nothing the removal kept can match. */
module HeadingFree {
  import opened Text
  import opened HeadingPattern

  /** The pattern matches nowhere in `u`. */
  ghost predicate MatchFree(p: Pattern, u: string) {
    forall i, q :: !Matches(p, u, i, q)
  }

  // ---------------------------------------------------------------------------------------
  // A match implies a match on one line

  /** Start of the line that holds position `y`. */
  function LineBegin(u: string, y: nat): (j: nat)
    requires y <= |u|
    ensures j <= y && (j == 0 || IsLineTerminator(u[j - 1]))
    ensures forall k :: j <= k < y ==> !IsLineTerminator(u[k])
    decreases y
  {
    if y == 0 || IsLineTerminator(u[y - 1]) then y else LineBegin(u, y - 1)
  }

  /** End of the line that holds position `e`. */
  function LineFinish(u: string, e: nat): (j: nat)
    requires e <= |u|
    ensures e <= j <= |u| && (j == |u| || IsLineTerminator(u[j]))
    ensures forall k :: e <= k < j ==> !IsLineTerminator(u[k])
    decreases |u| - e
  {
    if e == |u| || IsLineTerminator(u[e]) then e else LineFinish(u, e + 1)
  }

  /** A line starting at `i`, before `y`, is the line of `y` or an earlier one. */
  lemma LineBeginAfter(u: string, i: nat, y: nat)
    requires i <= y <= |u| && (i == 0 || IsLineTerminator(u[i - 1]))
    ensures i <= LineBegin(u, y)
  {
  }

  /** A run of hashes that starts before the line of `y` ends before it. */
  lemma HashesInLine(u: string, x: nat, h: nat, y: nat)
    requires x <= h <= y <= |u| && HashesBetween(u, x, h)
    ensures x < LineBegin(u, y) ==> h < LineBegin(u, y)
  {
    var a := LineBegin(u, y);
    if x < a {
      assert IsLineTerminator(u[a - 1]);
    }
  }

  /** A multiline match with leading white space may stretch over several lines, but the line
      its word is on matches by itself: the white space and hashes in front of the word on that
      line, and the white space after it, are what the pattern allows there. */
  lemma MatchOnLine(p: Pattern, u: string, i: nat, q: nat) returns (a: nat, b: nat)
    requires p.multiline && p.leadSpace && Matches(p, u, i, q)
    ensures a < b && WholeLine(p, u, a, b) && Matches(p, u, a, b)
  {
    var x: nat, y: nat, w: string :| Decomposes(p, u, i, x, y, w, q);
    assert w in p.words;
    WordChars(u, y, w);
    var e := y + |w|;
    a := LineBegin(u, y);
    b := LineFinish(u, e);
    assert b <= q by {
      if q < |u| {
        assert IsLineTerminator(u[q]);
      }
    }
    LineBeginAfter(u, i, y);
    var x' := if a <= x then x else y;
    if x < a {
      var h: nat :| x < h <= y && HashesBetween(u, x, h) && SpaceBetween(u, h, y);
      HashesInLine(u, x, h, y);
    }
    assert Decomposes(p, u, a, x', y, w, b);
  }

  /** A reading of the pattern carries over to a copy of the text it reads, shifted by `d`,
      and stretches over white space the copy has on either side. */
  lemma DecomposesMove(p: Pattern, c: string, u: string, i: nat, x: nat, y: nat, w: string, q: nat,
                       d: int, i0: nat, q0: nat)
    requires p.leadSpace && Decomposes(p, c, i, x, y, w, q)
    requires 0 <= i + d && q + d <= q0 <= |u| && i0 <= i + d
    requires forall k :: i <= k < q ==> u[k + d] == c[k]
    requires SpaceBetween(u, i0, i + d) && SpaceBetween(u, q + d, q0)
    ensures Decomposes(p, u, i0, x + d, y + d, w, q0)
  {
    var e := y + |w|;
    SpaceMoves(c, u, i, x, d);
    SpacesJoin(u, i0, i + d, x + d);
    if x != y {
      HashGroupMoves(c, u, x, y, d);
    }
    WordMoves(c, u, y, w, d);
    SpaceMoves(c, u, e, q, d);
    SpacesJoin(u, e + d, q + d, q0);
  }

  lemma SpaceMoves(c: string, u: string, a: nat, b: nat, d: int)
    requires a <= b <= |c| && 0 <= a + d && b + d <= |u| && SpaceBetween(c, a, b)
    requires forall k :: a <= k < b ==> u[k + d] == c[k]
    ensures SpaceBetween(u, a + d, b + d)
  {
    forall k | a + d <= k < b + d ensures IsSpace(u[k]) {
      assert u[(k - d) + d] == c[k - d];
    }
  }

  lemma SpacesJoin(u: string, a: nat, b: nat, e: nat)
    requires a <= b <= e <= |u| && SpaceBetween(u, a, b) && SpaceBetween(u, b, e)
    ensures SpaceBetween(u, a, e)
  {
  }

  lemma HashGroupMoves(c: string, u: string, x: nat, y: nat, d: int)
    requires x <= y <= |c| && 0 <= x + d && y + d <= |u| && HashGroup(c, x, y)
    requires forall k :: x <= k < y ==> u[k + d] == c[k]
    ensures HashGroup(u, x + d, y + d)
  {
    var h: nat :| x < h <= y && HashesBetween(c, x, h) && SpaceBetween(c, h, y);
    forall k | x + d <= k < h + d ensures u[k] == '#' {
      assert u[(k - d) + d] == c[k - d];
    }
    SpaceMoves(c, u, h, y, d);
    assert x + d < h + d <= y + d && HashesBetween(u, x + d, h + d) && SpaceBetween(u, h + d, y + d);
  }

  lemma WordMoves(c: string, u: string, y: nat, w: string, d: int)
    requires WordAt(c, y, w) && 0 <= y + d && y + d + |w| <= |u|
    requires forall k :: y <= k < y + |w| ==> u[k + d] == c[k]
    ensures WordAt(u, y + d, w)
  {
    var cw, uw := c[y..y + |w|], u[y + d..y + d + |w|];
    forall k | 0 <= k < |w| ensures uw[k] == cw[k] {
      assert u[(y + k) + d] == c[y + k];
    }
    assert uw == cw;
  }

  // ---------------------------------------------------------------------------------------
  // Texts copied line by line

  /** Positions `j < k` of `u` copied next to each other: adjacent in `u`, or `j` holds a line
      terminator and `k` either holds one or comes right after one. */
  predicate Joined(u: string, j: nat, k: nat) {
    || k == j + 1
    || (j < |u| && 0 < k < |u| && IsLineTerminator(u[j])
        && (IsLineTerminator(u[k]) || IsLineTerminator(u[k - 1])))
  }

  predicate StepJoined(u: string, K: seq<nat>, k: nat)
    requires k + 1 < |K|
  {
    K[k] < K[k + 1] && Joined(u, K[k], K[k + 1])
  }

  /** `c` is copied from `u[lo..hi]`, its character `k` from position `K[k]`, in order, and
      gaps open only at line terminators: every line of `c` is a whole line of `u`. */
  predicate Embeds(u: string, lo: nat, hi: nat, c: string, K: seq<nat>) {
    && lo <= hi <= |u| && |K| == |c|
    && (forall k :: 0 <= k < |K| ==> lo <= K[k] < hi && u[K[k]] == c[k])
    && (forall k :: 0 <= k < |K| - 1 ==> StepJoined(u, K, k))
    && (|K| > 0 ==> K[0] == lo || IsLineTerminator(u[K[0]]) || IsLineTerminator(u[K[0] - 1]))
    && (|K| > 0 ==> K[|K| - 1] == hi - 1 || IsLineTerminator(u[K[|K| - 1]]))
  }

  function Range(a: nat, b: nat): (K: seq<nat>)
    requires a <= b
    ensures |K| == b - a && forall k :: 0 <= k < |K| ==> K[k] == a + k
  {
    seq(b - a, k requires 0 <= k < b - a => a + k)
  }

  function Shift(K: seq<nat>, d: nat): (L: seq<nat>)
    ensures |L| == |K| && forall k :: 0 <= k < |K| ==> L[k] == K[k] + d
  {
    seq(|K|, k requires 0 <= k < |K| => K[k] + d)
  }

  /** A part of a text is copied from it in place. */
  lemma RangeEmbeds(u: string, a: nat, b: nat)
    requires a <= b <= |u|
    ensures Embeds(u, a, b, u[a..b], Range(a, b))
  {
    var K := Range(a, b);
    forall k | 0 <= k < |K| - 1 ensures StepJoined(u, K, k) {
    }
  }

  /** A copy from a suffix of a text is a copy from the text, shifted. */
  lemma ShiftEmbeds(s: string, d: nat, c: string, K: seq<nat>)
    requires d <= |s| && Embeds(s[d..], 0, |s| - d, c, K)
    ensures Embeds(s, d, |s|, c, Shift(K, d))
  {
    var v, L := s[d..], Shift(K, d);
    forall k | 0 <= k < |L| ensures d <= L[k] < |s| && s[L[k]] == c[k] {
      assert v[K[k]] == s[L[k]];
    }
    forall k | 0 <= k < |L| - 1 ensures StepJoined(s, L, k) {
      assert StepJoined(v, K, k);
      assert v[K[k]] == s[L[k]] && v[K[k + 1]] == s[L[k + 1]];
      if K[k + 1] != K[k] + 1 {
        assert v[K[k + 1] - 1] == s[L[k + 1] - 1];
      }
    }
    if |K| > 0 {
      assert v[K[0]] == s[L[0]];
      if K[0] != 0 {
        assert v[K[0] - 1] == s[L[0] - 1];
      }
      assert v[K[|K| - 1]] == s[L[|L| - 1]];
    }
  }

  /** Two copies from consecutive windows of a text, joined where the second one starts,
      form one copy. */
  lemma EmbedsAppend(u: string, lo: nat, mid: nat, hi: nat, c1: string, K1: seq<nat>,
                     mid': nat, c2: string, K2: seq<nat>)
    requires Embeds(u, lo, mid, c1, K1) && Embeds(u, mid', hi, c2, K2) && mid <= mid'
    requires K1 != [] && K2 != [] ==> Joined(u, K1[|K1| - 1], K2[0])
    requires K1 == [] && K2 != [] ==>
      K2[0] == lo || IsLineTerminator(u[K2[0]]) || IsLineTerminator(u[K2[0] - 1])
    requires K1 != [] && K2 == [] ==> K1[|K1| - 1] == hi - 1 || IsLineTerminator(u[K1[|K1| - 1]])
    ensures Embeds(u, lo, hi, c1 + c2, K1 + K2)
  {
    AppendCopies(u, lo, mid, hi, c1, K1, mid', c2, K2);
    AppendSteps(u, lo, mid, hi, c1, K1, mid', c2, K2);
    var K := K1 + K2;
    if K1 == [] && K2 != [] {
      assert K[0] == K2[0];
    }
    if K2 == [] {
      assert K == K1;
    } else {
      assert K[|K| - 1] == K2[|K2| - 1];
    }
  }

  lemma AppendCopies(u: string, lo: nat, mid: nat, hi: nat, c1: string, K1: seq<nat>,
                     mid': nat, c2: string, K2: seq<nat>)
    requires Embeds(u, lo, mid, c1, K1) && Embeds(u, mid', hi, c2, K2) && mid <= mid'
    ensures var K, c := K1 + K2, c1 + c2;
      forall k :: 0 <= k < |K| ==> lo <= K[k] < hi && u[K[k]] == c[k]
  {
    var K, c, n := K1 + K2, c1 + c2, |K1|;
    forall k | 0 <= k < |K| ensures lo <= K[k] < hi && u[K[k]] == c[k] {
      if k >= n {
        assert K[k] == K2[k - n] && c[k] == c2[k - n];
      } else {
        assert K[k] == K1[k] && c[k] == c1[k];
      }
    }
  }

  lemma AppendSteps(u: string, lo: nat, mid: nat, hi: nat, c1: string, K1: seq<nat>,
                    mid': nat, c2: string, K2: seq<nat>)
    requires Embeds(u, lo, mid, c1, K1) && Embeds(u, mid', hi, c2, K2) && mid <= mid'
    requires K1 != [] && K2 != [] ==> Joined(u, K1[|K1| - 1], K2[0])
    ensures var K := K1 + K2; forall k :: 0 <= k < |K| - 1 ==> StepJoined(u, K, k)
  {
    var K, n := K1 + K2, |K1|;
    forall k | 0 <= k < |K| - 1 ensures StepJoined(u, K, k) {
      if k < n - 1 {
        assert StepJoined(u, K1, k);
        assert K[k] == K1[k] && K[k + 1] == K1[k + 1];
      } else if k >= n {
        assert StepJoined(u, K2, k - n);
        assert K[k] == K2[k - n] && K[k + 1] == K2[k + 1 - n];
      } else {
        assert K[k] == K1[n - 1] && K[k + 1] == K2[0];
      }
    }
  }

  /** Inside a line of the copy, the positions it was copied from are consecutive. */
  lemma {:induction false} Contiguous(u: string, c: string, K: seq<nat>, a: nat, b: nat, j: nat)
    requires Embeds(u, 0, |u|, c, K) && a <= a + j < b <= |c|
    requires forall k :: a <= k < b ==> !IsLineTerminator(c[k])
    ensures K[a + j] == K[a] + j
    decreases j
  {
    if j > 0 {
      Contiguous(u, c, K, a, b, j - 1);
      assert StepJoined(u, K, a + j - 1);
      assert !IsLineTerminator(u[K[a + j - 1]]);
    }
  }

  /** A whole line of the copy that matches was copied, in one piece, from a whole line of
      the original that matches. */
  lemma LineTransfer(p: Pattern, u: string, c: string, K: seq<nat>, a': nat, b': nat)
    requires p.multiline && p.leadSpace && Embeds(u, 0, |u|, c, K)
    requires a' < b' && WholeLine(p, c, a', b') && Matches(p, c, a', b')
    ensures K[a'] < K[b' - 1] + 1
    ensures WholeLine(p, u, K[a'], K[b' - 1] + 1) && Matches(p, u, K[a'], K[b' - 1] + 1)
  {
    var a, b := K[a'], K[b' - 1] + 1;
    LineCopied(p, u, c, K, a', b');
    LineEnds(p, u, c, K, a', b');
    forall k | a <= k < b ensures !IsLineTerminator(u[k]) {
      assert u[(k - (a - a')) + (a - a')] == c[k - (a - a')];
    }
    var x: nat, y: nat, w: string :| Decomposes(p, c, a', x, y, w, b');
    DecomposesMove(p, c, u, a', x, y, w, b', a - a', a, b);
  }

  /** The characters of a line of the copy sit side by side in the original. */
  lemma LineCopied(p: Pattern, u: string, c: string, K: seq<nat>, a': nat, b': nat)
    requires Embeds(u, 0, |u|, c, K) && a' < b' && WholeLine(p, c, a', b')
    ensures K[b' - 1] + 1 == K[a'] + (b' - a')
    ensures forall k :: a' <= k < b' ==> u[k + (K[a'] - a')] == c[k]
  {
    Contiguous(u, c, K, a', b', b' - 1 - a');
    forall k | a' <= k < b' ensures u[k + (K[a'] - a')] == c[k] {
      Contiguous(u, c, K, a', b', k - a');
    }
  }

  /** A line of the copy starts and ends in the original where lines start and end. */
  lemma LineEnds(p: Pattern, u: string, c: string, K: seq<nat>, a': nat, b': nat)
    requires p.multiline && Embeds(u, 0, |u|, c, K) && a' < b' && WholeLine(p, c, a', b')
    requires K[b' - 1] + 1 == K[a'] + (b' - a')
    ensures LineStart(p, u, K[a']) && LineEnd(p, u, K[b' - 1] + 1)
  {
    if a' > 0 {
      assert StepJoined(u, K, a' - 1);
      assert u[K[a' - 1]] == c[a' - 1];
    }
    if b' < |c| {
      assert StepJoined(u, K, b' - 1);
      assert u[K[b']] == c[b'];
    }
  }

  // ---------------------------------------------------------------------------------------
  // Removing the matches

  /** The spans start where `^` can match and end where `$` can. */
  predicate SpansOnLines(p: Pattern, s: string, ms: seq<(nat, nat)>) {
    forall k :: 0 <= k < |ms| ==> LineStart(p, s, ms[k].0) && LineEnd(p, s, ms[k].1)
  }

  /** The positions `Outside` keeps, in order. */
  ghost function Kept(s: string, i: nat, ms: seq<(nat, nat)>): seq<nat>
    requires i <= |s| && Ordered(ms, i, |s|)
    decreases |ms|
  {
    if ms == [] then Range(i, |s|) else Range(i, ms[0].0) + Kept(s, ms[0].1, ms[1..])
  }

  /** The text outside spans that begin and end at line boundaries is copied line by line. */
  lemma {:induction false} KeptEmbeds(p: Pattern, s: string, i: nat, ms: seq<(nat, nat)>)
    requires p.multiline && i <= |s| && Ordered(ms, i, |s|) && SpansOnLines(p, s, ms)
    ensures Embeds(s, i, |s|, Outside(s, i, ms), Kept(s, i, ms))
    decreases |ms|
  {
    if ms == [] {
      RangeEmbeds(s, i, |s|);
    } else {
      var m, n, rest := ms[0].0, ms[0].1, ms[1..];
      assert SpansOnLines(p, s, rest) by {
        forall k | 0 <= k < |rest| ensures LineStart(p, s, rest[k].0) && LineEnd(p, s, rest[k].1) {
          assert rest[k] == ms[k + 1];
        }
      }
      KeptEmbeds(p, s, n, rest);
      RangeEmbeds(s, i, m);
      var K2 := Kept(s, n, rest);
      assert LineStart(p, s, m) && LineEnd(p, s, n);
      if K2 != [] && K2[0] == n {
        assert IsLineTerminator(s[n]);
      }
      EmbedsAppend(s, i, m, |s|, s[i..m], Range(i, m), n, Outside(s, n, rest), K2);
    }
  }

  /** Ordered spans lie within their bounds, and all but the first lie after the first. */
  lemma {:induction false} OrderedBounds(ms: seq<(nat, nat)>, lo: nat, hi: nat)
    requires Ordered(ms, lo, hi)
    ensures forall j :: 0 <= j < |ms| ==> lo <= ms[j].0 < ms[j].1 <= hi
    decreases |ms|
  {
    if ms != [] {
      OrderedBounds(ms[1..], ms[0].1, hi);
      forall j | 1 <= j < |ms| ensures lo <= ms[j].0 < ms[j].1 <= hi {
        assert ms[j] == ms[1..][j - 1];
      }
    }
  }

  /** No kept position lies inside a span. */
  lemma {:induction false} KeptUncovered(s: string, i: nat, ms: seq<(nat, nat)>)
    requires i <= |s| && Ordered(ms, i, |s|)
    ensures Uncovered(ms, Kept(s, i, ms))
    decreases |ms|
  {
    if ms != [] {
      var m, n, rest := ms[0].0, ms[0].1, ms[1..];
      KeptUncovered(s, n, rest);
      OrderedBounds(rest, n, |s|);
      var K1, K2 := Range(i, m), Kept(s, n, rest);
      KeptAfter(s, n, rest);
      var K := K1 + K2;
      assert Kept(s, i, ms) == K;
      assert m < n;
      forall k, j | 0 <= k < |K| && 0 <= j < |ms| ensures !(ms[j].0 <= K[k] < ms[j].1) {
        if j > 0 {
          assert ms[j] == rest[j - 1];
          assert n <= ms[j].0;
        }
        if k >= |K1| {
          assert K[k] == K2[k - |K1|];
          assert n <= K[k];
          if j > 0 {
            assert Uncovered(rest, K2);
            assert !(rest[j - 1].0 <= K2[k - |K1|] < rest[j - 1].1);
          }
        } else {
          assert K[k] == K1[k] < m;
        }
      }
    }
  }

  /** Kept positions lie at or after where the scan starts. */
  lemma KeptAfter(s: string, i: nat, ms: seq<(nat, nat)>)
    requires i <= |s| && Ordered(ms, i, |s|)
    ensures forall k :: 0 <= k < |Kept(s, i, ms)| ==> i <= Kept(s, i, ms)[k] < |s|
    decreases |ms|
  {
    if ms != [] {
      KeptAfter(s, ms[0].1, ms[1..]);
      var K1, K2 := Range(i, ms[0].0), Kept(s, ms[0].1, ms[1..]);
      forall k | 0 <= k < |K1 + K2| ensures i <= (K1 + K2)[k] < |s| {
        if k >= |K1| {
          assert (K1 + K2)[k] == K2[k - |K1|];
        }
      }
    }
  }

  /** The spans a global `replace` finds begin and end at line boundaries. */
  lemma MatchSpansOnLines(p: Pattern, s: string)
    ensures SpansOnLines(p, s, MatchSpans(p, s, 0))
  {
  }

  /** After a global `replace` of the section-heading pattern the pattern matches nowhere. */
  lemma RemovedFree(s: string)
    ensures MatchFree(SectionHeading, RemoveMatches(SectionHeading, s))
  {
    var p, r := SectionHeading, RemoveMatches(SectionHeading, s);
    forall i, q ensures !Matches(p, r, i, q) {
      if Matches(p, r, i, q) {
        var a, b := MatchOnLine(p, r, i, q);
        NoHeadingLineKept(s, a, b);
      }
    }
  }

  /** No whole line that the removal keeps is a section heading. */
  lemma NoHeadingLineKept(s: string, a: nat, b: nat)
    requires a < b && WholeLine(SectionHeading, RemoveMatches(SectionHeading, s), a, b)
    ensures !Matches(SectionHeading, RemoveMatches(SectionHeading, s), a, b)
  {
    var p, r := SectionHeading, RemoveMatches(SectionHeading, s);
    var ms := MatchSpans(p, s, 0);
    assert r == Outside(s, 0, ms);
    MatchSpansOnLines(p, s);
    KeptEmbeds(p, s, 0, ms);
    KeptUncovered(s, 0, ms);
    SpansHoldLines(p, s);
    NoHeadingLineCopied(p, s, r, ms, Kept(s, 0, ms), a, b);
  }

  /** Every whole line of `s` that the pattern matches lies inside a span of `ms`. */
  ghost predicate HoldsLines(p: Pattern, s: string, ms: seq<(nat, nat)>) {
    forall a, b :: WholeLine(p, s, a, b) && Matches(p, s, a, b) ==> Holds(ms, a, b)
  }

  lemma SpansHoldLines(p: Pattern, s: string)
    ensures HoldsLines(p, s, MatchSpans(p, s, 0))
  {
    forall a, b | WholeLine(p, s, a, b) && Matches(p, s, a, b) ensures Holds(MatchSpans(p, s, 0), a, b) {
      HeadingLinesRemoved(p, s, a, b);
    }
  }

  /** A copy that avoids every span holding a matching line has no matching line. */
  lemma NoHeadingLineCopied(p: Pattern, s: string, r: string, ms: seq<(nat, nat)>, K: seq<nat>, a: nat, b: nat)
    requires p.multiline && p.leadSpace && Embeds(s, 0, |s|, r, K) && Uncovered(ms, K)
    requires HoldsLines(p, s, ms)
    requires a < b && WholeLine(p, r, a, b)
    ensures !Matches(p, r, a, b)
  {
    LineCopiedFrom(p, s, r, ms, K, a, b);
  }

  /** A whole line of a copy that matches comes from a whole line of the original that
      matches, and that line starts at a copied position, so no span avoided by the copy holds
      it. */
  lemma LineCopiedFrom(p: Pattern, s: string, r: string, ms: seq<(nat, nat)>, K: seq<nat>, a: nat, b: nat)
    requires p.multiline && p.leadSpace && Embeds(s, 0, |s|, r, K) && Uncovered(ms, K)
    requires a < b && WholeLine(p, r, a, b)
    ensures b <= |K|
    ensures Matches(p, r, a, b) ==>
      && WholeLine(p, s, K[a], K[b - 1] + 1) && Matches(p, s, K[a], K[b - 1] + 1)
      && !Holds(ms, K[a], K[b - 1] + 1)
  {
    if Matches(p, r, a, b) {
      LineTransfer(p, s, r, K, a, b);
      NotHeld(ms, K, a, b);
    }
  }

  /** No position of `K` lies inside a span of `ms`. */
  predicate Uncovered(ms: seq<(nat, nat)>, K: seq<nat>) {
    forall k, j :: 0 <= k < |K| && 0 <= j < |ms| ==> !(ms[j].0 <= K[k] < ms[j].1)
  }

  /** No span holds a stretch that starts at a position outside every span. */
  lemma NotHeld(ms: seq<(nat, nat)>, K: seq<nat>, a: nat, b: nat)
    requires a < b <= |K| && K[a] < K[b - 1] + 1
    requires Uncovered(ms, K)
    ensures !Holds(ms, K[a], K[b - 1] + 1)
  {
  }

  /** Where the pattern matches nowhere, the scan finds no span. */
  lemma {:induction false} FreeNoSpans(p: Pattern, s: string, i: nat)
    requires i <= |s| && MatchFree(p, s)
    ensures MatchSpans(p, s, i) == []
    decreases |s| - i
  {
    if i < |s| {
      assert MatchAt(p, s, i).None?;
      FreeNoSpans(p, s, i + 1);
    }
  }

  /** A global `replace` leaves a text in which the pattern matches nowhere as it is. */
  lemma FreeUnchanged(p: Pattern, s: string)
    requires MatchFree(p, s)
    ensures RemoveMatches(p, s) == s
  {
    FreeNoSpans(p, s, 0);
  }

  // ---------------------------------------------------------------------------------------
  // Collapsing and trimming

  /** The positions `CollapseNewlines` keeps: the first two line feeds of a longer run. */
  ghost function CollapseKept(s: string): (K: seq<nat>)
    ensures |K| > 0 ==> K[0] == 0
    decreases |s|
  {
    if s == [] then []
    else
      var n := NewlineRun(s);
      if n == 0 then Range(0, 1) + Shift(CollapseKept(s[1..]), 1)
      else (if n >= 3 then Range(0, 2) else Range(0, n)) + Shift(CollapseKept(s[n..]), n)
  }

  /** Collapsing runs of line feeds copies the text line by line. */
  lemma {:induction false} CollapseEmbeds(s: string)
    ensures Embeds(s, 0, |s|, CollapseNewlines(s), CollapseKept(s))
    decreases |s|
  {
    if s != [] {
      var k, b := CollapseHead(s);
      var tail := s[k..];
      CollapseEmbeds(tail);
      ShiftEmbeds(s, k, CollapseNewlines(tail), CollapseKept(tail));
      RangeEmbeds(s, 0, b);
      EmbedsAppend(s, 0, b, |s|, s[0..b], Range(0, b), k, CollapseNewlines(tail),
                   Shift(CollapseKept(tail), k));
    }
  }

  /** One step of `CollapseNewlines`: it keeps `s[..b]` and goes on from `k`; a gap opens only
      between line feeds. */
  lemma CollapseHead(s: string) returns (k: nat, b: nat)
    requires s != []
    ensures 0 < b <= k <= |s|
    ensures CollapseNewlines(s) == s[0..b] + CollapseNewlines(s[k..])
    ensures CollapseKept(s) == Range(0, b) + Shift(CollapseKept(s[k..]), k)
    ensures b < k ==> s[b - 1] == '\n' && s[k - 1] == '\n'
  {
    var n := NewlineRun(s);
    k := if n == 0 then 1 else n;
    b := if n >= 3 then 2 else k;
    if n >= 3 {
      assert s[0..b] == "\n\n";
    }
  }

  /** Collapsing runs of line feeds brings no match of the section-heading pattern back. */
  lemma CollapseFree(u: string)
    requires MatchFree(SectionHeading, u)
    ensures MatchFree(SectionHeading, CollapseNewlines(u))
  {
    var p, c := SectionHeading, CollapseNewlines(u);
    CollapseEmbeds(u);
    forall i, q ensures !Matches(p, c, i, q) {
      if Matches(p, c, i, q) {
        var a, b := MatchOnLine(p, c, i, q);
        LineTransfer(p, u, c, CollapseKept(u), a, b);
      }
    }
  }

  /** A match in a trimmed text is one in the text: the white space trimmed off the ends is
      what the pattern's leading and trailing `\s*` take. */
  lemma TrimMatch(p: Pattern, u: string, i: nat, q: nat) returns (i0: nat, q0: nat)
    requires p.multiline && p.leadSpace && Matches(p, Trim(u), i, q)
    ensures Matches(p, u, i0, q0)
  {
    var t, l := TrimPads(u);
    i0, q0 := PaddedMatch(p, u, t, l, i, q);
  }

  /** `Trim(u)` sits in `u` at `LeadingSpace(u)`, between two runs of white space. */
  lemma TrimPads(u: string) returns (t: string, l: nat)
    ensures t == Trim(u) && l == LeadingSpace(u)
    ensures l + |t| <= |u| && (forall k :: 0 <= k < |t| ==> u[k + l] == t[k])
    ensures SpaceBetween(u, 0, l) && SpaceBetween(u, l + |t|, |u|)
  {
    t, l := Trim(u), LeadingSpace(u);
    forall k | 0 <= k < l ensures IsSpace(u[k]) {
      assert u[..l][k] == u[k];
    }
    forall k | l + |t| <= k < |u| ensures IsSpace(u[k]) {
      assert u[l + |t|..][k - (l + |t|)] == u[k];
    }
  }

  /** A match in `t` is one in a text holding `t` at `l` between runs of white space. */
  lemma PaddedMatch(p: Pattern, u: string, t: string, l: nat, i: nat, q: nat) returns (i0: nat, q0: nat)
    requires p.multiline && p.leadSpace
    requires l + |t| <= |u| && forall k :: 0 <= k < |t| ==> u[k + l] == t[k]
    requires SpaceBetween(u, 0, l) && SpaceBetween(u, l + |t|, |u|)
    requires Matches(p, t, i, q)
    ensures Matches(p, u, i0, q0)
  {
    var a, b := MatchOnLine(p, t, i, q);
    i0, q0 := PaddedEnds(p, u, t, l, a, b);
    var x: nat, y: nat, w: string :| Decomposes(p, t, a, x, y, w, b);
    DecomposesMove(p, t, u, a, x, y, w, b, l, i0, q0);
    assert Decomposes(p, u, i0, x + l, y + l, w, q0);
  }

  /** Where a whole line of `t` starts and ends, one of the padded text can: at the same
      place, or across the padding when the line is the first or the last. */
  lemma PaddedEnds(p: Pattern, u: string, t: string, l: nat, a: nat, b: nat) returns (i0: nat, q0: nat)
    requires p.multiline && WholeLine(p, t, a, b)
    requires l + |t| <= |u| && forall k :: 0 <= k < |t| ==> u[k + l] == t[k]
    requires SpaceBetween(u, 0, l) && SpaceBetween(u, l + |t|, |u|)
    ensures i0 <= a + l && b + l <= q0 <= |u|
    ensures SpaceBetween(u, i0, a + l) && SpaceBetween(u, b + l, q0)
    ensures LineStart(p, u, i0) && LineEnd(p, u, q0)
  {
    if a == 0 {
      i0 := 0;
    } else {
      i0 := a + l;
      assert u[i0 - 1] == t[a - 1];
    }
    if b == |t| {
      q0 := |u|;
    } else {
      q0 := b + l;
      assert u[q0] == t[b];
    }
  }

  /** A match in a first part of a text that ends where a line does is a match in the text. */
  lemma PrefixMatch(p: Pattern, r: string, n: nat, i: nat, q: nat)
    requires p.multiline && p.leadSpace && n <= |r| && (n == |r| || IsLineTerminator(r[n]))
    requires Matches(p, r[..n], i, q)
    ensures Matches(p, r, i, q)
  {
    var t := r[..n];
    var x: nat, y: nat, w: string :| Decomposes(p, t, i, x, y, w, q);
    PrefixEnds(p, r, n, i, q);
    DecomposesPrefix(p, r, n, i, x, y, w, q);
  }

  lemma DecomposesPrefix(p: Pattern, r: string, n: nat, i: nat, x: nat, y: nat, w: string, q: nat)
    requires n <= |r| && Decomposes(p, r[..n], i, x, y, w, q)
    ensures Decomposes(p, r, i, x, y, w, q)
  {
    var t := r[..n];
    if x != y && p.hashes {
      var h: nat :| x < h <= y && HashesBetween(t, x, h) && SpaceBetween(t, h, y);
      assert x < h <= y && HashesBetween(r, x, h) && SpaceBetween(r, h, y);
    }
    assert r[y..y + |w|] == t[y..y + |w|];
  }

  lemma PrefixEnds(p: Pattern, r: string, n: nat, i: nat, q: nat)
    requires p.multiline && n <= |r| && (n == |r| || IsLineTerminator(r[n]))
    requires LineStart(p, r[..n], i) && q <= n && LineEnd(p, r[..n], q)
    ensures LineStart(p, r, i) && LineEnd(p, r, q)
  {
    var t := r[..n];
    if 0 < i {
      assert r[i - 1] == t[i - 1];
    }
    if q < n {
      assert r[q] == t[q];
    }
  }

  /** Trimming brings no match of the section-heading pattern back. */
  lemma TrimFree(u: string)
    requires MatchFree(SectionHeading, u)
    ensures MatchFree(SectionHeading, Trim(u))
  {
    forall i, q ensures !Matches(SectionHeading, Trim(u), i, q) {
      if Matches(SectionHeading, Trim(u), i, q) {
        var i0, q0 := TrimMatch(SectionHeading, u, i, q);
      }
    }
  }

  /** A greeting label is a section heading without hashes, so where no section heading
      matches, no greeting label does either. */
  lemma GreetingFree(s: string)
    requires MatchFree(SectionHeading, s)
    ensures MatchFree(GreetingLabel, s)
  {
    forall i, q ensures !Matches(GreetingLabel, s, i, q) {
      if Matches(GreetingLabel, s, i, q) {
        GreetingIsSection(s, i, q);
      }
    }
  }

  lemma GreetingIsSection(s: string, i: nat, q: nat)
    requires Matches(GreetingLabel, s, i, q)
    ensures Matches(SectionHeading, s, i, q)
  {
    var x: nat, y: nat, w: string :| Decomposes(GreetingLabel, s, i, x, y, w, q);
    assert SectionWords == GreetingWords + OpeningWords + ClosingWords;
    assert w in SectionWords;
    assert Decomposes(SectionHeading, s, i, x, y, w, q);
  }
}
