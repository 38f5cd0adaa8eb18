/** Character classes and string operations of the JavaScript runtime, restricted to what the
    backend and the frontend use. A Dafny `char` stands for one UTF-16 code unit of a JavaScript
    string; lower-casing is ASCII-only. */
module Text {

  /** ECMAScript LineTerminator: what `.` never matches and where a multiline `^`/`$` anchors. */
  predicate IsLineTerminator(c: char) {
    c == '\n' || c == '\r' || c == '\U{2028}' || c == '\U{2029}'
  }

  /** ECMAScript WhiteSpace or LineTerminator: exactly what `\s` matches and what `trim()` strips. */
  predicate IsSpace(c: char) {
    || c == ' ' || c == '\t' || c == '\U{000B}' || c == '\U{000C}'
    || c == '\U{00A0}' || c == '\U{FEFF}' || c == '\U{1680}'
    || ('\U{2000}' <= c <= '\U{200A}')
    || c == '\U{202F}' || c == '\U{205F}' || c == '\U{3000}'
    || IsLineTerminator(c)
  }

  predicate IsAsciiUpper(c: char) { 'A' <= c <= 'Z' }

  predicate IsAsciiLower(c: char) { 'a' <= c <= 'z' }

  predicate IsAsciiLetter(c: char) { IsAsciiUpper(c) || IsAsciiLower(c) }

  predicate IsAsciiDigit(c: char) { '0' <= c <= '9' }

  /** What `\w` matches, and so what `\b` tells apart from everything else. */
  predicate IsWordChar(c: char) { IsAsciiLetter(c) || IsAsciiDigit(c) || c == '_' }

  predicate Letters(s: string) {
    forall i :: 0 <= i < |s| ==> IsAsciiLetter(s[i])
  }

  predicate AllSpace(s: string) {
    forall i :: 0 <= i < |s| ==> IsSpace(s[i])
  }

  /** `s` has no white space at either end: what `trim()` always returns. */
  predicate IsTrimmed(s: string) {
    s == [] || (!IsSpace(s[0]) && !IsSpace(s[|s| - 1]))
  }

  function LowerChar(c: char): (d: char)
    ensures IsAsciiUpper(c) ==> IsAsciiLower(d) && d as int == c as int + 32
    ensures !IsAsciiUpper(c) ==> d == c
  {
    if IsAsciiUpper(c) then (c as int + 32) as char else c
  }

  /** `toLowerCase()`, on ASCII letters only. */
  function Lower(s: string): (r: string)
    ensures |r| == |s|
    ensures forall i :: 0 <= i < |s| ==> r[i] == LowerChar(s[i])
  {
    seq(|s|, i requires 0 <= i < |s| => LowerChar(s[i]))
  }

  lemma LowerIs(s: string, r: string)
    requires |s| == |r| && forall i :: 0 <= i < |s| ==> LowerChar(s[i]) == r[i]
    ensures Lower(s) == r
  {
  }

  /** Leading white space removed. */
  function TrimStart(s: string): (r: string)
    ensures |r| <= |s| && r == s[|s| - |r|..]
    ensures AllSpace(s[..|s| - |r|])
    ensures r == [] || !IsSpace(r[0])
  {
    if s != [] && IsSpace(s[0]) then TrimStart(s[1..]) else s
  }

  /** Trailing white space removed. */
  function TrimEnd(s: string): (r: string)
    ensures |r| <= |s| && r == s[..|r|]
    ensures AllSpace(s[|r|..])
    ensures r == [] || !IsSpace(r[|r| - 1])
  {
    if s != [] && IsSpace(s[|s| - 1]) then TrimEnd(s[..|s| - 1]) else s
  }

  /** Number of white-space characters `trim()` removes from the front of `s`. */
  function LeadingSpace(s: string): (k: nat)
    ensures k <= |s| && AllSpace(s[..k])
    ensures k < |s| ==> !IsSpace(s[k])
  {
    |s| - |TrimStart(s)|
  }

  /** JavaScript's `trim()`: `s` without its leading and trailing white space. */
  function Trim(s: string): (r: string)
    ensures IsTrimmed(r)
    ensures LeadingSpace(s) + |r| <= |s|
    ensures r == s[LeadingSpace(s)..LeadingSpace(s) + |r|]
    ensures AllSpace(s[..LeadingSpace(s)]) && AllSpace(s[LeadingSpace(s) + |r|..])
  {
    var t := TrimStart(s);
    var r := TrimEnd(t);
    assert r == [] ==> IsTrimmed(r);
    r
  }

  /** The white space `Trim` drops at the end of `s`. */
  function TrailingSpace(s: string): (w: string)
    ensures LeadingSpace(s) + |Trim(s)| + |w| == |s|
    ensures AllSpace(w) && w == s[LeadingSpace(s) + |Trim(s)|..]
  {
    s[LeadingSpace(s) + |Trim(s)|..]
  }

  lemma TrimOfTrimmed(s: string)
    requires IsTrimmed(s)
    ensures Trim(s) == s
  {
  }

  lemma TrimIdempotent(s: string)
    ensures Trim(Trim(s)) == Trim(s)
  {
    TrimOfTrimmed(Trim(s));
  }

  predicate NoTerminator(s: string) {
    forall i :: 0 <= i < |s| ==> !IsLineTerminator(s[i])
  }

  /** The leading white space of `s` ends at the first character that is not white space. */
  lemma LeadingSpaceIs(s: string, k: nat)
    requires k < |s| && AllSpace(s[..k]) && !IsSpace(s[k])
    ensures LeadingSpace(s) == k
  {
  }

  /** Text that opens with a character other than white space keeps opening with it whatever
      follows. */
  lemma HeadNotSpace(head: string, rest: string)
    requires head != [] && !IsSpace(head[0])
    ensures head + rest != [] && !IsSpace((head + rest)[0])
  {
    assert (head + rest)[0] == head[0];
  }

  /** Trimming keeps every character that is not white space: the trimmed part reaches past it. */
  lemma TrimReaches(x: string, p: nat)
    requires p < |x| && !IsSpace(x[p])
    ensures p < LeadingSpace(x) + |Trim(x)|
  {
    var e := LeadingSpace(x) + |Trim(x)|;
    forall q | e <= q < |x| ensures IsSpace(x[q]) {
      assert x[e..][q - e] == x[q];
    }
  }

  /** Trimming text that opens with `p`, which neither starts nor ends with white space, keeps
      `p` at the front, and what follows it in the trimmed text comes from `rest`. */
  lemma TrimKeepsPrefix(p: string, rest: string)
    requires p != [] && !IsSpace(p[0]) && !IsSpace(p[|p| - 1])
    ensures var r := Trim(p + rest);
            && |p| <= |r| <= |p| + |rest| && r[..|p|] == p
            && (|r| > |p| ==> r[|p|] == rest[0])
  {
    var x := p + rest;
    assert x[0] == p[0];
    assert x[..|p|] == p;
    assert |x| > |p| ==> x[|p|] == rest[0];
    TrimFromStart(x);
    TrimReaches(x, |p| - 1);
    var r := Trim(x);
    PrefixOfPrefix(x, |r|, p);
    assert r == x[..|r|];
  }

  /** Text that does not open with white space is trimmed only at its end. */
  lemma TrimFromStart(x: string)
    requires x != [] && !IsSpace(x[0])
    ensures LeadingSpace(x) == 0 && Trim(x) == x[..|Trim(x)|]
  {
    var e: string := [];
    assert x[..0] == e;
    LeadingSpaceIs(x, 0);
  }

  lemma PrefixOfPrefix(x: string, n: nat, p: string)
    requires |p| <= n <= |x| && x[..|p|] == p
    ensures x[..n][..|p|] == p
    ensures n > |p| ==> x[..n][|p|] == x[|p|]
  {
  }

  /** Trimming gives `x[i..j]` when only white space lies outside it and it neither starts
      nor ends with white space. */
  lemma TrimAt(x: string, i: nat, j: nat)
    requires i < j <= |x| && AllSpace(x[..i]) && AllSpace(x[j..])
    requires !IsSpace(x[i]) && !IsSpace(x[j - 1])
    ensures Trim(x) == x[i..j]
  {
    LeadingSpaceIs(x, i);
    var t := Trim(x);
    var m := |t|;
    assert m > 0 ==> t[m - 1] == x[i + m - 1];
    assert x[i..][0] == x[i];
    assert m == j - i;
  }

  /** Trimming text padded with white space on both sides gives the trimmed core back. */
  lemma TrimOfPadded(w1: string, r: string, w2: string)
    requires AllSpace(w1) && AllSpace(w2) && IsTrimmed(r) && r != []
    ensures Trim(w1 + r + w2) == r
  {
    var x := w1 + r + w2;
    var i := |w1|;
    var j := i + |r|;
    assert x[..i] == w1;
    assert x[j..] == w2;
    assert x[i..j] == r;
    assert x[i] == r[0] && x[j - 1] == r[|r| - 1];
    TrimAt(x, i, j);
  }

  /** White space around a string does not change what trimming it gives. */
  lemma TrimPadded(w1: string, x: string, w2: string)
    requires AllSpace(w1) && AllSpace(w2)
    ensures Trim(w1 + x + w2) == Trim(x)
  {
    if Trim(x) == [] {
      BlankPadded(w1, x, w2);
    } else {
      TrimPaddedCore(w1, x, w2);
    }
  }

  lemma TrimPaddedCore(w1: string, x: string, w2: string)
    requires AllSpace(w1) && AllSpace(w2) && Trim(x) != []
    ensures Trim(w1 + x + w2) == Trim(x)
  {
    var r := Trim(x);
    var k := LeadingSpace(x);
    var e := k + |r|;
    var front, back := x[..k], x[e..];
    SplitThree(x, k, e);
    AllSpaceConcat(w1, front);
    AllSpaceConcat(back, w2);
    Regroup3(w1, front, r, back, w2);
    TrimOfPadded(w1 + front, r, back + w2);
  }

  lemma SplitThree(x: string, k: nat, e: nat)
    requires k <= e <= |x|
    ensures x == x[..k] + x[k..e] + x[e..]
  {
  }

  lemma Regroup3(a: string, b: string, c: string, d: string, e: string)
    ensures a + (b + c + d) + e == (a + b) + c + (d + e)
  {
  }

  /** White space after a string does not change what trimming it gives. */
  lemma TrimTrailing(x: string, w: string)
    requires AllSpace(w)
    ensures Trim(x + w) == Trim(x)
  {
    var e: string := [];
    assert e + x + w == x + w;
    TrimPadded(e, x, w);
  }

  /** White space in front of a string does not change what trimming it gives. */
  lemma TrimLeading(w: string, x: string)
    requires AllSpace(w)
    ensures Trim(w + x) == Trim(x)
  {
    var e: string := [];
    assert w + x + e == w + x;
    TrimPadded(w, x, e);
  }

  /** White space in front of a string that is not blank moves where its trimmed part starts. */
  lemma LeadingPadded(w: string, x: string)
    requires AllSpace(w) && Trim(x) != []
    ensures LeadingSpace(w + x) == |w| + LeadingSpace(x)
  {
    var k := LeadingSpace(x);
    var y := w + x;
    var i := |w| + k;
    forall h | 0 <= h < i ensures IsSpace(y[h]) {
      if h >= |w| { assert y[h] == x[..k][h - |w|]; }
    }
    assert AllSpace(y[..i]) by {
      forall h | 0 <= h < i ensures IsSpace(y[..i][h]) { assert y[..i][h] == y[h]; }
    }
    assert y[i] == Trim(x)[0];
    LeadingSpaceIs(y, i);
  }

  lemma DropPrefix(w: string, x: string, i: nat)
    requires i <= |x|
    ensures (w + x)[|w| + i..] == x[i..]
  {
  }

  lemma BlankPadded(w1: string, x: string, w2: string)
    requires AllSpace(w1) && AllSpace(w2) && Trim(x) == []
    ensures Trim(w1 + x + w2) == []
  {
    TrimEmptyIffBlank(x);
    AllSpaceConcat(w1, x);
    AllSpaceConcat(w1 + x, w2);
    TrimEmptyIffBlank(w1 + x + w2);
  }

  lemma AllSpaceConcat(a: string, b: string)
    requires AllSpace(a) && AllSpace(b)
    ensures AllSpace(a + b)
  {
    forall i | 0 <= i < |a + b| ensures IsSpace((a + b)[i]) {
      if i >= |a| { assert (a + b)[i] == b[i - |a|]; }
    }
  }

  lemma TrimEmptyIffBlank(s: string)
    ensures Trim(s) == [] <==> AllSpace(s)
  {
    var k := LeadingSpace(s);
    if AllSpace(s) {
      assert k == |s|;
    }
    if Trim(s) == [] {
      assert s == s[..k] + s[k..];
    }
  }

  predicate StartsWith(s: string, prefix: string) {
    |prefix| <= |s| && s[..|prefix|] == prefix
  }

  /** JavaScript's `includes()` on strings. */
  predicate Contains(s: string, needle: string) {
    exists i :: 0 <= i <= |s| - |needle| && OccursAt(s, needle, i)
  }

  predicate OccursAt(s: string, needle: string, i: int) {
    0 <= i <= |s| - |needle| && s[i..i + |needle|] == needle
  }

  /** Index of the first `c` in `s`, or `|s|` when there is none. */
  function IndexOf(s: string, c: char): (k: nat)
    ensures k <= |s|
    ensures k < |s| ==> s[k] == c
    ensures forall i :: 0 <= i < k ==> s[i] != c
  {
    if s == [] then 0 else if s[0] == c then 0 else 1 + IndexOf(s[1..], c)
  }

  /** JavaScript's `Array.prototype.join`. */
  function Join(parts: seq<string>, sep: string): string
  {
    if |parts| == 0 then "" else if |parts| == 1 then parts[0] else parts[0] + sep + Join(parts[1..], sep)
  }

  /** JavaScript's `split(sep)` for a one-character separator. */
  function Split(s: string, sep: char): (parts: seq<string>)
    ensures |parts| >= 1
    ensures forall i :: 0 <= i < |parts| ==> sep !in parts[i]
    decreases |s|
  {
    var k := IndexOf(s, sep);
    if k == |s| then
      assert sep !in s;
      [s]
    else
      var rest := Split(s[k + 1..], sep);
      assert sep !in s[..k];
      [s[..k]] + rest
  }

  /** Joining the parts with the separator gives the text back. */
  lemma {:induction false} JoinSplit(s: string, sep: char)
    ensures Join(Split(s, sep), [sep]) == s
    decreases |s|
  {
    var k := IndexOf(s, sep);
    if k < |s| {
      var rest := Split(s[k + 1..], sep);
      JoinSplit(s[k + 1..], sep);
      var parts := [s[..k]] + rest;
      assert Split(s, sep) == parts;
      assert parts[1..] == rest;
      assert s == s[..k] + [sep] + s[k + 1..];
    }
  }

  lemma IndexOfIs(s: string, c: char, k: nat)
    requires k < |s| && s[k] == c
    requires forall i :: 0 <= i < k ==> s[i] != c
    ensures IndexOf(s, c) == k
  {
  }

  /** Splitting undoes joining, when no part holds the separator. */
  lemma {:induction false} SplitJoin(parts: seq<string>, sep: char)
    requires |parts| >= 1
    requires forall i :: 0 <= i < |parts| ==> sep !in parts[i]
    ensures Split(Join(parts, [sep]), sep) == parts
    decreases |parts|
  {
    var s := Join(parts, [sep]);
    if |parts| == 1 {
      assert s == parts[0];
      assert IndexOf(s, sep) == |s|;
    } else {
      var p := parts[0];
      var tail := Join(parts[1..], [sep]);
      assert s == p + [sep] + tail;
      SplitJoinStep(p, tail, sep);
      SplitJoin(parts[1..], sep);
      assert parts == [p] + parts[1..];
    }
  }

  lemma SplitJoinStep(p: string, tail: string, sep: char)
    requires sep !in p
    ensures Split(p + [sep] + tail, sep) == [p] + Split(tail, sep)
  {
    var s := p + [sep] + tail;
    assert s[|p|] == sep;
    forall i | 0 <= i < |p| ensures s[i] != sep { assert s[i] == p[i]; }
    IndexOfIs(s, sep, |p|);
    assert s[..|p|] == p;
    assert s[|p| + 1..] == tail;
  }

  /** One trailing carriage return removed: what `/\r?\n/` swallows in front of a line feed. */
  function DropCR(line: string): string {
    if |line| > 0 && line[|line| - 1] == '\r' then line[..|line| - 1] else line
  }

  /** Dropping the carriage return cuts white space from the end of the line. */
  lemma DropCRStrips(line: string) returns (n: nat)
    ensures n <= |line| && DropCR(line) == line[..n] && AllSpace(line[n..])
    ensures n == |line| || (n == |line| - 1 && line[n] == '\r')
  {
    n := if |line| > 0 && line[|line| - 1] == '\r' then |line| - 1 else |line|;
  }

  /** JavaScript's `split(/\r?\n/)`: the text is cut at every line feed, and a carriage return
      directly in front of a line feed goes with it. */
  function SplitLines(s: string): (lines: seq<string>)
  {
    var parts := Split(s, '\n');
    seq(|parts|, i requires 0 <= i < |parts| => if i < |parts| - 1 then DropCR(parts[i]) else parts[i])
  }

  /** Without carriage returns, splitting into lines and joining them again is the identity. */
  lemma SplitLinesWithoutCR(s: string)
    requires '\r' !in s
    ensures SplitLines(s) == Split(s, '\n')
    ensures Join(SplitLines(s), "\n") == s
  {
    var parts := Split(s, '\n');
    JoinSplit(s, '\n');
    forall i | 0 <= i < |parts| ensures '\r' !in parts[i] {
      JoinMembers(parts, "\n", i);
    }
  }

  /** `l` is one of `lines` with only white space cut from its two ends. */
  predicate StrippedLineOf(l: string, lines: seq<string>) {
    exists i, x, y :: 0 <= i < |lines| && 0 <= x <= y <= |lines[i]| && l == lines[i][x..y]
      && AllSpace(lines[i][..x]) && AllSpace(lines[i][y..])
  }

  /** Every one of `ls` is a line of `lines` with only white space cut from its ends. */
  predicate AllStripped(ls: seq<string>, lines: seq<string>) {
    forall m :: 0 <= m < |ls| ==> StrippedLineOf(ls[m], lines)
  }

  lemma StrippedLineShift(l: string, lines: seq<string>, first: string)
    requires StrippedLineOf(l, lines)
    ensures StrippedLineOf(l, [first] + lines)
  {
    var i, x, y :| 0 <= i < |lines| && 0 <= x <= y <= |lines[i]| && l == lines[i][x..y]
      && AllSpace(lines[i][..x]) && AllSpace(lines[i][y..]);
    assert ([first] + lines)[i + 1] == lines[i];
  }

  lemma StrippedLineHere(s: string, x: nat, y: nat, lines: seq<string>)
    requires x <= y <= |s| && AllSpace(s[..x]) && AllSpace(s[y..]) && lines != [] && lines[0] == s
    ensures StrippedLineOf(s[x..y], lines)
  {
  }

  lemma SplitWithoutSep(t: string, c: char)
    requires c !in t
    ensures Split(t, c) == [t]
  {
    assert IndexOf(t, c) == |t|;
  }

  lemma SplitStep(s: string, c: char)
    requires IndexOf(s, c) < |s|
    ensures Split(s, c) == [s[..IndexOf(s, c)]] + Split(s[IndexOf(s, c) + 1..], c)
  {
  }

  /** Every line of a slice of `s` with only white space outside it is a line of `s` with
      only white space cut from its ends. */
  lemma {:induction false} SliceLines(s: string, a: nat, b: nat)
    requires a <= b <= |s| && AllSpace(s[..a]) && AllSpace(s[b..])
    ensures AllStripped(Split(s[a..b], '\n'), Split(s, '\n'))
    decreases |s|, 2
  {
    var k := IndexOf(s, '\n');
    if b <= k {
      assert AllSpace(s[b..k]) by {
        forall i | 0 <= i < k - b ensures IsSpace(s[b..k][i]) { assert s[b..k][i] == s[b..][i]; }
      }
      SliceLinesHead(s, a, b);
    } else if a > k {
      SliceLinesAfter(s, a, b);
    } else {
      SliceLinesAcross(s, a, b);
    }
  }

  /** The lines of a trimmed text are lines of the text with white space cut from their ends. */
  lemma TrimLines(s: string)
    ensures forall m :: 0 <= m < |Split(Trim(s), '\n')| ==> StrippedLineOf(Split(Trim(s), '\n')[m], Split(s, '\n'))
  {
    var t := Trim(s);
    var a := LeadingSpace(s);
    var b := a + |t|;
    assert t == s[a..b];
    SliceLines(s, a, b);
  }

  lemma SliceLinesHead(s: string, a: nat, b: nat)
    requires a <= b <= IndexOf(s, '\n') && AllSpace(s[..a]) && AllSpace(s[b..IndexOf(s, '\n')])
    ensures Split(s[a..b], '\n') == [s[a..b]]
    ensures StrippedLineOf(s[a..b], Split(s, '\n'))
  {
    var k := IndexOf(s, '\n');
    var first := s[..k];
    var t := s[a..b];
    forall i | 0 <= i < |t| ensures t[i] != '\n' { assert t[i] == s[a + i]; }
    SplitWithoutSep(t, '\n');
    assert Split(s, '\n')[0] == first;
    assert first[..a] == s[..a];
    assert first[b..] == s[b..k];
    forall i | 0 <= i < |t| ensures t[i] == first[a..b][i] { assert first[a..b][i] == s[a + i]; }
    assert t == first[a..b];
    StrippedLineHere(first, a, b, Split(s, '\n'));
  }

  lemma {:induction false} SliceLinesAfter(s: string, a: nat, b: nat)
    requires IndexOf(s, '\n') < a <= b <= |s| && AllSpace(s[..a]) && AllSpace(s[b..])
    ensures AllStripped(Split(s[a..b], '\n'), Split(s, '\n'))
    decreases |s|, 1
  {
    var k := IndexOf(s, '\n');
    var d := k + 1;
    SliceLinesTail(s, d, a, b);
    StrippedShiftAll(Split(s[a..b], '\n'), Split(s[d..], '\n'), s[..k]);
    SplitStep(s, '\n');
  }

  /** A slice of `s` past its first `d` characters, with only white space around it, has lines
      that are stripped lines of the text after those characters. */
  lemma {:induction false} SliceLinesTail(s: string, d: nat, a: nat, b: nat)
    requires 1 <= d <= a <= b <= |s| && AllSpace(s[..a]) && AllSpace(s[b..])
    ensures AllStripped(Split(s[a..b], '\n'), Split(s[d..], '\n'))
    decreases |s|, 0
  {
    var r := s[d..];
    ShiftSlice(s, d, a, b);
    SliceLines(r, a - d, b - d);
    StrippedTransport(s[a..b], r[a - d..b - d], Split(r, '\n'), Split(r, '\n'));
  }

  lemma StrippedTransport(t: string, u: string, lines: seq<string>, lines': seq<string>)
    requires t == u && lines == lines'
    requires AllStripped(Split(u, '\n'), lines)
    ensures AllStripped(Split(t, '\n'), lines')
  {
  }

  /** Cutting `d` characters from the front of `s` keeps a slice and the white space around it. */
  lemma ShiftSlice(s: string, d: nat, a: nat, b: nat)
    requires d <= a <= b <= |s| && AllSpace(s[..a]) && AllSpace(s[b..])
    ensures s[a..b] == s[d..][a - d..b - d]
    ensures AllSpace(s[d..][..a - d]) && AllSpace(s[d..][b - d..])
  {
    var r := s[d..];
    var a' := a - d;
    forall i | 0 <= i < a' ensures IsSpace(r[..a'][i]) { assert r[..a'][i] == s[..a][d + i]; }
    assert r[b - d..] == s[b..];
  }

  lemma StrippedShiftAll(lines: seq<string>, rest: seq<string>, first: string)
    requires AllStripped(lines, rest)
    ensures AllStripped(lines, [first] + rest)
  {
    forall m | 0 <= m < |lines| ensures StrippedLineOf(lines[m], [first] + rest) {
      StrippedLineShift(lines[m], rest, first);
    }
  }

  lemma {:induction false} SliceLinesAcross(s: string, a: nat, b: nat)
    requires a <= IndexOf(s, '\n') < b <= |s| && AllSpace(s[..a]) && AllSpace(s[b..])
    ensures AllStripped(Split(s[a..b], '\n'), Split(s, '\n'))
    decreases |s|, 1
  {
    var k := IndexOf(s, '\n');
    var d := k + 1;
    var t, r := s[d..b], s[d..];
    SplitStep(s, '\n');
    SplitSliceAt(s, a, b, k);
    SliceLinesHead(s, a, k);
    SliceLinesRest(s, k, b, t, r);
    StrippedCons(Split(s[a..b], '\n'), s[a..k], Split(t, '\n'), s[..k], Split(r, '\n'));
  }

  lemma {:induction false} SliceLinesRest(s: string, k: nat, b: nat, t: string, r: string)
    requires k == IndexOf(s, '\n') < b <= |s| && AllSpace(s[b..])
    requires t == s[k + 1..b] && r == s[k + 1..]
    ensures AllStripped(Split(t, '\n'), Split(r, '\n'))
    decreases |s|, 0
  {
    assert r[..0] == [] && r[0..b - k - 1] == s[k + 1..b];
    assert r[b - k - 1..] == s[b..];
    SliceLines(r, 0, b - k - 1);
  }

  lemma SplitSliceAt(s: string, a: nat, b: nat, k: nat)
    requires a <= k < b <= |s| && s[k] == '\n'
    requires forall i :: a <= i < k ==> s[i] != '\n'
    ensures Split(s[a..b], '\n') == [s[a..k]] + Split(s[k + 1..b], '\n')
  {
    var t := s[a..b];
    forall i | 0 <= i < k - a ensures t[i] != '\n' { assert t[i] == s[a + i]; }
    SplitAt(t, '\n', k - a);
    SliceOfSlice(s, a, b, k);
    SplitCongruence(t, t[..k - a], t[k - a + 1..], s[a..k], s[k + 1..b]);
  }

  lemma SliceOfSlice(s: string, a: nat, b: nat, k: nat)
    requires a <= k < b <= |s|
    ensures s[a..b][..k - a] == s[a..k] && s[a..b][k - a + 1..] == s[k + 1..b]
  {
  }

  lemma SplitCongruence(t: string, x: string, y: string, u: string, v: string)
    requires Split(t, '\n') == [x] + Split(y, '\n')
    requires x == u && y == v
    ensures Split(t, '\n') == [u] + Split(v, '\n')
  {
  }

  lemma SplitAt(t: string, c: char, j: nat)
    requires j < |t| && t[j] == c
    requires forall i :: 0 <= i < j ==> t[i] != c
    ensures Split(t, c) == [t[..j]] + Split(t[j + 1..], c)
  {
    IndexOfIs(t, c, j);
  }

  lemma StrippedCons(lines: seq<string>, head: string, tail: seq<string>, first: string, rest: seq<string>)
    requires lines == [head] + tail
    requires StrippedLineOf(head, [first] + rest)
    requires AllStripped(tail, rest)
    ensures AllStripped(lines, [first] + rest)
  {
    forall m | 0 <= m < |lines| ensures StrippedLineOf(lines[m], [first] + rest) {
      if m > 0 {
        assert lines[m] == tail[m - 1];
        StrippedLineShift(tail[m - 1], rest, first);
      }
    }
  }

  /** Every character of a joined part is a character of the joined text. */
  lemma {:induction false} JoinMembers(parts: seq<string>, sep: string, i: int)
    requires 0 <= i < |parts|
    ensures forall c :: c in parts[i] ==> c in Join(parts, sep)
    decreases |parts|
  {
    if |parts| > 1 && i > 0 {
      JoinMembers(parts[1..], sep, i - 1);
      assert parts[1..][i - 1] == parts[i];
    }
  }

  /** No three consecutive line feeds: what `replace(/\n{3,}/g, "\n\n")` leaves. */
  predicate NoTripleNewline(s: string) {
    forall i :: 0 <= i < |s| - 2 ==> !(s[i] == '\n' && s[i + 1] == '\n' && s[i + 2] == '\n')
  }

  /** Length of the run of line feeds `s` starts with. */
  function NewlineRun(s: string): (n: nat)
    ensures n <= |s|
    ensures forall i :: 0 <= i < n ==> s[i] == '\n'
    ensures n < |s| ==> s[n] != '\n'
  {
    if s != [] && s[0] == '\n' then 1 + NewlineRun(s[1..]) else 0
  }

  /** The characters of `s` other than line feeds, in order. */
  function Visible(s: string): string {
    if s == [] then [] else (if s[0] == '\n' then [] else [s[0]]) + Visible(s[1..])
  }

  /** Gluing a chunk without three consecutive line feeds in front of a text without them,
      where the text does not start with a line feed, keeps the property. */
  lemma NoTripleAppend(run: string, rest: string)
    requires NoTripleNewline(run) && NoTripleNewline(rest)
    requires || (run != [] && run[|run| - 1] != '\n')
             || (|run| <= 2 && (rest != [] ==> rest[0] != '\n'))
    ensures NoTripleNewline(run + rest)
  {
    var r := run + rest;
    forall i | 0 <= i < |r| - 2
      ensures !(r[i] == '\n' && r[i + 1] == '\n' && r[i + 2] == '\n')
    {
      if i >= |run| {
        assert r[i] == rest[i - |run|] && r[i + 1] == rest[i - |run| + 1] && r[i + 2] == rest[i - |run| + 2];
      } else if i + 2 < |run| {
        assert r[i] == run[i] && r[i + 1] == run[i + 1] && r[i + 2] == run[i + 2];
      } else if run != [] && run[|run| - 1] != '\n' {
        assert r[|run| - 1] == run[|run| - 1];
      } else {
        assert r[|run|] == rest[0];
      }
    }
  }

  /** `replace(/\n{3,}/g, "\n\n")`: each maximal run of three or more line feeds becomes two. */
  function CollapseNewlines(s: string): (r: string)
    ensures NoTripleNewline(r)
    ensures |s| > 0 <==> |r| > 0
    ensures |s| > 0 ==> (r[0] == '\n' <==> s[0] == '\n')
    decreases |s|
  {
    if s == [] then []
    else
      var n := NewlineRun(s);
      if n == 0 then
        var rest := CollapseNewlines(s[1..]);
        NoTripleAppend([s[0]], rest);
        [s[0]] + rest
      else
        var run := if n >= 3 then "\n\n" else s[..n];
        var rest := CollapseNewlines(s[n..]);
        NoTripleAppend(run, rest);
        run + rest
  }

  predicate EndsWith(s: string, suffix: string) {
    |suffix| <= |s| && s[|s| - |suffix|..] == suffix
  }

  /** Text found in a string is found in any string that has it as a part. */
  lemma ContainsWithin(a: string, b: string, c: string, needle: string)
    requires Contains(b, needle)
    ensures Contains(a + b + c, needle)
  {
    var i :| 0 <= i <= |b| - |needle| && OccursAt(b, needle, i);
    var s := a + b + c;
    assert s[|a| + i..|a| + i + |needle|] == b[i..i + |needle|];
    assert OccursAt(s, needle, |a| + i);
  }

  /** Every part of a joined list appears in the joined text. */
  lemma {:induction false} JoinHas(parts: seq<string>, sep: string, i: nat)
    requires i < |parts|
    ensures Contains(Join(parts, sep), parts[i])
    decreases |parts|
  {
    var s := Join(parts, sep);
    if i == 0 {
      assert s[..|parts[0]|] == parts[0];
      assert OccursAt(s, parts[0], 0);
    } else {
      JoinHas(parts[1..], sep, i - 1);
      assert parts[1..][i - 1] == parts[i];
      ContainsWithin(parts[0] + sep, Join(parts[1..], sep), "", parts[i]);
      assert parts[0] + sep + Join(parts[1..], sep) + "" == s;
    }
  }

  /** A joined list starts with its first part. */
  lemma JoinStarts(parts: seq<string>, sep: string)
    requires |parts| >= 1
    ensures StartsWith(Join(parts, sep), parts[0])
  {
    var s := Join(parts, sep);
    if |parts| > 1 {
      assert s == parts[0] + (sep + Join(parts[1..], sep));
    }
  }

  /** Joining a list is joining all but its last part, the separator, and the last part. */
  lemma {:induction false} JoinLast(parts: seq<string>, sep: string)
    requires |parts| >= 2
    ensures Join(parts, sep) == Join(parts[..|parts| - 1], sep) + sep + parts[|parts| - 1]
    decreases |parts|
  {
    if |parts| > 2 {
      JoinLast(parts[1..], sep);
      assert parts[1..][..|parts| - 2] == parts[..|parts| - 1][1..];
    }
  }

  lemma JoinLastTwo(parts: seq<string>, sep: string)
    requires |parts| >= 3
    ensures var n := |parts|;
            Join(parts, sep) == Join(parts[..n - 2], sep) + sep + parts[n - 2] + sep + parts[n - 1]
  {
    var n := |parts|;
    var init := parts[..n - 1];
    JoinLast(parts, sep);
    JoinLast(init, sep);
    assert init[..n - 2] == parts[..n - 2] && init[n - 2] == parts[n - 2];
  }

  /** A join of three or more parts ends with its last two parts and the separators before them. */
  lemma JoinEndsWithLastTwo(parts: seq<string>, sep: string)
    requires |parts| >= 3
    ensures var n := |parts|; EndsWith(Join(parts, sep), sep + parts[n - 2] + sep + parts[n - 1])
  {
    var n := |parts|;
    var x := Join(parts[..n - 2], sep);
    var y := sep + parts[n - 2] + sep + parts[n - 1];
    JoinLastTwo(parts, sep);
    assert x + sep + parts[n - 2] + sep + parts[n - 1] == x + y;
    EndsWithConcat(x, y);
  }

  lemma EndsWithConcat(x: string, y: string)
    ensures EndsWith(x + y, y)
  {
    assert (x + y)[|x|..] == y;
  }

  /** Containment is transitive. */
  lemma ContainsTransitive(s: string, t: string, needle: string)
    requires Contains(s, t) && Contains(t, needle)
    ensures Contains(s, needle)
  {
    var i :| 0 <= i <= |s| - |t| && OccursAt(s, t, i);
    var j :| 0 <= j <= |t| - |needle| && OccursAt(t, needle, j);
    var u, w := s[i + j..i + j + |needle|], t[j..j + |needle|];
    forall k | 0 <= k < |needle| ensures u[k] == w[k] {
      assert s[i..i + |t|][j + k] == t[j + k];
    }
    assert u == w;
    assert OccursAt(s, needle, i + j);
  }
}
