/** The `Label: value` line pattern the inline-context extractor tries on every input line.
    The two backend variants use different patterns, both anchored at the start and end of
    the line: white space, a label, white space, a colon, white space, a value of at least one
    character other than a line terminator (matched lazily), white space.
    - server variant: the label is an ASCII letter followed by 1 to 20 ASCII letters or spaces;
    - lambda variant: the label is 2 to 24 ASCII letters, spaces, underscores or hyphens.
    Every part of the pattern before the colon excludes ':', so the pattern's colon is the
    line's first colon. The match a backtracking engine reports is the first one in its
    search order: leading white space longest first, then label longest first (both greedy);
    after the colon, leading white space longest first, then value shortest first (lazy).
    `FindPrefix` and `FindSuffix` perform exactly those searches. */
module LabelLine {
  import opened Wrappers
  import opened Text

  datatype Variant = Server | Lambda

  predicate LabelChar(v: Variant, c: char) {
    IsAsciiLetter(c) || c == ' ' || (v == Lambda && (c == '_' || c == '-'))
  }

  function MaxLabel(v: Variant): nat {
    if v == Server then 21 else 24
  }

  /** The label group can match exactly `name`. */
  predicate LabelShape(v: Variant, name: string) {
    && 2 <= |name| <= MaxLabel(v)
    && (forall i :: 0 <= i < |name| ==> LabelChar(v, name[i]))
    && (v == Server ==> IsAsciiLetter(name[0]))
  }

  /** The text before the colon, `p`, splits into white space `p[..a]`, a label `p[a..a+l]`
      and white space `p[a+l..]`. */
  predicate PrefixSplit(v: Variant, p: string, a: int, l: int) {
    && 0 <= a && 0 <= l && a + l <= |p|
    && AllSpace(p[..a]) && LabelShape(v, p[a..a + l]) && AllSpace(p[a + l..])
  }

  /** The engine tries the prefix split `(a1, l1)` before `(a2, l2)`. */
  predicate PrefixEarlier(a1: int, l1: int, a2: int, l2: int) {
    a1 > a2 || (a1 == a2 && l1 > l2)
  }

  /** The first valid prefix split at or after `(a, l)` in the engine's order. */
  function FindPrefix(v: Variant, p: string, a: nat, l: nat): (r: Option<(nat, nat)>)
    requires l <= MaxLabel(v)
    ensures r.Some? ==> PrefixSplit(v, p, r.value.0, r.value.1)
    ensures r.Some? ==> !PrefixEarlier(r.value.0, r.value.1, a, l)
    ensures r.Some? ==> forall a', l' ::
      !PrefixEarlier(a', l', a, l) && PrefixEarlier(a', l', r.value.0, r.value.1) ==> !PrefixSplit(v, p, a', l')
    ensures r.None? ==> forall a', l' :: !PrefixEarlier(a', l', a, l) ==> !PrefixSplit(v, p, a', l')
    decreases a, l
  {
    if PrefixSplit(v, p, a, l) then Some((a, l))
    else if l > 0 then FindPrefix(v, p, a, l - 1)
    else if a > 0 then FindPrefix(v, p, a - 1, MaxLabel(v))
    else None
  }

  /** The text after the colon, `s`, splits into white space `s[..j]`, a value `s[j..j+n]` of
      at least one character and no line terminator, and white space `s[j+n..]`. */
  predicate SuffixSplit(s: string, j: int, n: int) {
    && 0 <= j && 1 <= n && j + n <= |s|
    && AllSpace(s[..j]) && AllSpace(s[j + n..])
    && (forall i :: j <= i < j + n ==> !IsLineTerminator(s[i]))
  }

  /** The engine tries the suffix split `(j1, n1)` before `(j2, n2)`. */
  predicate SuffixEarlier(j1: int, n1: int, j2: int, n2: int) {
    j1 > j2 || (j1 == j2 && n1 < n2)
  }

  /** The first valid suffix split at or after `(j, n)` in the engine's order. */
  function FindSuffix(s: string, j: nat, n: nat): (r: Option<(nat, nat)>)
    requires 1 <= n
    ensures r.Some? ==> SuffixSplit(s, r.value.0, r.value.1)
    ensures r.Some? ==> !SuffixEarlier(r.value.0, r.value.1, j, n)
    ensures r.Some? ==> forall j', n' ::
      !SuffixEarlier(j', n', j, n) && SuffixEarlier(j', n', r.value.0, r.value.1) ==> !SuffixSplit(s, j', n')
    ensures r.None? ==> forall j', n' :: 1 <= n' && !SuffixEarlier(j', n', j, n) ==> !SuffixSplit(s, j', n')
    decreases j, |s| - n
  {
    if SuffixSplit(s, j, n) then Some((j, n))
    else if j + n < |s| then FindSuffix(s, j, n + 1)
    else if j > 0 then FindSuffix(s, j - 1, 1)
    else None
  }

  /** The two capture groups of a successful match. */
  datatype Match = Match(key: string, value: string)

  /** `line.match(pattern)`: the captured label and value, or `None` when the line does not match. */
  function MatchLine(v: Variant, line: string): Option<Match>
  {
    var c := IndexOf(line, ':');
    if c == |line| then None
    else
      var p := line[..c];
      var s := line[c + 1..];
      match (FindPrefix(v, p, LeadingSpace(p), MaxLabel(v)), FindSuffix(s, LeadingSpace(s), 1))
      case (Some((a, l)), Some((j, n))) => Some(Match(p[a..a + l], s[j..j + n]))
      case _ => None
  }

  /** A reported match comes from a decomposition of the whole line around its first colon. */
  lemma MatchSound(v: Variant, line: string) returns (c: nat, a: nat, l: nat, j: nat, n: nat)
    requires MatchLine(v, line).Some?
    ensures c < |line| && line[c] == ':' && ':' !in line[..c]
    ensures PrefixSplit(v, line[..c], a, l) && SuffixSplit(line[c + 1..], j, n)
    ensures MatchLine(v, line).value == Match(line[..c][a..a + l], line[c + 1..][j..j + n])
    ensures forall a', l' :: PrefixEarlier(a', l', a, l) ==> !PrefixSplit(v, line[..c], a', l')
    ensures forall j', n' :: SuffixEarlier(j', n', j, n) ==> !SuffixSplit(line[c + 1..], j', n')
  {
    c := IndexOf(line, ':');
    var p := line[..c];
    var s := line[c + 1..];
    var rp := FindPrefix(v, p, LeadingSpace(p), MaxLabel(v));
    var rs := FindSuffix(s, LeadingSpace(s), 1);
    a, l := rp.value.0, rp.value.1;
    j, n := rs.value.0, rs.value.1;
    PrefixWithinStart(v, p);
    SuffixWithinStart(s);
  }

  /** No prefix split starts its label after the leading white space or is longer than the
      label allows: the search misses nothing by starting where it does. */
  lemma PrefixWithinStart(v: Variant, p: string)
    ensures forall a, l :: PrefixSplit(v, p, a, l) ==> !PrefixEarlier(a, l, LeadingSpace(p), MaxLabel(v))
  {
    forall a, l | PrefixSplit(v, p, a, l) ensures a <= LeadingSpace(p) {
      assert a <= LeadingSpace(p);
    }
  }

  lemma SuffixWithinStart(s: string)
    ensures forall j, n :: SuffixSplit(s, j, n) ==> !SuffixEarlier(j, n, LeadingSpace(s), 1)
  {
    forall j, n | SuffixSplit(s, j, n) ensures j <= LeadingSpace(s) {
      assert j <= LeadingSpace(s);
    }
  }

  /** No character before the pattern's colon is a colon. */
  lemma PrefixHasNoColon(v: Variant, p: string, a: nat, l: nat)
    requires PrefixSplit(v, p, a, l)
    ensures ':' !in p
  {
    forall i | 0 <= i < |p| ensures p[i] != ':' {
      if i < a {
        assert p[i] == p[..a][i];
      } else if i < a + l {
        assert p[i] == p[a..a + l][i - a];
      } else {
        assert p[i] == p[a + l..][i - a - l];
      }
    }
  }

  lemma PrefixFound(v: Variant, p: string, a: nat, l: nat)
    requires PrefixSplit(v, p, a, l)
    ensures FindPrefix(v, p, LeadingSpace(p), MaxLabel(v)).Some?
  {
    var a0 := LeadingSpace(p);
    assert a <= a0;
  }

  lemma SuffixFound(s: string, j: nat, n: nat)
    requires SuffixSplit(s, j, n)
    ensures FindSuffix(s, LeadingSpace(s), 1).Some?
  {
    var j0 := LeadingSpace(s);
    assert j <= j0;
  }

  /** Every decomposition of the line the pattern describes makes the line match. */
  lemma MatchComplete(v: Variant, line: string, c: nat, a: nat, l: nat, j: nat, n: nat)
    requires c < |line| && line[c] == ':'
    requires PrefixSplit(v, line[..c], a, l) && SuffixSplit(line[c + 1..], j, n)
    ensures MatchLine(v, line).Some?
  {
    var p := line[..c];
    PrefixHasNoColon(v, p, a, l);
    forall i | 0 <= i < c ensures line[i] != ':' {
      assert line[i] == p[i];
    }
    IndexOfIs(line, ':', c);
    PrefixFound(v, p, a, l);
    SuffixFound(line[c + 1..], j, n);
  }
}
