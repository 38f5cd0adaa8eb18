/** Inline context: `Label: value` lines a user embeds in the free text, pulled out into a
    field map, with every other line left in the task text in its original order. Both backend
    variants walk the lines the same way; they differ in the line pattern (see `LabelLine`) and
    in how a match is turned into a field and a value (`LineEffect`). */
module InlineContext {
  import opened Wrappers
  import opened Text
  import opened LabelLine

  datatype Field = Role | Company | Name | Recipient | Portfolio | Github | Linkedin | Email

  type Ctx = map<Field, string>

  /** The lower-case label that selects a field. */
  function KeyName(f: Field): string {
    match f
    case Role => "role"
    case Company => "company"
    case Name => "name"
    case Recipient => "recipient"
    case Portfolio => "portfolio"
    case Github => "github"
    case Linkedin => "linkedin"
    case Email => "email"
  }

  /** Lambda variant's `pick`: exactly the eight field names. */
  function LambdaKey(k: string): (r: Option<Field>)
    ensures r.Some? ==> KeyName(r.value) == k
    ensures r.None? ==> forall f :: KeyName(f) != k
  {
    if k == "role" then Some(Role)
    else if k == "company" then Some(Company)
    else if k == "name" then Some(Name)
    else if k == "recipient" then Some(Recipient)
    else if k == "portfolio" then Some(Portfolio)
    else if k == "github" then Some(Github)
    else if k == "linkedin" then Some(Linkedin)
    else if k == "email" then Some(Email)
    else None
  }

  /** Server variant: the eight field names, and `to` as a second name for `recipient`. */
  function ServerKey(k: string): (r: Option<Field>)
    ensures r.Some? ==> KeyName(r.value) == k || (k == "to" && r.value == Recipient)
    ensures r.None? ==> k != "to" && forall f :: KeyName(f) != k
  {
    if k == "to" then Some(Recipient) else LambdaKey(k)
  }

  /** What one input line does: it stays in the task, or it is consumed as a label line for
      `field`, storing `stored` into the context when there is something to store. */
  datatype Effect = Keep | Consume(field: Field, stored: Option<string>)

  /** Server: the label is trimmed and lower-cased before the lookup; the value is trimmed
      and stored only when it is not empty (a recognised line with a blank value is still
      consumed). Lambda: the label is lower-cased but not trimmed, and the captured value is
      stored as it is. */
  function LineEffect(v: Variant, line: string): Effect {
    match MatchLine(v, line)
    case None => Keep
    case Some(m) =>
      if v == Server then
        match ServerKey(Lower(Trim(m.key)))
        case None => Keep
        case Some(f) =>
          var value := Trim(m.value);
          Consume(f, if value == "" then None else Some(value))
      else
        match LambdaKey(Lower(m.key))
        case None => Keep
        case Some(f) => Consume(f, Some(m.value))
  }

  /** The effect of every line, in order. */
  function Effects(v: Variant, lines: seq<string>): (es: seq<Effect>)
    ensures |es| == |lines|
    ensures forall i :: 0 <= i < |lines| ==> es[i] == LineEffect(v, lines[i])
  {
    seq(|lines|, i requires 0 <= i < |lines| => LineEffect(v, lines[i]))
  }

  /** The extractor's loop over the lines (with their effects), carrying the context and the
      kept lines so far. */
  function ExtractLoop(lines: seq<string>, es: seq<Effect>, ctx: Ctx, kept: seq<string>): (Ctx, seq<string>)
    requires |es| == |lines|
    decreases |lines|
  {
    if lines == [] then (ctx, kept)
    else
      match es[0]
      case Keep => ExtractLoop(lines[1..], es[1..], ctx, kept + [lines[0]])
      case Consume(f, stored) =>
        ExtractLoop(lines[1..], es[1..], if stored.Some? then ctx[f := stored.value] else ctx, kept)
  }

  /** Reference: the lines whose effect is `Keep`, in their original order. */
  function Kept(lines: seq<string>, es: seq<Effect>): seq<string>
    requires |es| == |lines|
    decreases |lines|
  {
    if lines == [] then []
    else Kept(lines[..|lines| - 1], es[..|es| - 1]) + (if es[|es| - 1].Keep? then [lines[|lines| - 1]] else [])
  }

  /** Reference: the value the last effect storing into `f` stores, if any. */
  function LastStore(es: seq<Effect>, f: Field): Option<string>
    decreases |es|
  {
    if es == [] then None
    else
      var e := es[|es| - 1];
      if e.Consume? && e.field == f && e.stored.Some? then e.stored
      else LastStore(es[..|es| - 1], f)
  }

  /** The lines a task keeps, for one variant. */
  function KeptLines(v: Variant, lines: seq<string>): seq<string> {
    Kept(lines, Effects(v, lines))
  }

  /** The value the last line storing into `f` stores, for one variant. */
  function LastStored(v: Variant, lines: seq<string>, f: Field): Option<string> {
    LastStore(Effects(v, lines), f)
  }

  /** `ctx[f]`, or `None` when `f` is not set. */
  function Lookup(ctx: Ctx, f: Field): Option<string> {
    if f in ctx then Some(ctx[f]) else None
  }

  /** One more effect: its stored value, if any, becomes the last one for its field. */
  lemma LastStoreStep(es: seq<Effect>, e: Effect, f: Field)
    ensures LastStore(es + [e], f)
        == if e.Consume? && e.field == f && e.stored.Some? then e.stored else LastStore(es, f)
  {
    var es' := es + [e];
    assert es'[..|es'| - 1] == es;
  }

  lemma KeptStep(lines: seq<string>, es: seq<Effect>, x: string, e: Effect)
    requires |es| == |lines|
    ensures Kept(lines + [x], es + [e]) == Kept(lines, es) + (if e.Keep? then [x] else [])
  {
    var lines' := lines + [x];
    var es' := es + [e];
    assert lines'[..|lines'| - 1] == lines;
    assert es'[..|es'| - 1] == es;
  }

  lemma {:induction false} ExtractLoopMeetsReference(done: seq<string>, dones: seq<Effect>, lines: seq<string>, es: seq<Effect>, ctx: Ctx)
    requires |dones| == |done| && |es| == |lines|
    requires forall f :: Lookup(ctx, f) == LastStore(dones, f)
    ensures ExtractLoop(lines, es, ctx, Kept(done, dones)).1 == Kept(done + lines, dones + es)
    ensures forall f :: Lookup(ExtractLoop(lines, es, ctx, Kept(done, dones)).0, f) == LastStore(dones + es, f)
    decreases |lines|
  {
    if lines == [] {
      assert done + lines == done;
      assert dones + es == dones;
    } else {
      var e := es[0];
      var kept := Kept(done, dones);
      KeptStep(done, dones, lines[0], e);
      var ctx' := if e.Consume? && e.stored.Some? then ctx[e.field := e.stored.value] else ctx;
      var kept' := if e.Keep? then kept + [lines[0]] else kept;
      assert ExtractLoop(lines, es, ctx, kept) == ExtractLoop(lines[1..], es[1..], ctx', kept');
      forall f ensures Lookup(ctx', f) == LastStore(dones + [e], f) {
        LastStoreStep(dones, e, f);
      }
      assert kept' == Kept(done + [lines[0]], dones + [e]);
      ExtractLoopMeetsReference(done + [lines[0]], dones + [e], lines[1..], es[1..], ctx');
      assert done + [lines[0]] + lines[1..] == done + lines;
      assert dones + [e] + es[1..] == dones + es;
      assert ExtractLoop(lines, es, ctx, kept).1 == Kept(done + lines, dones + es);
    }
  }

  lemma ExtractReference(lines: seq<string>, es: seq<Effect>)
    requires |es| == |lines|
    ensures ExtractLoop(lines, es, map[], []).1 == Kept(lines, es)
    ensures forall f :: Lookup(ExtractLoop(lines, es, map[], []).0, f) == LastStore(es, f)
  {
    ExtractLoopMeetsReference([], [], lines, es, map[]);
    assert [] + lines == lines;
    assert [] + es == es;
  }

  /** What the extractor returns: the context and the task text. */
  datatype Extraction = Extraction(ctx: Ctx, task: string)

  /** The extractor after splitting: consumes the label lines and joins the remaining lines
      back with line feeds, trimmed. */
  function ExtractLines(v: Variant, lines: seq<string>): (e: Extraction)
    ensures e.task == Trim(Join(KeptLines(v, lines), "\n"))
    ensures forall f :: Lookup(e.ctx, f) == LastStored(v, lines, f)
  {
    var es := Effects(v, lines);
    var r := ExtractLoop(lines, es, map[], []);
    ExtractReference(lines, es);
    Extraction(r.0, Trim(Join(r.1, "\n")))
  }

  /** `extractInlineContext`: the lines of `raw`, split at line breaks, run through the extractor. */
  function Extract(v: Variant, raw: string): (e: Extraction)
    ensures e == ExtractLines(v, SplitLines(raw))
  {
    ExtractLines(v, SplitLines(raw))
  }

  /** What a stored value looks like. The server stores trimmed, non-empty text; the lambda
      stores the captured value as it is: at least one character, and no line terminator. */
  predicate StoredShape(v: Variant, s: string) {
    if v == Server then s != [] && IsTrimmed(s)
    else s != [] && forall i :: 0 <= i < |s| ==> !IsLineTerminator(s[i])
  }

  predicate StoresInto(e: Effect, f: Field) {
    e.Consume? && e.field == f && e.stored.Some?
  }

  /** Every value a line stores has the shape of its variant. */
  lemma LineEffectShape(v: Variant, line: string)
    ensures var e := LineEffect(v, line); e.Consume? && e.stored.Some? ==> StoredShape(v, e.stored.value)
  {
    if v == Server {
      ServerStoredShape(line);
    } else {
      LambdaStoredShape(line);
    }
  }

  lemma ServerStoredShape(line: string)
    ensures var e := LineEffect(Server, line); e.Consume? && e.stored.Some? ==> StoredShape(Server, e.stored.value)
  {
    var e := LineEffect(Server, line);
    if e.Consume? && e.stored.Some? {
      var m := MatchLine(Server, line).value;
      assert e.stored.value == Trim(m.value);
    }
  }

  lemma LambdaStoredShape(line: string)
    ensures var e := LineEffect(Lambda, line); e.Consume? && e.stored.Some? ==> StoredShape(Lambda, e.stored.value)
  {
    if MatchLine(Lambda, line).Some? {
      var c, a, l, j, n := MatchSound(Lambda, line);
      var s := line[c + 1..];
      var value := s[j..j + n];
      forall i | 0 <= i < |value| ensures !IsLineTerminator(value[i]) {
        assert value[i] == s[j + i];
      }
      assert LineEffect(Lambda, line).Consume? ==> LineEffect(Lambda, line).stored == Some(value);
    }
  }

  lemma {:induction false} LastStoreShape(v: Variant, es: seq<Effect>, f: Field)
    requires forall i :: 0 <= i < |es| ==> es[i].Consume? && es[i].stored.Some? ==> StoredShape(v, es[i].stored.value)
    ensures LastStore(es, f).Some? ==> StoredShape(v, LastStore(es, f).value)
    decreases |es|
  {
    if es != [] {
      LastStoreShape(v, es[..|es| - 1], f);
    }
  }

  /** Every value in an extracted context has the shape of its variant: on the server,
      trimmed and non-empty. */
  lemma ContextShape(v: Variant, raw: string, f: Field)
    ensures var e := Extract(v, raw); f in e.ctx ==> StoredShape(v, e.ctx[f])
  {
    var lines := SplitLines(raw);
    var es := Effects(v, lines);
    forall i | 0 <= i < |es| ensures es[i].Consume? && es[i].stored.Some? ==> StoredShape(v, es[i].stored.value) {
      LineEffectShape(v, lines[i]);
    }
    LastStoreShape(v, es, f);
    var e := Extract(v, raw);
    assert Lookup(e.ctx, f) == LastStored(v, lines, f);
  }

  /** `LastStore` is the value of the last effect that stores into the field, and `None`
      exactly when no effect does: a later label line for a field overwrites an earlier one. */
  lemma {:induction false} LastStoreIsLast(es: seq<Effect>, f: Field)
    ensures LastStore(es, f).Some? ==>
      exists i :: (0 <= i < |es| && StoresInto(es[i], f) && es[i].stored == LastStore(es, f)
        && forall k :: i < k < |es| ==> !StoresInto(es[k], f))
    ensures LastStore(es, f).None? <==> forall i :: 0 <= i < |es| ==> !StoresInto(es[i], f)
    decreases |es|
  {
    if es != [] {
      var init := es[..|es| - 1];
      LastStoreIsLast(init, f);
      if !StoresInto(es[|es| - 1], f) && LastStore(init, f).Some? {
        var i :| 0 <= i < |init| && StoresInto(init[i], f)
          && init[i].stored == LastStore(init, f) && forall k :: i < k < |init| ==> !StoresInto(init[k], f);
        assert es[i] == init[i];
      }
      if LastStore(es, f).None? {
        forall i | 0 <= i < |es| ensures !StoresInto(es[i], f) {
          if i < |init| { assert es[i] == init[i]; }
        }
      }
    }
  }

  /** Kept lines of a concatenation: the kept lines of each part, in order. */
  lemma {:induction false} KeptAppend(l1: seq<string>, e1: seq<Effect>, l2: seq<string>, e2: seq<Effect>)
    requires |e1| == |l1| && |e2| == |l2|
    ensures Kept(l1 + l2, e1 + e2) == Kept(l1, e1) + Kept(l2, e2)
    decreases |l2|
  {
    if l2 == [] {
      assert l1 + l2 == l1 && e1 + e2 == e1;
    } else {
      var n := |l2| - 1;
      KeptAppend(l1, e1, l2[..n], e2[..n]);
      assert (l1 + l2)[..|l1 + l2| - 1] == l1 + l2[..n];
      assert (e1 + e2)[..|e1 + e2| - 1] == e1 + e2[..n];
    }
  }

  /** The text before the line's first colon; the whole line when it has none. */
  function BeforeColon(line: string): string {
    line[..IndexOf(line, ':')]
  }

  /** The text after the line's first colon. */
  function AfterColon(line: string): string
    requires ':' in line
  {
    line[IndexOf(line, ':') + 1..]
  }

  /** What the part of the pattern after the colon needs, without the pattern: a character
      other than a line terminator, and no line terminator in the trimmed text. */
  predicate ValueFits(s: string) {
    (exists i :: 0 <= i < |s| && !IsLineTerminator(s[i])) && NoTerminator(Trim(s))
  }

  lemma SplitFits(s: string, j: nat, n: nat)
    requires SuffixSplit(s, j, n)
    ensures ValueFits(s)
    ensures Trim(s[j..j + n]) == Trim(s)
  {
    var value := s[j..j + n];
    assert s == s[..j] + value + s[j + n..];
    TrimPadded(s[..j], value, s[j + n..]);
    assert NoTerminator(value);
    TrimKeepsNoTerminator(value);
    assert !IsLineTerminator(s[j]);
  }

  lemma TrimKeepsNoTerminator(value: string)
    requires NoTerminator(value)
    ensures NoTerminator(Trim(value))
  {
    var k := LeadingSpace(value);
    NoTerminatorSlice(value, k, k + |Trim(value)|);
  }

  lemma NoTerminatorSlice(s: string, a: nat, b: nat)
    requires NoTerminator(s) && a <= b <= |s|
    ensures NoTerminator(s[a..b])
  {
    var t := s[a..b];
    forall i | 0 <= i < |t| ensures !IsLineTerminator(t[i]) {
      assert t[i] == s[a + i];
    }
  }

  lemma FitsSplit(s: string) returns (j: nat, n: nat)
    requires ValueFits(s)
    ensures SuffixSplit(s, j, n)
  {
    var t := Trim(s);
    if t != [] {
      j, n := LeadingSpace(s), |t|;
      forall i | j <= i < j + n ensures !IsLineTerminator(s[i]) {
        assert s[i] == t[i - j];
      }
    } else {
      TrimEmptyIffBlank(s);
      var i :| 0 <= i < |s| && !IsLineTerminator(s[i]);
      j, n := i, 1;
      assert AllSpace(s[..j]) && AllSpace(s[j + n..]);
    }
  }

  /** The nine server names, and the eight lambda names, are 2 to 9 lower-case letters. */
  lemma KeyNameShape(f: Field)
    ensures 2 <= |KeyName(f)| <= 9
    ensures forall i :: 0 <= i < |KeyName(f)| ==> IsAsciiLower(KeyName(f)[i])
  {
  }

  /** Text that lower-cases to lower-case letters is made of letters. */
  lemma LowerLetters(t: string)
    requires forall i :: 0 <= i < |Lower(t)| ==> IsAsciiLower(Lower(t)[i])
    ensures Letters(t)
  {
    forall i | 0 <= i < |t| ensures IsAsciiLetter(t[i]) {
      assert Lower(t)[i] == LowerChar(t[i]);
    }
  }

  /** On the server the captured label, once trimmed, is the trimmed text before the colon,
      whatever split the engine reports. */
  lemma ServerLabelTrim(p: string, a: nat, l: nat)
    requires PrefixSplit(Server, p, a, l)
    ensures Trim(p[a..a + l]) == Trim(p)
  {
    assert p == p[..a] + p[a..a + l] + p[a + l..];
    TrimPadded(p[..a], p[a..a + l], p[a + l..]);
  }

  /** A label of letters only: the trimmed text before the colon, when it is letters only,
      is a label the pattern can capture. */
  lemma TrimSplit(v: Variant, p: string)
    requires 2 <= |Trim(p)| <= 9 && Letters(Trim(p))
    ensures PrefixSplit(v, p, LeadingSpace(p), |Trim(p)|)
  {
    var t := Trim(p);
    var a := LeadingSpace(p);
    assert p[a..a + |t|] == t;
  }

  /** When the trimmed text before the colon is a server name, the label part matches. */
  lemma ServerLabelFits(p: string)
    requires ServerKey(Lower(Trim(p))).Some?
    ensures PrefixSplit(Server, p, LeadingSpace(p), |Trim(p)|)
  {
    var t := Trim(p);
    var k := Lower(t);
    if k == "to" {
      assert forall i :: 0 <= i < |k| ==> IsAsciiLower(k[i]);
    } else {
      KeyNameShape(ServerKey(k).value);
    }
    LowerLetters(t);
    TrimSplit(Server, p);
  }

  /** The server's treatment of one line, stated without the pattern: a line is consumed
      exactly when it has a colon, the trimmed, lower-cased text before the first colon is one of
      the nine names, and the text after it can form a value; the value stored is that text
      trimmed, and nothing is stored when it is blank. */
  function ServerEffect(line: string): Effect {
    if ':' !in line then Keep
    else
      match ServerKey(Lower(Trim(BeforeColon(line))))
      case None => Keep
      case Some(f) =>
        var value := Trim(AfterColon(line));
        if !ValueFits(AfterColon(line)) then Keep
        else Consume(f, if value == [] then None else Some(value))
  }

  lemma ServerMatched(line: string)
    requires MatchLine(Server, line).Some?
    ensures LineEffect(Server, line) == ServerEffect(line)
  {
    var c, a, l, j, n := MatchSound(Server, line);
    assert ':' in line;
    var p := line[..c];
    var s := line[c + 1..];
    assert BeforeColon(line) == p && AfterColon(line) == s;
    ServerLabelTrim(p, a, l);
    SplitFits(s, j, n);
    ServerEffectOfMatch(line, MatchLine(Server, line).value);
  }

  /** A match whose key and value trim like the text around the colon has the effect the
      server's description gives. */
  lemma ServerEffectOfMatch(line: string, m: Match)
    requires MatchLine(Server, line) == Some(m) && ':' in line
    requires Trim(m.key) == Trim(BeforeColon(line)) && Trim(m.value) == Trim(AfterColon(line))
    requires ValueFits(AfterColon(line))
    ensures LineEffect(Server, line) == ServerEffect(line)
  {
  }

  lemma ServerUnmatched(line: string)
    requires MatchLine(Server, line).None?
    ensures ServerEffect(line) == Keep
  {
    if ServerEffect(line).Consume? {
      ServerConsumedMatches(line);
    }
  }

  /** A line the server's description consumes is one its pattern matches. */
  lemma ServerConsumedMatches(line: string)
    requires ServerEffect(line).Consume?
    ensures MatchLine(Server, line).Some?
  {
    assert ':' in line;
    var c := IndexOf(line, ':');
    var p := line[..c];
    var s := line[c + 1..];
    assert BeforeColon(line) == p && AfterColon(line) == s;
    assert ServerKey(Lower(Trim(p))).Some?;
    ServerLabelFits(p);
    assert ValueFits(s);
    var j, n := FitsSplit(s);
    MatchComplete(Server, line, c, LeadingSpace(p), |Trim(p)|, j, n);
  }

  /** The server's line treatment agrees with its pattern-free description. */
  lemma ServerLineEffect(line: string)
    ensures LineEffect(Server, line) == ServerEffect(line)
  {
    if MatchLine(Server, line).Some? {
      ServerMatched(line);
    } else {
      ServerUnmatched(line);
    }
  }

  /** The index of the last character of `s` that is not a line terminator. */
  function LastUsable(s: string): (k: nat)
    requires exists i :: 0 <= i < |s| && !IsLineTerminator(s[i])
    ensures k < |s| && !IsLineTerminator(s[k])
    ensures forall i :: k < i < |s| ==> IsLineTerminator(s[i])
    decreases |s|
  {
    var last := |s| - 1;
    if !IsLineTerminator(s[last]) then last
    else
      assert exists i :: 0 <= i < last && !IsLineTerminator(s[..last][i]) by {
        var i :| 0 <= i < |s| && !IsLineTerminator(s[i]);
        assert s[..last][i] == s[i];
      }
      var k := LastUsable(s[..last]);
      assert s[k] == s[..last][k];
      assert forall i :: k < i < last ==> s[i] == s[..last][i];
      k
  }

  /** The value the lambda's lazy group captures from the text after the colon: the trimmed
      text, or, when that text is all white space, its last character that is not a line
      terminator. */
  function LambdaValue(s: string): string
    requires ValueFits(s)
  {
    if Trim(s) != [] then Trim(s) else [s[LastUsable(s)]]
  }

  /** A suffix split never starts its value after the leading white space. */
  lemma SplitStart(s: string, j: nat, n: nat)
    requires SuffixSplit(s, j, n)
    ensures j <= LeadingSpace(s)
  {
    forall i | 0 <= i < j ensures IsSpace(s[i]) {
      assert s[..j][i] == s[i];
    }
  }

  /** A suffix split's value reaches at least to the end of the trimmed text. */
  lemma SplitCoversTrim(s: string, j: nat, n: nat)
    requires SuffixSplit(s, j, n) && Trim(s) != []
    ensures j + n >= LeadingSpace(s) + |Trim(s)|
  {
    var t := Trim(s);
    var x := LeadingSpace(s) + |t| - 1;
    assert s[x] == t[|t| - 1];
  }

  lemma LambdaValueFirstTrimmed(s: string, j: nat, n: nat)
    requires SuffixSplit(s, j, n) && Trim(s) != []
    requires forall j', n' :: SuffixEarlier(j', n', j, n) ==> !SuffixSplit(s, j', n')
    ensures ValueFits(s) && s[j..j + n] == Trim(s)
  {
    SplitFits(s, j, n);
    TrimIsSplit(s);
    TrimmedFirstIs(s, j, n);
  }

  /** Text whose trimmed part holds no line terminator splits around that part. */
  lemma TrimIsSplit(s: string)
    requires Trim(s) != [] && NoTerminator(Trim(s))
    ensures SuffixSplit(s, LeadingSpace(s), |Trim(s)|)
  {
    var t := Trim(s);
    var k := LeadingSpace(s);
    forall i | k <= i < k + |t| ensures !IsLineTerminator(s[i]) {
      assert s[i] == t[i - k];
    }
  }

  lemma TrimmedFirstIs(s: string, j: nat, n: nat)
    requires SuffixSplit(s, j, n) && Trim(s) != []
    requires !SuffixEarlier(LeadingSpace(s), |Trim(s)|, j, n)
    ensures s[j..j + n] == Trim(s)
  {
    SplitStart(s, j, n);
    SplitCoversTrim(s, j, n);
  }

  /** In blank text, any character other than a line terminator can be the whole value. */
  lemma BlankSplit(s: string, i: nat)
    requires AllSpace(s) && i < |s| && !IsLineTerminator(s[i])
    ensures SuffixSplit(s, i, 1)
  {
    assert AllSpace(s[..i]) && AllSpace(s[i + 1..]);
  }

  /** A value starts at a character other than a line terminator. */
  lemma SplitStartsUsable(s: string, j: nat, n: nat)
    requires SuffixSplit(s, j, n)
    ensures j < |s| && !IsLineTerminator(s[j])
  {
  }

  lemma LambdaValueFirstBlank(s: string, j: nat, n: nat)
    requires SuffixSplit(s, j, n) && Trim(s) == []
    requires forall j', n' :: SuffixEarlier(j', n', j, n) ==> !SuffixSplit(s, j', n')
    ensures ValueFits(s) && s[j..j + n] == [s[LastUsable(s)]]
  {
    SplitFits(s, j, n);
    var last := LastUsable(s);
    TrimEmptyIffBlank(s);
    BlankSplit(s, last);
    BlankFirstIs(s, j, n, last);
  }

  lemma BlankFirstIs(s: string, j: nat, n: nat, last: nat)
    requires SuffixSplit(s, j, n) && last < |s|
    requires forall i :: last < i < |s| ==> IsLineTerminator(s[i])
    requires !SuffixEarlier(last, 1, j, n)
    ensures s[j..j + n] == [s[last]]
  {
    SplitStartsUsable(s, j, n);
    assert j == last && n == 1;
  }

  /** The first suffix split the engine finds captures `LambdaValue`. */
  lemma LambdaValueFirst(s: string, j: nat, n: nat)
    requires SuffixSplit(s, j, n)
    requires forall j', n' :: SuffixEarlier(j', n', j, n) ==> !SuffixSplit(s, j', n')
    ensures ValueFits(s) && s[j..j + n] == LambdaValue(s)
  {
    if Trim(s) != [] {
      LambdaValueFirstTrimmed(s, j, n);
    } else {
      LambdaValueFirstBlank(s, j, n);
    }
  }

  /** Lambda: the text before the colon names a field the lambda reads when its trimmed,
      lower-cased text is one of the eight names and the character right after that name
      is not a space (the label's class holds spaces, so the greedy label would take it). */
  predicate LambdaLabelFits(p: string) {
    var rest := TrailingSpace(p);
    LambdaKey(Lower(Trim(p))).Some? && (rest == [] || rest[0] != ' ')
  }

  /** A label that lower-cases to a field name is letters only, so it is its own trim. */
  lemma NamedLabel(key: string)
    requires LambdaKey(Lower(key)).Some?
    ensures 2 <= |key| <= 9 && Letters(key)
  {
    KeyNameShape(LambdaKey(Lower(key)).value);
    LowerLetters(key);
  }

  /** A label of letters only starts where the leading white space ends and is the
      trimmed text before the colon. */
  lemma LetterLabelIsTrim(v: Variant, p: string, a: nat, l: nat)
    requires PrefixSplit(v, p, a, l)
    requires Letters(p[a..a + l])
    ensures a == LeadingSpace(p) && p[a..a + l] == Trim(p)
  {
    var key := p[a..a + l];
    assert p[a] == key[0];
    LeadingSpaceIs(p, a);
    assert p == p[..a] + key + p[a + l..];
    TrimOfPadded(p[..a], key, p[a + l..]);
  }

  /** A space right after the label can join it, while the label has room. */
  lemma SpaceExtends(p: string, a: nat, l: nat)
    requires PrefixSplit(Lambda, p, a, l) && l < MaxLabel(Lambda)
    requires a + l < |p| && p[a + l] == ' '
    ensures PrefixSplit(Lambda, p, a, l + 1)
  {
    assert p[a..a + l + 1] == p[a..a + l] + [' '];
    assert p[a + l + 1..] == p[a + l..][1..];
  }

  /** A first prefix split whose label is a field name captures the trimmed text, and no space
      follows it. */
  lemma LambdaNamedFirst(p: string, a: nat, l: nat)
    requires PrefixSplit(Lambda, p, a, l) && LambdaKey(Lower(p[a..a + l])).Some?
    requires forall a', l' :: PrefixEarlier(a', l', a, l) ==> !PrefixSplit(Lambda, p, a', l')
    ensures p[a..a + l] == Trim(p) && LambdaLabelFits(p)
  {
    NamedLabel(p[a..a + l]);
    LetterLabelIsTrim(Lambda, p, a, l);
    if a + l < |p| && p[a + l] == ' ' {
      SpaceExtends(p, a, l);
    }
    assert p[a + l..] == [] || p[a + l..][0] == p[a + l];
  }

  /** White space inside a label can only be a space. */
  lemma LabelSpace(v: Variant, c: char)
    requires LabelChar(v, c) && IsSpace(c)
    ensures c == ' '
  {
  }

  /** When the text before the colon fits, the first prefix split captures its trimmed text. */
  lemma LambdaFitsFirst(p: string, a: nat, l: nat)
    requires PrefixSplit(Lambda, p, a, l) && LambdaLabelFits(p)
    requires forall a', l' :: PrefixEarlier(a', l', a, l) ==> !PrefixSplit(Lambda, p, a', l')
    ensures p[a..a + l] == Trim(p)
  {
    NamedLabel(Trim(p));
    TrimSplit(Lambda, p);
    FitsFirstIs(p, a, l);
  }

  lemma FitsFirstIs(p: string, a: nat, l: nat)
    requires PrefixSplit(Lambda, p, a, l) && LambdaLabelFits(p) && Trim(p) != []
    requires !PrefixEarlier(LeadingSpace(p), |Trim(p)|, a, l)
    ensures p[a..a + l] == Trim(p)
  {
    var t := Trim(p);
    var k := LeadingSpace(p);
    PrefixStart(Lambda, p, a, l);
    assert a == k && l >= |t|;
    if l > |t| {
      LabelThenSpace(p, a, l, |t|);
    }
  }

  /** A prefix split never starts its label after the leading white space. */
  lemma PrefixStart(v: Variant, p: string, a: nat, l: nat)
    requires PrefixSplit(v, p, a, l)
    ensures a <= LeadingSpace(p)
  {
  }

  /** A character inside a label that is also in the white space after the trimmed text is a space. */
  lemma LabelThenSpace(p: string, a: nat, l: nat, m: nat)
    requires PrefixSplit(Lambda, p, a, l) && m < l && a + m <= |p| && AllSpace(p[a + m..])
    ensures p[a + m] == ' '
  {
    var c := p[a + m];
    assert c == p[a..a + l][m];
    assert c == p[a + m..][0];
    LabelSpace(Lambda, c);
  }

  /** The label at the first prefix split names a field exactly when `LambdaLabelFits`, and
      is then the trimmed text before the colon. */
  lemma LambdaLabelFirst(p: string, a: nat, l: nat)
    requires PrefixSplit(Lambda, p, a, l)
    requires forall a', l' :: PrefixEarlier(a', l', a, l) ==> !PrefixSplit(Lambda, p, a', l')
    ensures LambdaKey(Lower(p[a..a + l])).Some? <==> LambdaLabelFits(p)
    ensures LambdaKey(Lower(p[a..a + l])).Some? ==> p[a..a + l] == Trim(p)
  {
    if LambdaKey(Lower(p[a..a + l])).Some? {
      LambdaNamedFirst(p, a, l);
    } else if LambdaLabelFits(p) {
      LambdaFitsFirst(p, a, l);
    }
  }

  /** The lambda's treatment of one line, stated without the pattern: a line is consumed
      exactly when it has a colon, the text before the first colon fits `LambdaLabelFits`,
      and the text after it can form a value; the value stored is `LambdaValue` of that text. */
  function LambdaEffect(line: string): Effect {
    if ':' !in line then Keep
    else
      match LambdaKey(Lower(Trim(BeforeColon(line))))
      case None => Keep
      case Some(f) =>
        if !LambdaLabelFits(BeforeColon(line)) || !ValueFits(AfterColon(line)) then Keep
        else Consume(f, Some(LambdaValue(AfterColon(line))))
  }

  lemma LambdaMatched(line: string)
    requires MatchLine(Lambda, line).Some?
    ensures LineEffect(Lambda, line) == LambdaEffect(line)
  {
    var c, a, l, j, n := MatchSound(Lambda, line);
    assert ':' in line;
    var p := line[..c];
    var s := line[c + 1..];
    assert BeforeColon(line) == p && AfterColon(line) == s;
    LambdaLabelFirst(p, a, l);
    LambdaValueFirst(s, j, n);
  }

  lemma LambdaUnmatched(line: string)
    requires MatchLine(Lambda, line).None?
    ensures LambdaEffect(line) == Keep
  {
    if LambdaEffect(line).Consume? {
      LambdaConsumedMatches(line);
    }
  }

  /** A line the lambda's description consumes is one its pattern matches. */
  lemma LambdaConsumedMatches(line: string)
    requires LambdaEffect(line).Consume?
    ensures MatchLine(Lambda, line).Some?
  {
    assert ':' in line;
    var c := IndexOf(line, ':');
    var p := line[..c];
    var s := line[c + 1..];
    assert BeforeColon(line) == p && AfterColon(line) == s;
    assert LambdaKey(Lower(Trim(p))).Some?;
    NamedLabel(Trim(p));
    TrimSplit(Lambda, p);
    assert ValueFits(s);
    var j, n := FitsSplit(s);
    MatchComplete(Lambda, line, c, LeadingSpace(p), |Trim(p)|, j, n);
  }

  /** The lambda's line treatment agrees with its pattern-free description. */
  lemma LambdaLineEffect(line: string)
    ensures LineEffect(Lambda, line) == LambdaEffect(line)
  {
    if MatchLine(Lambda, line).Some? {
      LambdaMatched(line);
    } else {
      LambdaUnmatched(line);
    }
  }

  lemma RoleLineColon()
    ensures ':' in "Role : X" && BeforeColon("Role : X") == "Role " && AfterColon("Role : X") == " X"
  {
    IndexOfIs("Role : X", ':', 5);
  }

  lemma RoleLineLabel()
    ensures Trim("Role ") == "Role" && Lower("Role") == "role" && ServerKey("role") == LambdaKey("role") == Some(Role)
  {
    TrimAt("Role ", 0, 4);
    assert "Role "[0..4] == "Role";
    LowerIs("Role", "role");
  }

  /** A space then one visible character trims to that character, and is a value. */
  lemma SpaceThenChar(c: char)
    requires !IsSpace(c)
    ensures Trim([' ', c]) == [c] && ValueFits([' ', c])
  {
    var s: string := [' ', c];
    var w: string := [' '];
    var e: string := [];
    assert s[..1] == w && s[2..] == e;
    assert AllSpace(w) && AllSpace(e);
    TrimAt(s, 1, 2);
    assert s[1..2] == [c];
    assert !IsLineTerminator(s[1]);
  }

  lemma RoleLineValue()
    ensures Trim(" X") == "X" && ValueFits(" X")
  {
    assert " X" == [' ', 'X'];
    SpaceThenChar('X');
  }

  lemma RoleLineParts()
    ensures ':' in "Role : X" && BeforeColon("Role : X") == "Role " && AfterColon("Role : X") == " X"
    ensures Trim("Role ") == "Role" && Lower("Role") == "role" && ServerKey("role") == LambdaKey("role") == Some(Role)
    ensures Trim(" X") == "X" && ValueFits(" X")
  {
    RoleLineColon();
    RoleLineLabel();
    RoleLineValue();
  }

  lemma ToLineColon()
    ensures ':' in "To: Y" && BeforeColon("To: Y") == "To" && AfterColon("To: Y") == " Y"
  {
    IndexOfIs("To: Y", ':', 2);
  }

  lemma ToLineLabel()
    ensures Trim("To") == "To" && Lower("To") == "to" && ServerKey("to") == Some(Recipient) && LambdaKey("to") == None
  {
    TrimAt("To", 0, 2);
    assert "To"[0..2] == "To";
    LowerIs("To", "to");
  }

  lemma ToLineValue()
    ensures Trim(" Y") == "Y" && ValueFits(" Y")
  {
    assert " Y" == [' ', 'Y'];
    SpaceThenChar('Y');
  }

  lemma ToLineParts()
    ensures ':' in "To: Y" && BeforeColon("To: Y") == "To" && AfterColon("To: Y") == " Y"
    ensures Trim("To") == "To" && Lower("To") == "to" && ServerKey("to") == Some(Recipient) && LambdaKey("to") == None
    ensures Trim(" Y") == "Y" && ValueFits(" Y")
  {
    ToLineColon();
    ToLineLabel();
    ToLineValue();
  }

  /** The server trims a spaced label before the lookup. */
  lemma ServerSpacedLabel()
    ensures LineEffect(Server, "Role : X") == Consume(Role, Some("X"))
  {
    RoleLineParts();
    ServerLineEffect("Role : X");
  }

  /** The lambda's greedy label takes the space before the colon, so the label is not a name
      and the line stays in the task. */
  lemma LambdaSpacedLabel()
    ensures LineEffect(Lambda, "Role : X") == Keep
  {
    RoleLineColon();
    RoleLabelSpaced();
    LambdaLineEffect("Role : X");
  }

  /** The space between "Role" and the colon is left outside the lambda's label. */
  lemma RoleLabelSpaced()
    ensures !LambdaLabelFits("Role ")
  {
    var p: string := "Role ";
    var e: string := [];
    RoleLineLabel();
    assert p[..0] == e;
    LeadingSpaceIs(p, 0);
    assert p[4..][0] == ' ';
  }

  /** The server reads `To:` as the recipient. */
  lemma ServerToAlias()
    ensures LineEffect(Server, "To: Y") == Consume(Recipient, Some("Y"))
  {
    ToLineParts();
    ServerLineEffect("To: Y");
  }

  /** The lambda has no `to` alias: the line stays in the task. */
  lemma LambdaNoToAlias()
    ensures LineEffect(Lambda, "To: Y") == Keep
  {
    ToLineParts();
    LambdaLineEffect("To: Y");
  }

  lemma BlankLineColon()
    ensures ':' in "Role: " && BeforeColon("Role: ") == "Role" && AfterColon("Role: ") == " "
  {
    IndexOfIs("Role: ", ':', 4);
  }

  lemma BlankLineLabel()
    ensures Trim("Role") == "Role" && Lower("Role") == "role" && LambdaKey("role") == Some(Role)
    ensures LeadingSpace("Role") == 0
  {
    TrimAt("Role", 0, 4);
    assert "Role"[0..4] == "Role";
    LowerIs("Role", "role");
  }

  lemma BlankLineValue()
    ensures Trim(" ") == [] && ValueFits(" ") && LastUsable(" ") == 0
  {
    TrimEmptyIffBlank(" ");
    assert !IsLineTerminator(" "[0]);
  }

  lemma BlankLineParts()
    ensures ':' in "Role: " && BeforeColon("Role: ") == "Role" && AfterColon("Role: ") == " "
    ensures Trim("Role") == "Role" && Lower("Role") == "role" && LambdaKey("role") == Some(Role)
    ensures LeadingSpace("Role") == 0
    ensures Trim(" ") == [] && ValueFits(" ") && LastUsable(" ") == 0
  {
    BlankLineColon();
    BlankLineLabel();
    BlankLineValue();
  }

  /** The lambda stores a blank value as its last character: `Role:` followed by a space
      stores a single space as the role. */
  lemma LambdaBlankValue()
    ensures LineEffect(Lambda, "Role: ") == Consume(Role, Some(" "))
  {
    BlankLineParts();
    LambdaLineEffect("Role: ");
  }
}
