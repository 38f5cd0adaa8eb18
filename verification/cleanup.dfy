/** The defensive cleanup both backend variants apply to the model's text: horizontal rules
    in emails, and label headings in general chat. */
module Cleanup {
  import opened Text
  import opened JsValue
  import opened HeadingPattern
  import opened HeadingFree

  /** A horizontal rule on a line of its own, with the line feeds around it. */
  const Rule: string := "\n---\n"

  /** `replace(/\n---\n/g, "\n\n")`: scanning from the left, every rule not overlapping an
      earlier replaced one becomes an empty line. */
  function ReplaceRules(s: string): (r: string)
    ensures |r| <= |s| && (|s| - |r|) % 3 == 0
    decreases |s|
  {
    if |s| < |Rule| then s
    else if s[..|Rule|] == Rule then "\n\n" + ReplaceRules(s[|Rule|..])
    else [s[0]] + ReplaceRules(s[1..])
  }

  /** The replacement changes the length of a text exactly when the text holds a rule. */
  lemma {:induction false} RulesShorten(s: string)
    ensures |ReplaceRules(s)| == |s| <==> !Contains(s, Rule)
    decreases |s|
  {
    if !Contains(s, Rule) {
      NoRuleNoChange(s);
    } else if s[..|Rule|] == Rule {
      assert |ReplaceRules(s)| == 2 + |ReplaceRules(s[|Rule|..])|;
    } else {
      ContainsStep(s, Rule);
      RulesShorten(s[1..]);
    }
  }

  /** Text occurs in a string exactly when it opens the string or occurs after its first
      character. */
  lemma ContainsStep(s: string, needle: string)
    requires |needle| <= |s| && needle != []
    ensures Contains(s, needle) <==> OccursAt(s, needle, 0) || Contains(s[1..], needle)
  {
    if Contains(s, needle) && !OccursAt(s, needle, 0) {
      var i :| 0 <= i <= |s| - |needle| && OccursAt(s, needle, i);
      assert s[1..][i - 1..i - 1 + |needle|] == s[i..i + |needle|];
      assert OccursAt(s[1..], needle, i - 1);
    }
    if Contains(s[1..], needle) {
      var i :| 0 <= i <= |s[1..]| - |needle| && OccursAt(s[1..], needle, i);
      assert s[1..][i..i + |needle|] == s[i + 1..i + 1 + |needle|];
      assert OccursAt(s, needle, i + 1);
    }
  }

  /** The email cleanup: rules replaced, runs of line feeds collapsed, white space trimmed. */
  function EmailClean(s: string): (r: string)
    ensures IsTrimmed(r) && NoTripleNewline(r)
  {
    var c := CollapseNewlines(ReplaceRules(s));
    TrimNoTriple(c);
    Trim(c)
  }

  /** The part both general-chat cleanups end with: headings removed anywhere, runs of line
      feeds collapsed, white space trimmed. No heading is left for another removal to find. */
  function Tidy(s: string): (r: string)
    ensures IsTrimmed(r) && NoTripleNewline(r)
    ensures MatchFree(SectionHeading, r) && RemoveMatches(SectionHeading, r) == r
  {
    var m := RemoveMatches(SectionHeading, s);
    var c := CollapseNewlines(m);
    TrimNoTriple(c);
    RemovedFree(s);
    CollapseFree(m);
    TrimFree(c);
    FreeUnchanged(SectionHeading, Trim(c));
    Trim(c)
  }

  /** Whether the server drops the first line: there are at least two lines and the first one,
      trimmed, is a label heading on its own. */
  predicate DropsFirstLine(lines: seq<string>) {
    |lines| >= 2 && MatchAt(FirstLineLabel, Trim(lines[0]), 0).Some?
  }

  /** The server's `cleanGeneralOutput`: anything but a string is returned as it is; a string
      is trimmed, loses a label first line, and is tidied. */
  function ServerClean(output: Value): (r: Value)
    ensures !output.Str? ==> r == output
    ensures output.Str? ==> r.Str? && IsTrimmed(r.s) && NoTripleNewline(r.s)
    ensures output.Str? ==> MatchFree(SectionHeading, r.s)
    ensures output.Str? ==> RemoveMatches(SectionHeading, r.s) == r.s
  {
    if !output.Str? then output
    else
      var s := Trim(output.s);
      var lines := SplitLines(s);
      var kept := if DropsFirstLine(lines) then Trim(Join(lines[1..], "\n")) else s;
      Str(Tidy(kept))
  }

  /** The lambda's `cleanGeneralOutput`: the output as a string (`""` for a falsy one), greeting
      labels removed and the result trimmed, then tidied. */
  function LambdaClean(output: Value): (r: string)
    ensures IsTrimmed(r) && NoTripleNewline(r)
    ensures MatchFree(SectionHeading, r) && RemoveMatches(SectionHeading, r) == r
    ensures !Truthy(output) ==> r == ""
  {
    var s := ToJsString(Or(output, Str("")));
    FalsyAsEmpty(output);
    EmptyCleansEmpty();
    Tidy(Trim(RemoveMatches(GreetingLabel, s)))
  }

  /** The empty text stays empty through every step of the lambda's cleanup. */
  lemma EmptyCleansEmpty()
    ensures Tidy(Trim(RemoveMatches(GreetingLabel, ""))) == ""
  {
    assert RemoveMatches(GreetingLabel, "") == "";
    assert RemoveMatches(SectionHeading, "") == "";
  }

  /** A part of a text without three line feeds in a row has none either. */
  lemma NoTripleSlice(s: string, a: nat, b: nat)
    requires a <= b <= |s| && NoTripleNewline(s)
    ensures NoTripleNewline(s[a..b])
  {
    var t := s[a..b];
    forall i | 0 <= i < |t| - 2 ensures !(t[i] == '\n' && t[i + 1] == '\n' && t[i + 2] == '\n') {
      assert t[i] == s[a + i] && t[i + 1] == s[a + i + 1] && t[i + 2] == s[a + i + 2];
    }
  }

  /** Trimming keeps a text free of three line feeds in a row. */
  lemma TrimNoTriple(s: string)
    requires NoTripleNewline(s)
    ensures NoTripleNewline(Trim(s))
  {
    NoTripleSlice(s, LeadingSpace(s), LeadingSpace(s) + |Trim(s)|);
  }

  /** Collapsing leaves a text without three line feeds in a row as it is. */
  lemma {:induction false} CollapseKeeps(s: string)
    requires NoTripleNewline(s)
    ensures CollapseNewlines(s) == s
    decreases |s|
  {
    if s != [] {
      var n := NewlineRun(s);
      if n == 0 {
        NoTripleSlice(s, 1, |s|);
        CollapseKeeps(s[1..]);
        assert s == [s[0]] + s[1..];
      } else {
        if |s| >= 3 {
          assert !(s[0] == '\n' && s[1] == '\n' && s[2] == '\n');
        }
        NoTripleSlice(s, n, |s|);
        CollapseKeeps(s[n..]);
        assert s == s[..n] + s[n..];
      }
    }
  }

  /** A text with no rule in it goes through the rule replacement unchanged. */
  lemma {:induction false} NoRuleNoChange(s: string)
    requires !Contains(s, Rule)
    ensures ReplaceRules(s) == s
    decreases |s|
  {
    if |s| >= |Rule| {
      assert !OccursAt(s, Rule, 0);
      assert !Contains(s[1..], Rule) by {
        forall i | 0 <= i <= |s[1..]| - |Rule| ensures !OccursAt(s[1..], Rule, i) {
          assert !OccursAt(s, Rule, i + 1);
          assert s[1..][i..i + |Rule|] == s[i + 1..i + 1 + |Rule|];
        }
      }
      NoRuleNoChange(s[1..]);
      assert s == [s[0]] + s[1..];
    }
  }

  /** An email that is already tidy (trimmed, no rule, no three line feeds in a row) is left
      exactly as it is. */
  lemma EmailCleanKeepsTidy(s: string)
    requires IsTrimmed(s) && NoTripleNewline(s) && !Contains(s, Rule)
    ensures EmailClean(s) == s
  {
    NoRuleNoChange(s);
    CollapseKeeps(s);
    TrimOfTrimmed(s);
  }

  /** Two rules in a row share the line feed between them, so the scan replaces only the
      first: one rule survives the cleanup, and cleaning again removes it. The email cleanup
      is therefore not idempotent. */
  lemma AdjacentRules()
    ensures EmailClean("a\n---\n---\nb") == "a\n\n---\nb"
    ensures EmailClean("a\n\n---\nb") == "a\n\nb"
  {
    FirstClean();
    SecondClean();
  }

  lemma FirstClean()
    ensures EmailClean("a\n---\n---\nb") == "a\n\n---\nb"
  {
    var once := "a\n\n---\nb";
    FirstPass();
    NoTripleLiteral();
    CollapseKeeps(once);
    assert CollapseNewlines(ReplaceRules("a\n---\n---\nb")) == once;
    FramedTrimmed(once);
    TrimOfTrimmed(once);
  }

  lemma SecondClean()
    ensures EmailClean("a\n\n---\nb") == "a\n\nb"
  {
    var twice := "a\n\nb";
    SecondPass();
    CollapseSample();
    FramedTrimmed(twice);
    TrimOfTrimmed(twice);
  }

  lemma FirstPass()
    ensures ReplaceRules("a\n---\n---\nb") == "a\n\n---\nb"
  {
    assert ReplaceRules("--\nb") == "--\nb";
    assert ReplaceRules("---\nb") == "---\nb";
    assert ReplaceRules("\n---\n---\nb") == "\n\n---\nb";
  }

  lemma SecondPass()
    ensures ReplaceRules("a\n\n---\nb") == "a\n\n\nb"
  {
    assert ReplaceRules("b") == "b";
    RuleStep("b");
    assert "\n\n---\nb" == ['\n'] + (Rule + "b");
    NoRuleStep('\n', Rule + "b");
    assert "a\n\n---\nb" == ['a'] + "\n\n---\nb";
    NoRuleStep('a', "\n\n---\nb");
  }

  /** A rule at the start becomes an empty line and the scan goes on after it. */
  lemma RuleStep(t: string)
    ensures ReplaceRules(Rule + t) == "\n\n" + ReplaceRules(t)
  {
    assert (Rule + t)[..|Rule|] == Rule;
    assert (Rule + t)[|Rule|..] == t;
  }

  /** A character that does not open a rule is kept and the scan goes on after it. */
  lemma NoRuleStep(c: char, t: string)
    requires |t| < 4 || c != '\n' || t[0] != '-' || t[1] != '-' || t[2] != '-' || t[3] != '\n'
    ensures ReplaceRules([c] + t) == [c] + ReplaceRules(t)
  {
    if |t| >= 4 {
      NotRuleHead(c, t);
    }
    assert ([c] + t)[1..] == t;
  }

  /** A text whose first five characters differ from a rule's does not open with one. */
  lemma NotRuleHead(c: char, t: string)
    requires |t| >= 4
    requires c != '\n' || t[0] != '-' || t[1] != '-' || t[2] != '-' || t[3] != '\n'
    ensures ([c] + t)[..|Rule|] != Rule
  {
    var h := ([c] + t)[..|Rule|];
    assert h[0] == c && h[1] == t[0] && h[2] == t[1] && h[3] == t[2] && h[4] == t[3];
  }

  /** A text that starts with `a` and ends with `b` is trimmed. */
  lemma FramedTrimmed(s: string)
    requires |s| >= 2 && s[0] == 'a' && s[|s| - 1] == 'b'
    ensures IsTrimmed(s)
  {
  }

  lemma NoTripleLiteral()
    ensures NoTripleNewline("a\n\n---\nb")
  {
    var s := "a\n\n---\nb";
    forall i | 0 <= i < |s| - 2 ensures !(s[i] == '\n' && s[i + 1] == '\n' && s[i + 2] == '\n') {
    }
  }

  lemma CollapseSample()
    ensures CollapseNewlines("a\n\n\nb") == "a\n\nb"
  {
    assert CollapseNewlines("b") == "b";
    assert NewlineRun("\n\n\nb") == 3;
    assert CollapseNewlines("\n\n\nb") == "\n\nb";
  }

  /** None of the words `ws` occurs anywhere in `s`, in any letter case. */
  predicate NoWordOf(s: string, ws: Words) {
    forall y, w :: 0 <= y <= |s| && w in ws ==> !WordAt(s, y, w)
  }

  /** No section word occurs anywhere in `s`. */
  predicate NoHeadingWord(s: string) {
    NoWordOf(s, SectionWords)
  }

  /** A text without the words has none in any of its parts. */
  lemma NoWordSlice(s: string, a: nat, b: nat, ws: Words)
    requires a <= b <= |s| && NoWordOf(s, ws)
    ensures NoWordOf(s[a..b], ws)
  {
    forall y, w | 0 <= y <= b - a && w in ws ensures !WordAt(s[a..b], y, w) {
      if WordAt(s[a..b], y, w) {
        WordAtShift(s, a, b, y, w);
      }
    }
  }

  /** A word found in a part of a text is found in the text, shifted by where the part starts. */
  lemma WordAtShift(s: string, a: nat, b: nat, y: nat, w: string)
    requires a <= b <= |s| && WordAt(s[a..b], y, w)
    ensures WordAt(s, a + y, w)
  {
    var t := s[a..b];
    assert y + |w| <= |t|;
    var u, v := t[y..y + |w|], s[a + y..a + y + |w|];
    forall i | 0 <= i < |w| ensures u[i] == v[i] {
      assert t[y + i] == s[a + y + i];
    }
    assert u == v;
  }

  /** Without section words, none of the patterns built from them matches anywhere. */
  lemma NoWordNoMatch(p: Pattern, s: string, i: nat)
    requires i <= |s| && NoHeadingWord(s) && forall w :: w in p.words ==> w in SectionWords
    ensures MatchAt(p, s, i).None?
  {
  }

  /** The first line of a text is a prefix of it, ending where the text does or at a line
      terminator. */
  lemma FirstLinePrefix(t: string) returns (n: nat)
    ensures n <= |t| && SplitLines(t)[0] == t[..n]
    ensures n == |t| || IsLineTerminator(t[n])
  {
    var k := IndexOf(t, '\n');
    assert Split(t, '\n')[0] == t[..k];
    if |Split(t, '\n')| > 1 {
      var m := DropCRStrips(t[..k]);
      n := m;
      assert t[..k][..m] == t[..n];
    } else {
      n := k;
    }
  }

  /** The trimmed first line of a text is one of its parts. */
  lemma FirstLinePart(t: string) returns (a: nat, b: nat)
    ensures a <= b <= |t| && Trim(SplitLines(t)[0]) == t[a..b]
  {
    var n := FirstLinePrefix(t);
    var line := t[..n];
    a := LeadingSpace(line);
    b := a + |Trim(line)|;
    assert Trim(line) == line[a..b] == t[a..b];
  }

  /** Where the server drops a first line, the section-heading pattern matches in the text:
      the label, with the white space trimmed off around it, is a line on its own. */
  lemma FirstLineHeading(r: string) returns (i: nat, q: nat)
    ensures DropsFirstLine(SplitLines(r)) ==> Matches(SectionHeading, r, i, q)
  {
    var n := FirstLinePrefix(r);
    var line := r[..n];
    var t := Trim(line);
    i, q := 0, 0;
    if DropsFirstLine(SplitLines(r)) {
      var m := MatchAt(FirstLineLabel, t, 0).value;
      LabelIsHeading(t, m);
      i, q := TrimMatch(SectionHeading, line, 0, |t|);
      PrefixMatch(SectionHeading, r, n, i, q);
    }
  }

  /** The server's first-line label, matched on a whole trimmed line, reads as a section
      heading of it. */
  lemma LabelIsHeading(t: string, m: nat)
    requires Matches(FirstLineLabel, t, 0, m)
    ensures Matches(SectionHeading, t, 0, |t|)
  {
    var x: nat, y: nat, w: string :| Decomposes(FirstLineLabel, t, 0, x, y, w, m);
    assert Decomposes(SectionHeading, t, 0, x, y, w, |t|);
  }

  /** Where no section heading matches, the server keeps the first line. */
  lemma FreeKeepsFirstLine(r: string)
    requires MatchFree(SectionHeading, r)
    ensures !DropsFirstLine(SplitLines(r))
  {
    var i, q := FirstLineHeading(r);
  }

  /** Tidying leaves a trimmed text without headings or three line feeds in a row as it is. */
  lemma TidyOfFree(r: string)
    requires MatchFree(SectionHeading, r) && IsTrimmed(r) && NoTripleNewline(r)
    ensures Tidy(r) == r
  {
    FreeUnchanged(SectionHeading, r);
    CollapseKeeps(r);
    TrimOfTrimmed(r);
  }

  /** Cleaning a general-chat reply twice on the server is cleaning it once. */
  lemma ServerCleanTwice(output: Value)
    ensures ServerClean(ServerClean(output)) == ServerClean(output)
  {
    if output.Str? {
      var r := ServerClean(output).s;
      TrimOfTrimmed(r);
      FreeKeepsFirstLine(r);
      TidyOfFree(r);
    }
  }

  /** Cleaning the lambda's cleaned reply again gives it back: no greeting label survives
      where no section heading does. */
  lemma LambdaCleanTwice(output: Value)
    ensures LambdaClean(Str(LambdaClean(output))) == LambdaClean(output)
  {
    var r := LambdaClean(output);
    StringOrEmpty(r);
    GreetingFree(r);
    FreeUnchanged(GreetingLabel, r);
    TrimOfTrimmed(r);
    TidyOfFree(r);
  }

  /** A falsy output is read as the empty text. */
  lemma FalsyAsEmpty(output: Value)
    ensures !Truthy(output) ==> ToJsString(Or(output, Str(""))) == ""
  {
    if !Truthy(output) {
      assert Or(output, Str("")) == Str("");
    }
  }

  /** A string, or `""` in its place, is the string itself. */
  lemma StringOrEmpty(r: string)
    ensures ToJsString(Or(Str(r), Str(""))) == r
  {
  }

  /** Tidying a text with no section word only collapses and trims it. */
  lemma NoWordTrim(s: string, ws: Words)
    requires NoWordOf(s, ws)
    ensures NoWordOf(Trim(s), ws)
  {
    var a := LeadingSpace(s);
    var t := Trim(s);
    assert t == s[a..a + |t|];
    NoWordSlice(s, a, a + |t|, ws);
  }

  lemma TidyWithoutHeadings(t: string)
    requires NoHeadingWord(t)
    ensures Tidy(t) == Trim(CollapseNewlines(t))
  {
    NoWordNoChange(SectionHeading, t);
  }

  /** The server keeps the first line of a text with no section word. */
  lemma FirstLineKept(t: string)
    requires NoHeadingWord(t)
    ensures !DropsFirstLine(SplitLines(t))
  {
    var a, b := FirstLinePart(t);
    NoWordSlice(t, a, b, SectionWords);
    NoWordNoMatch(FirstLineLabel, Trim(SplitLines(t)[0]), 0);
  }

  /** On a text with no section word anywhere, the server's general-chat cleanup only trims
      it and collapses its runs of line feeds. */
  lemma ServerWithoutHeadings(s: string)
    requires NoHeadingWord(s)
    ensures ServerClean(Str(s)) == Str(Trim(CollapseNewlines(Trim(s))))
  {
    var t := Trim(s);
    NoWordTrim(s, SectionWords);
    FirstLineKept(t);
    TidyWithoutHeadings(t);
  }

  /** The same for the lambda's cleanup, so on such texts the two variants agree. */
  lemma LambdaWithoutHeadings(s: string)
    requires NoHeadingWord(s)
    ensures LambdaClean(Str(s)) == Trim(CollapseNewlines(Trim(s)))
    ensures ServerClean(Str(s)) == Str(LambdaClean(Str(s)))
  {
    var t := Trim(s);
    assert ToJsString(Or(Str(s), Str(""))) == s;
    NoWordNoChange(GreetingLabel, s);
    NoWordTrim(s, SectionWords);
    TidyWithoutHeadings(t);
    ServerWithoutHeadings(s);
  }

  /** Every section word has at least seven letters, so a shorter text holds none. */
  lemma ShortNoHeading(s: string)
    requires |s| < 7
    ensures NoHeadingWord(s)
  {
    forall y, w | 0 <= y <= |s| && w in SectionWords ensures !WordAt(s, y, w) {
      SectionWordLength(w);
    }
  }

  lemma SectionWordLength(w: string)
    requires w in SectionWords
    ensures |w| >= 7
  {
    assert SectionWords == GreetingWords + OpeningWords + ClosingWords;
    assert w in GreetingWords || w in OpeningWords || w in ClosingWords;
  }
}
