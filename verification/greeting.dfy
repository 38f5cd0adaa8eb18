/** `isGreeting`: whether a general-chat message is small talk, which both variants answer with a
    short plain reply instead of a structured one. The two variants test differently. */
module Greeting {
  import opened Wrappers
  import opened Text
  import opened LabelLine

  /** What both variants test: the message trimmed and lower-cased. */
  function Normal(text: string): string {
    Lower(Trim(text))
  }

  /** The server's test: one of three short greetings exactly, a message starting with one of
      six openings, or a time-of-day greeting anywhere. */
  predicate ServerIsGreeting(text: string): (b: bool)
    ensures b ==> |Normal(text)| >= 2
  {
    var t := Normal(text);
    && t != ""
    && (|| t == "hi" || t == "hello" || t == "hey"
        || StartsWith(t, "hello ") || StartsWith(t, "hi ") || StartsWith(t, "hey ")
        || StartsWith(t, "i'm ") || StartsWith(t, "im ") || StartsWith(t, "my name is ")
        || Contains(t, "good morning") || Contains(t, "good afternoon") || Contains(t, "good evening"))
  }

  /** The alternatives of the lambda's greeting pattern, in the order the pattern tries them. */
  const LambdaWords: seq<string> := ["hi", "hello", "hey", "yo", "good morning", "good afternoon", "good evening"]

  /** The lambda's messages longer than this are never greetings. */
  const GreetingMaxLength: nat := 60

  /** `w` opens `t` and a word boundary `\b` follows it. Every alternative ends in a letter, so
      the boundary holds exactly when `t` ends there or the next character is not a word
      character. */
  predicate OpensWith(t: string, w: string) {
    StartsWith(t, w) && (|w| == |t| || !IsWordChar(t[|w|]))
  }

  /** The alternation anchored at the start: the first alternative that opens `t`. */
  function FirstOpening(t: string, ws: seq<string>): (r: Option<string>)
    ensures r.Some? ==> r.value in ws && OpensWith(t, r.value)
    ensures r.None? <==> forall w :: w in ws ==> !OpensWith(t, w)
  {
    if ws == [] then None
    else if OpensWith(t, ws[0]) then Some(ws[0])
    else FirstOpening(t, ws[1..])
  }

  /** The lambda's test: a non-empty message of at most sixty characters that opens with one
      of the alternatives as a whole word. */
  predicate LambdaIsGreeting(text: string): (b: bool)
    ensures b <==> var t := Normal(text);
      t != "" && |t| <= GreetingMaxLength && exists w :: w in LambdaWords && OpensWith(t, w)
  {
    var t := Normal(text);
    t != "" && |t| <= GreetingMaxLength && FirstOpening(t, LambdaWords).Some?
  }

  predicate IsGreeting(v: Variant, text: string) {
    if v == Server then ServerIsGreeting(text) else LambdaIsGreeting(text)
  }

  /** The three short greetings, alone in a message, greet both variants. */
  lemma ShortGreetingsAgree(v: Variant, text: string)
    ensures Normal(text) in ["hi", "hello", "hey"] ==> IsGreeting(v, text)
  {
    var t := Normal(text);
    if t in ["hi", "hello", "hey"] {
      assert t in LambdaWords && OpensWith(t, t);
    }
  }

  /** White space around a message never changes whether it is a greeting. */
  lemma GreetingIgnoresPadding(v: Variant, w1: string, x: string, w2: string)
    requires AllSpace(w1) && AllSpace(w2)
    ensures IsGreeting(v, w1 + x + w2) == IsGreeting(v, x)
  {
    TrimPadded(w1, x, w2);
    SameNormal(v, w1 + x + w2, x);
  }

  /** Whether a message is a greeting depends only on its normal form. */
  lemma SameNormal(v: Variant, a: string, b: string)
    requires Normal(a) == Normal(b)
    ensures IsGreeting(v, a) == IsGreeting(v, b)
  {
  }

  /** Letter case never changes whether a message is a greeting. */
  lemma GreetingIgnoresCase(v: Variant, x: string)
    ensures IsGreeting(v, Lower(x)) == IsGreeting(v, x)
  {
    TrimLower(x);
    LowerTwice(Trim(x));
    assert Normal(Lower(x)) == Normal(x);
    SameNormal(v, Lower(x), x);
  }

  lemma LowerTwice(s: string)
    ensures Lower(Lower(s)) == Lower(s)
  {
    LowerIs(Lower(s), Lower(s));
  }

  lemma LowerKeepsSpace(s: string)
    ensures forall i :: 0 <= i < |s| ==> (IsSpace(Lower(s)[i]) <==> IsSpace(s[i]))
  {
  }

  lemma AllSpaceLower(s: string)
    requires AllSpace(s)
    ensures AllSpace(Lower(s))
  {
    LowerKeepsSpace(s);
  }

  lemma LowerSlice(x: string, a: nat, b: nat)
    requires a <= b <= |x|
    ensures Lower(x)[a..b] == Lower(x[a..b])
  {
    LowerIs(x[a..b], Lower(x)[a..b]);
  }

  /** Lower-casing and trimming commute: lower-casing maps white space to white space and
      nothing else to it. */
  lemma TrimLower(x: string)
    ensures Trim(Lower(x)) == Lower(Trim(x))
  {
    if Trim(x) == [] {
      TrimLowerBlank(x);
    } else {
      TrimLowerNonBlank(x);
    }
  }

  lemma TrimLowerBlank(x: string)
    requires Trim(x) == []
    ensures Trim(Lower(x)) == []
  {
    TrimEmptyIffBlank(x);
    AllSpaceLower(x);
    TrimEmptyIffBlank(Lower(x));
  }

  lemma TrimLowerNonBlank(x: string)
    requires Trim(x) != []
    ensures Trim(Lower(x)) == Lower(Trim(x))
  {
    var i := LeadingSpace(x);
    var r := Trim(x);
    var j := i + |r|;
    assert r == x[i..j];
    assert x[i] == r[0] && x[j - 1] == r[|r| - 1];
    TrimAtLower(x, i, j);
    assert Lower(x[i..j]) == Lower(r);
  }

  /** Lower-casing keeps the white space around a part and the ends of the part. */
  lemma TrimAtLower(x: string, i: nat, j: nat)
    requires i < j <= |x| && AllSpace(x[..i]) && AllSpace(x[j..])
    requires !IsSpace(x[i]) && !IsSpace(x[j - 1])
    ensures Trim(Lower(x)) == Lower(x[i..j])
  {
    var y := Lower(x);
    assert AllSpace(y[..i]) by {
      LowerSlice(x, 0, i);
      AllSpaceLower(x[0..i]);
    }
    assert AllSpace(y[j..]) by {
      LowerSlice(x, j, |x|);
      AllSpaceLower(x[j..|x|]);
    }
    assert !IsSpace(y[i]) && !IsSpace(y[j - 1]) by {
      LowerKeepsSpace(x);
    }
    TrimAt(y, i, j);
    LowerSlice(x, i, j);
  }

  /** Every message that starts with "hello " is a greeting to the server, however long. */
  lemma ServerHelloOpening(rest: string)
    ensures ServerIsGreeting("hello " + rest)
  {
    HelloSpaceNormal(rest);
  }

  lemma HelloSpaceNormal(rest: string)
    ensures var t := Normal("hello " + rest); t == "hello" || StartsWith(t, "hello ")
  {
    var h: string := "hello";
    var tail: string := [' '] + rest;
    assert "hello " + rest == h + tail;
    LowerIs(h, h);
    NormalKeepsPrefix(h, tail);
    var t := Normal(h + tail);
    if |t| > 5 {
      assert t[..6] == t[..5] + [t[5]];
    }
  }

  /** The normal form of a message that opens with `p`, a lower-case word with no white space
      at its ends, opens with `p` too, and what follows `p` comes from `rest`. */
  lemma NormalKeepsPrefix(p: string, rest: string)
    requires p != [] && !IsSpace(p[0]) && !IsSpace(p[|p| - 1]) && Lower(p) == p
    ensures var t := Normal(p + rest);
            && |p| <= |t| <= |p| + |rest| && t[..|p|] == p
            && (|t| > |p| ==> t[|p|] == LowerChar(rest[0]))
  {
    TrimKeepsPrefix(p, rest);
    var r := Trim(p + rest);
    LowerSlice(r, 0, |p|);
    assert r[0..|p|] == p;
  }

  /** A short message that opens with "hello" as a whole word is a greeting to the lambda. */
  lemma LambdaHelloOpening(rest: string)
    requires rest == [] || !IsWordChar(rest[0])
    requires |rest| <= GreetingMaxLength - 5
    ensures LambdaIsGreeting("hello" + rest)
  {
    var t := Normal("hello" + rest);
    HelloOpens(rest);
    assert "hello" in LambdaWords by { assert LambdaWords[1] == "hello"; }
    assert FirstOpening(t, LambdaWords).Some?;
  }

  lemma HelloOpens(rest: string)
    requires rest == [] || !IsWordChar(rest[0])
    requires |rest| <= GreetingMaxLength - 5
    ensures var t := Normal("hello" + rest); t != "" && |t| <= GreetingMaxLength && OpensWith(t, "hello")
  {
    LowerIs("hello", "hello");
    NormalKeepsPrefix("hello", rest);
  }

  /** "yo" greets only the lambda. */
  lemma YoGreetsLambdaOnly()
    ensures !ServerIsGreeting("yo") && LambdaIsGreeting("yo")
  {
    NormalOfLower("yo");
    assert LambdaWords[3] == "yo";
  }

  /** "i'm sam" greets only the server. */
  lemma IntroductionGreetsServerOnly()
    ensures ServerIsGreeting("i'm sam") && !LambdaIsGreeting("i'm sam")
  {
    NormalOfLower("i'm sam");
    assert StartsWith("i'm sam", "i'm ");
    NoOpening("i'm sam");
  }

  /** An empty message greets neither variant. */
  lemma EmptyNotGreeting(v: Variant)
    ensures !IsGreeting(v, "")
  {
    var e: string := [];
    TrimOfTrimmed(e);
  }

  /** "hi" greets both variants. */
  lemma HiGreets(v: Variant)
    ensures IsGreeting(v, "hi")
  {
    var x := "hi";
    NormalOfLower(x);
    assert LambdaWords[0] == x;
    assert OpensWith(x, x);
  }

  /** "hello there" greets both variants. */
  lemma HelloThereGreets(v: Variant)
    ensures IsGreeting(v, "hello there")
  {
    var rest := " there";
    HelloRestGreets(v, "hello there", rest);
  }

  /** "hello", a space and a visible character greet both variants, when short enough. */
  lemma HelloRestGreets(v: Variant, x: string, rest: string)
    requires |x| >= 5 && x[..5] == "hello" && x[5..] == rest && 2 <= |rest| <= GreetingMaxLength - 5
    requires rest[0] == ' ' && !IsSpace(rest[1])
    ensures IsGreeting(v, x)
  {
    assert x == x[..5] + x[5..];
    if v == Lambda {
      LambdaHelloOpening(rest);
    } else {
      assert x == "hello " + rest[1..];
      HelloSpaceNormal(rest[1..]);
    }
  }

  /** "good morning!" greets both variants: the server finds the phrase, and the lambda finds
      it as a whole word, since `!` is not a word character. */
  lemma GoodMorningGreets(v: Variant)
    ensures IsGreeting(v, "good morning!")
  {
    var x := "good morning!";
    MorningChars(x);
    PhraseGreets(v, x, "good morning", 4);
  }

  lemma MorningChars(x: string)
    requires x == "good morning!"
    ensures IsTrimmed(x) && |x| <= GreetingMaxLength && forall i :: 0 <= i < |x| ==> !IsAsciiUpper(x[i])
    ensures 12 < |x| && x[..12] == "good morning" && !IsWordChar(x[12])
  {
  }

  /** A short message in lower case that opens with a time-of-day greeting as a whole word
      greets both variants. */
  lemma PhraseGreets(v: Variant, x: string, w: string, k: nat)
    requires k == 4 && w == LambdaWords[k] && w == "good morning"
    requires IsTrimmed(x) && |x| <= GreetingMaxLength && forall i :: 0 <= i < |x| ==> !IsAsciiUpper(x[i])
    requires |w| < |x| && x[..|w|] == w && !IsWordChar(x[|w|])
    ensures IsGreeting(v, x)
  {
    NormalOfLower(x);
    assert OpensWith(x, w) && w in LambdaWords;
    assert OccursAt(x, w, 0);
  }

  /** A message about hiring is no greeting to either variant, although it starts with "hi":
      the lambda's pattern wants a whole word, and the server wants "hi " with the space. */
  lemma HiringNotGreeting(v: Variant)
    ensures !IsGreeting(v, "history of hiring practices")
  {
    var x := "history of hiring practices";
    HiringChars(x);
    HisNotGreeting(v, x);
  }

  lemma HiringChars(x: string)
    requires x == "history of hiring practices"
    ensures |x| > 2 && x[0] == 'h' && x[1] == 'i' && x[2] == 's'
    ensures forall i :: 0 <= i < |x| ==> x[i] != 'd' && x[i] != 'D'
  {
  }

  /** A message opening with "his" and holding no `d` greets neither variant. */
  lemma HisNotGreeting(v: Variant, x: string)
    requires |x| > 2 && x[0] == 'h' && x[1] == 'i' && x[2] == 's'
    requires forall i :: 0 <= i < |x| ==> x[i] != 'd' && x[i] != 'D'
    ensures !IsGreeting(v, x)
  {
    var p := x[..3];
    LowerIs(p, p);
    NormalOpens(x, 3);
    var t := Normal(x);
    assert t[0] == 'h' && t[1] == 'i' && t[2] == 's' by {
      assert t[..3][0] == t[0] && t[..3][1] == t[1] && t[..3][2] == t[2];
    }
    if v == Server {
      NormalAvoids(x, 'd', 'D');
      NoCharNoContains(t, "good morning", 3);
      NoCharNoContains(t, "good afternoon", 3);
      NoCharNoContains(t, "good evening", 3);
    } else {
      NoOpeningAfterH(t);
    }
  }

  /** A message opening with `n` lower-case characters, the first and last of them visible,
      keeps them at the front of its normal form. */
  lemma NormalOpens(x: string, n: nat)
    requires 0 < n <= |x| && !IsSpace(x[0]) && !IsSpace(x[n - 1]) && Lower(x[..n]) == x[..n]
    ensures |Normal(x)| >= n && Normal(x)[..n] == x[..n]
  {
    assert x == x[..n] + x[n..];
    NormalKeepsPrefix(x[..n], x[n..]);
  }

  /** A letter that occurs in neither case in a message does not occur in its normal form. */
  lemma NormalAvoids(x: string, c: char, upper: char)
    requires IsAsciiLower(c) && upper as int == c as int - 32
    requires forall i :: 0 <= i < |x| ==> x[i] != c && x[i] != upper
    ensures c !in Normal(x)
  {
    TrimAvoids(x, c, upper);
    LowerAvoids(Trim(x), c, upper);
  }

  lemma TrimAvoids(x: string, c: char, upper: char)
    requires forall i :: 0 <= i < |x| ==> x[i] != c && x[i] != upper
    ensures forall i :: 0 <= i < |Trim(x)| ==> Trim(x)[i] != c && Trim(x)[i] != upper
  {
    var k, r := LeadingSpace(x), Trim(x);
    forall i | 0 <= i < |r| ensures r[i] != c && r[i] != upper {
      assert r[i] == x[k + i];
    }
  }

  lemma LowerAvoids(r: string, c: char, upper: char)
    requires IsAsciiLower(c) && upper as int == c as int - 32
    requires forall i :: 0 <= i < |r| ==> r[i] != c && r[i] != upper
    ensures c !in Lower(r)
  {
    var n := Lower(r);
    forall i | 0 <= i < |n| ensures n[i] != c {
      assert n[i] == LowerChar(r[i]);
    }
  }

  /** A message opening with `hi` and then a letter other than `e` opens with no alternative of
      the lambda's pattern. */
  lemma NoOpeningAfterH(t: string)
    requires |t| > 2 && t[0] == 'h' && t[1] == 'i' && t[2] != 'e' && IsWordChar(t[2])
    ensures FirstOpening(t, LambdaWords).None?
  {
    forall w | w in LambdaWords ensures !OpensWith(t, w) {
      assert w[0] != 'h' || w[1] != 'i' || |w| == 2;
    }
  }

  /** A text missing one of the characters of `w` holds no `w`. */
  lemma NoCharNoContains(t: string, w: string, k: nat)
    requires k < |w| && w[k] !in t
    ensures !Contains(t, w)
  {
    forall i | 0 <= i <= |t| - |w| ensures !OccursAt(t, w, i) {
      assert t[i..i + |w|][k] == t[i + k];
    }
  }

  /** Every alternative of the lambda starts with `h`, `y` or `g`. */
  lemma NoOpening(t: string)
    requires t != [] && t[0] != 'h' && t[0] != 'y' && t[0] != 'g'
    ensures FirstOpening(t, LambdaWords).None?
  {
    forall w | w in LambdaWords ensures !OpensWith(t, w) {
      assert w[0] == 'h' || w[0] == 'y' || w[0] == 'g';
    }
  }

  /** A trimmed message without capitals is its own normal form. */
  lemma NormalOfLower(s: string)
    requires IsTrimmed(s) && forall i :: 0 <= i < |s| ==> !IsAsciiUpper(s[i])
    ensures Normal(s) == s
  {
    assert Lower(s) == s by {
      LowerIs(s, s);
    }
    assert Trim(s) == s by {
      TrimOfTrimmed(s);
    }
  }
}
