/** The inline-context extractor run over its own task text. Every line the extractor keeps
    stays a kept line when white space is cut from its ends, so a second run finds no label
    line: its context is empty, and, unless the task still holds a carriage return, its task
    is the first task unchanged. */
module ExtractTwice {
  import opened Text
  import opened LabelLine
  import opened InlineContext

  /** Cutting white space from both ends of a line moves its first colon, but leaves the text
      around the colon as it was, up to that white space. */
  lemma ColonShift(line: string, x: nat, y: nat)
    requires x <= y <= |line| && AllSpace(line[..x]) && AllSpace(line[y..])
    requires ':' in line[x..y]
    ensures ':' in line
    ensures BeforeColon(line) == line[..x] + BeforeColon(line[x..y])
    ensures AfterColon(line) == AfterColon(line[x..y]) + line[y..]
  {
    var u := line[x..y];
    var k := IndexOf(u, ':');
    assert line[x + k] == u[k];
    forall i | 0 <= i < x + k ensures line[i] != ':' {
      if i < x {
        assert line[i] == line[..x][i];
      } else {
        assert line[i] == u[i - x];
      }
    }
    IndexOfIs(line, ':', x + k);
    assert BeforeColon(line) == line[..x] + u[..k];
    assert AfterColon(line) == u[k + 1..] + line[y..];
  }

  /** Trailing white space never spoils a value. */
  lemma FitsPadded(s: string, w: string)
    requires ValueFits(s) && AllSpace(w)
    ensures ValueFits(s + w)
  {
    var i :| 0 <= i < |s| && !IsLineTerminator(s[i]);
    assert (s + w)[i] == s[i];
    TrimTrailing(s, w);
  }

  /** Leading white space never spoils a lambda label. */
  lemma LabelPadded(w: string, p: string)
    requires AllSpace(w) && LambdaLabelFits(p)
    ensures Trim(w + p) == Trim(p)
    ensures LambdaLabelFits(w + p)
  {
    var t := Trim(p);
    var l := LeadingSpace(p);
    NamedLabel(t);
    LeadingPadded(w, p);
    TrimLeading(w, p);
    DropPrefix(w, p, l + |t|);
  }

  /** A line that white space was cut from is consumed only when the whole line is. */
  lemma ConsumeWidens(v: Variant, line: string, x: nat, y: nat)
    requires x <= y <= |line| && AllSpace(line[..x]) && AllSpace(line[y..])
    ensures LineEffect(v, line[x..y]).Consume? ==> LineEffect(v, line).Consume?
  {
    var u := line[x..y];
    if v == Server {
      ServerLineEffect(u);
      ServerLineEffect(line);
      if ServerEffect(u).Consume? {
        ColonShift(line, x, y);
        TrimLeading(line[..x], BeforeColon(u));
        FitsPadded(AfterColon(u), line[y..]);
      }
    } else {
      LambdaLineEffect(u);
      LambdaLineEffect(line);
      if LambdaEffect(u).Consume? {
        ColonShift(line, x, y);
        LabelPadded(line[..x], BeforeColon(u));
        FitsPadded(AfterColon(u), line[y..]);
      }
    }
  }

  /** A kept line is still kept with white space cut from its ends. */
  lemma KeepStrip(v: Variant, line: string, x: nat, y: nat)
    requires x <= y <= |line| && AllSpace(line[..x]) && AllSpace(line[y..])
    ensures LineEffect(v, line) == Keep ==> LineEffect(v, line[x..y]) == Keep
  {
    ConsumeWidens(v, line, x, y);
  }

  /** A line of a trimmed text, from lines that are all kept, is kept. */
  lemma StrippedKeep(v: Variant, l: string, lines: seq<string>)
    requires StrippedLineOf(l, lines)
    requires forall m :: 0 <= m < |lines| ==> LineEffect(v, lines[m]) == Keep
    ensures LineEffect(v, l) == Keep
  {
    var i, x, y :| 0 <= i < |lines| && 0 <= x <= y <= |lines[i]| && l == lines[i][x..y]
      && AllSpace(lines[i][..x]) && AllSpace(lines[i][y..]);
    KeepStrip(v, lines[i], x, y);
  }

  /** The kept lines are lines of the input, each of them one the extractor keeps. */
  lemma {:induction false} KeptAreKept(v: Variant, lines: seq<string>, es: seq<Effect>)
    requires |es| == |lines|
    requires forall i :: 0 <= i < |lines| ==> es[i] == LineEffect(v, lines[i])
    ensures forall m :: 0 <= m < |Kept(lines, es)| ==> Kept(lines, es)[m] in lines && LineEffect(v, Kept(lines, es)[m]) == Keep
    decreases |lines|
  {
    if lines != [] {
      var n := |lines| - 1;
      KeptAreKept(v, lines[..n], es[..n]);
      var k := Kept(lines, es);
      var k0 := Kept(lines[..n], es[..n]);
      assert k == k0 + (if es[n].Keep? then [lines[n]] else []);
      forall m | 0 <= m < |k| ensures k[m] in lines && LineEffect(v, k[m]) == Keep {
        if m < |k0| {
          assert k[m] == k0[m];
          var i :| 0 <= i < n && lines[..n][i] == k0[m];
          assert lines[i] == k0[m];
        } else {
          assert k[m] == lines[n];
        }
      }
    }
  }

  /** When every line is kept, all of them stay in the task and none stores a value. */
  lemma {:induction false} AllKept(lines: seq<string>, es: seq<Effect>, f: Field)
    requires |es| == |lines|
    requires forall i :: 0 <= i < |es| ==> es[i] == Keep
    ensures Kept(lines, es) == lines
    ensures LastStore(es, f).None?
    decreases |lines|
  {
    if lines != [] {
      var n := |lines| - 1;
      AllKept(lines[..n], es[..n], f);
      assert lines[..n] + [lines[n]] == lines;
    }
  }

  /** A line cut out of the text by `split(/\r?\n/)` carries no line feed. */
  lemma SplitLinesNoFeed(s: string)
    ensures forall i :: 0 <= i < |SplitLines(s)| ==> '\n' !in SplitLines(s)[i]
  {
    var parts := Split(s, '\n');
    forall i | 0 <= i < |parts| ensures '\n' !in SplitLines(s)[i] {
      if i < |parts| - 1 && DropCR(parts[i]) != parts[i] {
        var p := parts[i];
        assert DropCR(p) == p[..|p| - 1];
        forall c | c in DropCR(p) ensures c != '\n' {
          var j :| 0 <= j < |p| - 1 && p[..|p| - 1][j] == c;
          assert p[j] == c;
        }
      }
    }
  }

  /** Joining lines that are all kept, with line feeds, gives a text whose lines are all kept. */
  lemma JoinedKept(v: Variant, ls: seq<string>)
    requires forall m :: 0 <= m < |ls| ==> LineEffect(v, ls[m]) == Keep && '\n' !in ls[m]
    ensures forall m :: 0 <= m < |Split(Join(ls, "\n"), '\n')| ==> LineEffect(v, Split(Join(ls, "\n"), '\n')[m]) == Keep
  {
    if ls == [] {
      SplitWithoutSep("", '\n');
      ServerLineEffect("");
      LambdaLineEffect("");
    } else {
      SplitJoin(ls, '\n');
    }
  }

  /** A kept line is still kept with white space cut from its end. */
  lemma KeepStripEnd(v: Variant, line: string, y: nat)
    requires y <= |line| && AllSpace(line[y..])
    ensures LineEffect(v, line) == Keep ==> LineEffect(v, line[..y]) == Keep
  {
    assert line[..0] == [];
    KeepStrip(v, line, 0, y);
    assert line[0..y] == line[..y];
  }

  /** Dropping a line's trailing carriage return keeps a kept line kept. */
  lemma DropCRKeep(v: Variant, p: string)
    ensures LineEffect(v, p) == Keep ==> LineEffect(v, DropCR(p)) == Keep
  {
    var n := DropCRStrips(p);
    KeepStripEnd(v, p, n);
  }

  /** `split(/\r?\n/)` of a text whose line-feed-separated lines are all kept gives kept lines. */
  lemma SplitLinesKeep(v: Variant, s: string)
    requires forall m :: 0 <= m < |Split(s, '\n')| ==> LineEffect(v, Split(s, '\n')[m]) == Keep
    ensures forall i :: 0 <= i < |SplitLines(s)| ==> LineEffect(v, SplitLines(s)[i]) == Keep
  {
    var parts := Split(s, '\n');
    forall i | 0 <= i < |parts| ensures LineEffect(v, SplitLines(s)[i]) == Keep {
      DropCRKeep(v, parts[i]);
    }
  }

  /** The line-feed-separated lines of the task are lines the first run kept, with white space
      cut from their ends. */
  lemma TaskPartsKept(v: Variant, raw: string)
    ensures var parts := Split(Extract(v, raw).task, '\n');
      forall m :: 0 <= m < |parts| ==> LineEffect(v, parts[m]) == Keep
  {
    var lines := SplitLines(raw);
    var kept := KeptLines(v, lines);
    var joined := Join(kept, "\n");
    KeptAreKept(v, lines, Effects(v, lines));
    SplitLinesNoFeed(raw);
    JoinedKept(v, kept);
    TrimLines(joined);
    var parts := Split(Extract(v, raw).task, '\n');
    forall m | 0 <= m < |parts| ensures LineEffect(v, parts[m]) == Keep {
      StrippedKeep(v, parts[m], Split(joined, '\n'));
    }
  }

  /** Every line the second run sees is kept. */
  lemma TaskLinesKept(v: Variant, raw: string)
    ensures var lines := SplitLines(Extract(v, raw).task);
      forall i :: 0 <= i < |lines| ==> LineEffect(v, lines[i]) == Keep
  {
    TaskPartsKept(v, raw);
    SplitLinesKeep(v, Extract(v, raw).task);
  }

  /** A text whose lines are all kept leaves the context empty. */
  lemma NothingStored(v: Variant, s: string, f: Field)
    requires forall i :: 0 <= i < |SplitLines(s)| ==> LineEffect(v, SplitLines(s)[i]) == Keep
    ensures f !in Extract(v, s).ctx
  {
    var lines := SplitLines(s);
    AllKept(lines, Effects(v, lines), f);
    assert Lookup(Extract(v, s).ctx, f) == LastStored(v, lines, f);
  }

  /** A text whose lines are all kept, without carriage returns, comes back trimmed. */
  lemma NothingConsumed(v: Variant, s: string)
    requires forall i :: 0 <= i < |SplitLines(s)| ==> LineEffect(v, SplitLines(s)[i]) == Keep
    requires '\r' !in s
    ensures Extract(v, s).task == Trim(s)
  {
    KeptTask(v, s);
    SplitLinesWithoutCR(s);
  }

  lemma KeptTask(v: Variant, s: string)
    requires forall i :: 0 <= i < |SplitLines(s)| ==> LineEffect(v, SplitLines(s)[i]) == Keep
    ensures Extract(v, s).task == Trim(Join(SplitLines(s), "\n"))
  {
    var lines := SplitLines(s);
    AllKept(lines, Effects(v, lines), Role);
  }

  /** Running the extractor again over its task finds nothing to store, and gives back the
      same task when that task holds no carriage return. */
  lemma ExtractTaskAgain(v: Variant, raw: string)
    ensures var e := Extract(v, raw); var e2 := Extract(v, e.task);
      (forall f :: f !in e2.ctx) && ('\r' !in e.task ==> e2.task == e.task)
  {
    var task := Extract(v, raw).task;
    TaskLinesKept(v, raw);
    forall f ensures f !in Extract(v, task).ctx {
      NothingStored(v, task, f);
    }
    if '\r' !in task {
      NothingConsumed(v, task);
      TrimIdempotent(Join(KeptLines(v, SplitLines(raw)), "\n"));
    }
  }

  lemma NoColonKeep(v: Variant, line: string)
    requires ':' !in line
    ensures LineEffect(v, line) == Keep
  {
    ServerLineEffect(line);
    LambdaLineEffect(line);
  }

  lemma DoubleReturnLines()
    ensures SplitLines("a\r\r\nb") == ["a\r", "b"]
  {
    var s := "a\r\r\nb";
    SplitAt(s, '\n', 3);
    assert s[..3] == "a\r\r" && s[4..] == "b";
    SplitWithoutSep("b", '\n');
    assert DropCR("a\r\r") == "a\r";
  }

  lemma SingleReturnLines()
    ensures SplitLines("a\r\nb") == ["a", "b"]
  {
    var s := "a\r\nb";
    SplitAt(s, '\n', 2);
    assert s[..2] == "a\r" && s[3..] == "b";
    SplitWithoutSep("b", '\n');
    assert DropCR("a\r") == "a";
  }

  lemma JoinPair(x: string, y: string)
    ensures Join([x, y], "\n") == x + "\n" + y
  {
    assert [x, y][1..] == [y];
  }

  lemma DoubleReturnJoined()
    ensures Trim(Join(["a\r", "b"], "\n")) == "a\r\nb"
  {
    JoinPair("a\r", "b");
    assert "a\r" + "\n" + "b" == "a\r\nb";
    assert !IsSpace('a') && !IsSpace('b');
    TrimOfTrimmed("a\r\nb");
  }

  lemma SingleReturnJoined()
    ensures Trim(Join(["a", "b"], "\n")) == "a\nb"
  {
    JoinPair("a", "b");
    assert "a" + "\n" + "b" == "a\nb";
    assert !IsSpace('a') && !IsSpace('b');
    TrimOfTrimmed("a\nb");
  }

  lemma TwoKeptLines(v: Variant, s: string, x: string, y: string)
    requires SplitLines(s) == [x, y]
    requires LineEffect(v, x) == Keep && LineEffect(v, y) == Keep
    ensures Extract(v, s).task == Trim(Join([x, y], "\n"))
  {
    var lines := SplitLines(s);
    forall i | 0 <= i < |lines| ensures LineEffect(v, lines[i]) == Keep {
      if i == 0 {
        assert lines[i] == x;
      } else {
        assert lines[i] == y;
      }
    }
    KeptTask(v, s);
  }

  lemma DoubleReturnTask(v: Variant)
    ensures Extract(v, "a\r\r\nb").task == "a\r\nb"
  {
    DoubleReturnLines();
    NoColonKeep(v, "a\r");
    NoColonKeep(v, "b");
    TwoKeptLines(v, "a\r\r\nb", "a\r", "b");
    DoubleReturnJoined();
  }

  lemma SingleReturnTask(v: Variant)
    ensures Extract(v, "a\r\nb").task == "a\nb"
  {
    SingleReturnLines();
    NoColonKeep(v, "a");
    NoColonKeep(v, "b");
    TwoKeptLines(v, "a\r\nb", "a", "b");
    SingleReturnJoined();
  }

  /** With a carriage return left in the task, the second run differs: `a\r\r\nb` leaves the task
      `a\r\nb`, and running the extractor over that leaves `a\nb`. */
  lemma CarriageReturnTwice(v: Variant)
    ensures var task := Extract(v, "a\r\r\nb").task; '\r' in task && Extract(v, task).task != task
  {
    DoubleReturnTask(v);
    SingleReturnTask(v);
    assert "a\r\nb"[1] == '\r';
    assert "a\nb" != "a\r\nb";
  }
}
