/** How many lines a file has when it is read, and how it grows by line breaks inside its lines. */
module LineCounts {
  import opened Text
  import opened DotEnv
  import opened KvSecrets

  /** A line as it is read back: the carriage return before its newline goes with the newline. */
  function Chomped(line: string): string {
    if EndsInReturn(line) then line[..|line| - 1] else line
  }

  /** The breaks in a text. */
  function Count(s: string): nat {
    if s == "" then 0 else Count(s[..|s| - 1]) + if AnyBreak(s[|s| - 1]) then 1 else 0
  }

  lemma {:induction false} CountConcat(x: string, y: string)
    ensures Count(x + y) == Count(x) + Count(y)
  {
    if y == "" {
      assert x + y == x;
    } else {
      CountConcat(x, y[..|y| - 1]);
      assert (x + y)[..|x + y| - 1] == x + y[..|y| - 1];
    }
  }

  lemma {:induction false} CountOfOneLine(s: string)
    requires OneLine(s, AnyBreak)
    ensures Count(s) == 0
  {
    if s != "" { CountOfOneLine(s[..|s| - 1]); }
  }

  lemma CountAround(a: string, c: char, rest: string)
    requires OneLine(a, AnyBreak) && AnyBreak(c)
    ensures Count(a + [c] + rest) == 1 + Count(rest)
  {
    CountOfOneLine(a);
    CountConcat(a + [c], rest);
    assert (a + [c])[..|a|] == a;
  }

  lemma CutAt(s: string, i: nat)
    requires i < |s| && AnyBreak(s[|s| - 1])
    ensures s == s[..i] + [s[i]] + s[i + 1..]
    ensures s[i + 1..] == "" || AnyBreak(s[i + 1..][|s| - i - 2])
  {
  }

  /** A text that ends in a break has as many lines as breaks. */
  lemma {:induction false} LinesAreCounted(s: string)
    requires s == "" || AnyBreak(s[|s| - 1])
    ensures |SplitLines(s, AnyBreak)| == Count(s)
    decreases |s|
  {
    if s != "" {
      var i := NextBreak(s, AnyBreak, 0);
      CutAt(s, i);
      LinesAreCounted(s[i + 1..]);
      CountAround(s[..i], s[i], s[i + 1..]);
    }
  }

  /******* Lines and line ends *******/

  lemma LineIsTranslated(line: string)
    ensures Translated(line + "\n") == Translated(Chomped(line)) + "\n"
  {
    assert (line + "\n")[..|line|] == line;
  }

  /** Lines written to a file come back chomped, when nothing else in them breaks a line. */
  lemma {:induction false} JoinedIsTranslated(lines: seq<string>)
    requires forall l | l in lines :: '\r' !in Chomped(l)
    ensures Translated(JoinLines(lines)) == JoinLines(Reread(Chomped, lines))
  {
    if lines != [] {
      var rest := lines[1..];
      assert lines[0] in lines;
      JoinedIsTranslated(rest);
      LineIsTranslated(lines[0]);
      TranslatedIs(Chomped(lines[0]));
      TranslatedConcat(lines[0] + "\n", JoinLines(rest));
      assert Reread(Chomped, lines)[1..] == Reread(Chomped, rest);
    }
  }

  lemma {:induction false} PrefixCountsLess(s: string, n: nat)
    requires n <= |s|
    ensures Count(Translated(s[..n])) <= Count(Translated(s))
  {
    if n < |s| {
      PrefixCountsLess(s[..|s| - 1], n);
      assert s[..|s| - 1][..n] == s[..n];
      TranslatedOnce(s[..|s| - 1], s[|s| - 1]);
      assert s == s[..|s| - 1] + [s[|s| - 1]];
    } else {
      assert s[..n] == s;
    }
  }

  lemma TranslatedOnce(s: string, c: char)
    ensures Count(Translated(s + [c])) <= Count(Translated(s)) + 1
    ensures Count(Translated(s + [c])) >= Count(Translated(s))
    ensures AnyBreak(c) ==> Count(Translated(s + [c])) > 0
  {
    var t := s + [c];
    assert t[..|s|] == s;
    if c == '\n' && EndsInReturn(s) {
      ReturnCounts(s);
    } else {
      CountConcat(Translated(s), [if c == '\r' then '\n' else c]);
      SingleCount(if c == '\r' then '\n' else c);
    }
  }

  lemma SingleCount(c: char)
    ensures Count([c]) == if AnyBreak(c) then 1 else 0
  {
    assert [c][..0] == "";
  }

  lemma ReturnCounts(s: string)
    requires EndsInReturn(s)
    ensures Count(Translated(s)) > 0
  {
    CountConcat(Translated(s[..|s| - 1]), "\n");
    SingleCount('\n');
  }

  lemma PrefixNext(s: string, i: nat)
    requires i < |s|
    ensures s[..i + 1] == s[..i] + [s[i]]
  {
  }

  lemma BreakCounts(s: string, i: nat)
    requires i < |s| && AnyBreak(s[i])
    ensures Count(Translated(s)) > 0
  {
    PrefixCountsLess(s, i + 1);
    PrefixNext(s, i);
    TranslatedOnce(s[..i], s[i]);
  }

  /** A line counts once in its file, and more than once with a break inside. */
  lemma LineCounts(line: string)
    ensures Count(Translated(line + "\n")) >= if OneLine(Chomped(line), AnyBreak) then 1 else 2
  {
    LineIsTranslated(line);
    CountConcat(Translated(Chomped(line)), "\n");
    SingleCount('\n');
    if i :| 0 <= i < |Chomped(line)| && AnyBreak(Chomped(line)[i]) {
      BreakCounts(Chomped(line), i);
    }
  }

  lemma {:induction false} JoinedCounts(lines: seq<string>)
    ensures Count(Translated(JoinLines(lines))) >= |lines|
    ensures (exists l | l in lines :: !OneLine(Chomped(l), AnyBreak)) ==> Count(Translated(JoinLines(lines))) > |lines|
  {
    if lines != [] {
      var rest := lines[1..];
      JoinedCounts(rest);
      LineCounts(lines[0]);
      TranslatedConcat(lines[0] + "\n", JoinLines(rest));
      CountConcat(Translated(lines[0] + "\n"), Translated(JoinLines(rest)));
      assert forall l :: l in lines <==> l == lines[0] || l in rest;
    }
  }

  lemma {:induction false} JoinEnds(lines: seq<string>)
    requires lines != []
    ensures JoinLines(lines) != "" && JoinLines(lines)[|JoinLines(lines)| - 1] == '\n'
  {
    if |lines| > 1 {
      JoinEnds(lines[1..]);
    }
  }

  lemma TranslatedEnds(s: string)
    requires s != "" && s[|s| - 1] == '\n'
    ensures Translated(s) != "" && Translated(s)[|Translated(s)| - 1] == '\n'
  {
  }

  /** A file has as many lines as it has breaks when it is read. */
  lemma FileIsCounted(lines: seq<string>)
    requires lines != []
    ensures |FileLines(JoinLines(lines), AnyBreak)| == Count(Translated(JoinLines(lines)))
  {
    JoinEnds(lines);
    TranslatedEnds(JoinLines(lines));
    LinesAreCounted(Translated(JoinLines(lines)));
  }
}
