/** The laws of a pull on whole files: what is read back, what stays, and when pulling again changes nothing. */
module SecretRotation {
  import opened Options
  import opened Text
  import opened DotEnv
  import opened KvSecrets
  import opened KvSecretsTheorems
  import opened LineCounts

  /******* How the parser sees a written line *******/

  predicate IsKeyChar(c: char) {
    'A' <= c <= 'Z' || 'a' <= c <= 'z' || '0' <= c <= '9' || c == '_'
  }

  predicate Identifier(k: string) {
    k != "" && forall i | 0 <= i < |k| :: IsKeyChar(k[i])
  }

  lemma TrimOfIdentifier(k: string)
    requires Identifier(k)
    ensures Trim(k) == k
  {
  }

  lemma WrittenChars(k: string, v: string)
    ensures var s := AssignmentLine(k, v);
            && |s| == |k| + 1 + |v| && s[|k|] == '=' && s[..|k|] == k && Slice(s, |k| + 1, |s|) == v
            && (forall x | 0 <= x < |k| :: s[x] == k[x])
            && (forall x | |k| < x < |s| :: s[x] == v[x - |k| - 1])
  {
  }

  lemma EqualsOfWritten(k: string, v: string)
    requires Identifier(k)
    ensures Equals(AssignmentLine(k, v)) == |k|
  {
    WrittenChars(k, v);
    forall x | 0 <= x < |k| ensures AssignmentLine(k, v)[x] != '=' { assert IsKeyChar(k[x]); }
  }

  lemma KeyOfWritten(k: string, v: string)
    requires Identifier(k)
    ensures KeyOf(AssignmentLine(k, v)) == k
  {
    WrittenChars(k, v);
    EqualsOfWritten(k, v);
    TrimOfIdentifier(k);
  }

  lemma SliceOfWritten(k: string, v: string, n: nat)
    requires n <= |v|
    ensures Slice(AssignmentLine(k, v), 0, |k| + 1 + n) == AssignmentLine(k, v[..n])
  {
  }

  lemma SpacesOfWritten(k: string, v: string, n: nat)
    requires n <= |v| && SpaceOn(v, n, |v|)
    ensures SpaceOn(AssignmentLine(k, v), |k| + 1 + n, |k| + 1 + |v|)
  {
    WrittenChars(k, v);
  }

  lemma EndsOfWritten(k: string, v: string, n: nat)
    requires Identifier(k) && n <= |v| && (n > 0 ==> !IsSpace(v[n - 1]))
    ensures !IsSpace(AssignmentLine(k, v)[0]) && !IsSpace(AssignmentLine(k, v)[|k| + n])
  {
    WrittenChars(k, v);
    assert IsKeyChar(k[0]);
  }

  // The spaces behind the value go, the rest of the line stays.
  lemma TrimOfWritten(k: string, v: string, n: nat)
    requires Identifier(k) && n <= |v| && SpaceOn(v, n, |v|) && (n > 0 ==> !IsSpace(v[n - 1]))
    ensures Trim(AssignmentLine(k, v)) == AssignmentLine(k, v[..n])
  {
    SpacesOfWritten(k, v, n);
    EndsOfWritten(k, v, n);
    TrimIs(AssignmentLine(k, v), 0, |k| + 1 + n);
    SliceOfWritten(k, v, n);
  }

  lemma TrailingSpaces(v: string) returns (n: nat)
    ensures n <= |v| && SpaceOn(v, n, |v|) && (n > 0 ==> !IsSpace(v[n - 1])) && Trim(v[..n]) == Trim(v)
  {
    var i, j := TrimBounds(v);
    if i < j {
      n := j;
      TrimIs(v[..n], i, j);
    } else {
      n := 0;
      TrimIs("", 0, 0);
      assert Slice(v, i, j) == Slice("", 0, 0);
    }
  }

  lemma AssignmentIs(line: string, l: string, p: nat)
    requires Trim(line) == l && l != "" && l[0] != '#' && p < |l| && Equals(l) == p
    ensures Assignment(line) == Some((Trim(l[..p]), Unquoted(Slice(l, p + 1, |l|))))
  {
  }

  lemma AssignmentOfWritten(k: string, v: string)
    requires Identifier(k)
    ensures Assignment(AssignmentLine(k, v)) == Some((k, Unquoted(v)))
  {
    var n := TrailingSpaces(v);
    TrimOfWritten(k, v, n);
    TrimmedLine(AssignmentLine(k, v), k, v[..n]);
    UnquotedOfTrimmed(v, v[..n]);
  }

  lemma TrimmedLine(line: string, k: string, w: string)
    requires Identifier(k) && Trim(line) == AssignmentLine(k, w)
    ensures Assignment(line) == Some((k, Unquoted(w)))
  {
    var l := AssignmentLine(k, w);
    EqualsOfWritten(k, w);
    WrittenChars(k, w);
    TrimOfIdentifier(k);
    assert IsKeyChar(k[0]) && l[0] == k[0];
    AssignmentIs(line, l, |k|);
  }

  lemma UnquotedOfTrimmed(v: string, w: string)
    requires Trim(v) == Trim(w)
    ensures Unquoted(v) == Unquoted(w)
  {
  }

  lemma EqualsBehindSpaces(line: string, i: nat, l: string)
    requires i + |l| <= |line| && SpaceOn(line, 0, i) && l == Slice(line, i, i + |l|) && Equals(l) < |l|
    ensures Equals(line) == i + Equals(l)
  {
    forall x | i <= x < i + Equals(l) ensures line[x] != '=' { assert l[x - i] == line[x]; }
    assert line[i + Equals(l)] == l[Equals(l)];
  }

  lemma SameKey(line: string, i: nat, l: string)
    requires i + |l| <= |line| && SpaceOn(line, 0, i) && l == Slice(line, i, i + |l|) && Equals(l) < |l|
    ensures KeyOf(line) == Trim(l[..Equals(l)])
  {
    EqualsBehindSpaces(line, i, l);
    var key := line[..i + Equals(l)];
    assert Slice(key, i, |key|) == l[..Equals(l)];
    TrimWithoutLeading(key, l[..Equals(l)], i);
  }

  lemma KeyOfTrimmed(line: string)
    requires Equals(Trim(line)) < |Trim(line)|
    ensures KeyOf(line) == Trim(Trim(line)[..Equals(Trim(line))])
  {
    var i, j := TrimBounds(line);
    SameKey(line, i, Trim(line));
  }

  /** The key that the parser finds in a line is the one that the rewriter finds. */
  lemma ParserAndRewriterAgree(line: string)
    requires Assignment(line).Some?
    ensures Assignment(line).value.0 == KeyOf(line)
  {
    KeyOfTrimmed(line);
  }

  /******* Whole files *******/

  /**
   Each key of the map is an identifier, and each value that a pull writes is one line to the reader, but for a
   carriage return at its end.
   */
  predicate Writable(kv: seq<string>, env: Values, breaks: Breaks) {
    && (forall k | k in kv :: Identifier(k))
    && (forall k | k in ToWrite(kv, env) :: OneLine(Chomped(env[k]), breaks))
  }

  /** What an environment can hold. */
  predicate Environment(env: Values) {
    forall k | k in env :: Settable(k, env[k])
  }

  /** The written values as either reader returns them. */
  function ReadBack(kv: seq<string>, env: Values): Values {
    map k | k in ToWrite(kv, env) :: Unquoted(env[k])
  }

  lemma ReadersAgree(kv: seq<string>, env: Values, lines: seq<string>)
    requires forall k | k in kv :: Identifier(k)
    ensures Agree(Assignment, KeyOf, ToWrite(kv, env), ReadBack(kv, env), lines)
  {
    forall l | l in lines && Assignment(l).Some? ensures Assignment(l).value.0 == KeyOf(l) {
      ParserAndRewriterAgree(l);
    }
    forall k | k in ToWrite(kv, env) ensures WrittenRight(Assignment, KeyOf, k, env[k], Unquoted(env[k])) {
      AssignmentOfWritten(k, env[k]);
      KeyOfWritten(k, env[k]);
    }
  }

  lemma WrittenIsOneLine(k: string, v: string, breaks: Breaks)
    requires Identifier(k) && OneLine(v, breaks) && forall c | breaks(c) :: AnyBreak(c)
    ensures OneLine(AssignmentLine(k, v), breaks)
  {
    WrittenChars(k, v);
  }

  lemma ChompedWritten(k: string, v: string)
    ensures Chomped(AssignmentLine(k, v)) == AssignmentLine(k, Chomped(v))
  {
  }

  lemma PulledIsOneLineEach(kv: seq<string>, env: Values, lines: seq<string>, breaks: Breaks, l: string)
    requires Writable(kv, env, breaks) && OneLineEach(lines, AnyBreak) && forall c | breaks(c) :: AnyBreak(c)
    requires l in PulledLines(KeyOf, ToWrite(kv, env), kv, lines)
    ensures OneLine(Chomped(l), breaks)
  {
    var values := ToWrite(kv, env);
    var seen := Seen(KeyOf, values, lines);
    var k := "";
    if l in Appended(values, kv, seen) {
      AppendedContents(values, kv, seen, l);
      k :| k in kv && k in values && l == AssignmentLine(k, values[k]);
    } else {
      var i :| 0 <= i < |lines| && l == RewrittenLine(KeyOf, values, lines[i]);
      assert lines[i] in lines;
      k := KeyOf(lines[i]);
    }
    if k in values {
      ChompedWritten(k, values[k]);
      WrittenIsOneLine(k, Chomped(values[k]), breaks);
    }
  }

  lemma BlankFile()
    ensures FileText([]) == JoinLines([""])
  {
    assert [""][1..] == [];
  }

  /** A file reads back, by either way of reading, as the lines written to it, chomped, or as one blank line. */
  lemma FileReadsBack(lines: seq<string>, breaks: Breaks)
    requires (forall l | l in lines :: OneLine(Chomped(l), breaks)) && breaks('\n') && breaks('\r')
    ensures FileLines(FileText(lines), breaks) == if lines == [] then [""] else Reread(Chomped, lines)
  {
    var written := if lines == [] then [""] else lines;
    BlankFile();
    assert lines == [] ==> Reread(Chomped, written) == [""];
    JoinedIsTranslated(written);
    SplitOfJoin(Reread(Chomped, written), breaks);
  }

  // What a pull leaves is read back line by line, except that an empty file gets a blank line.
  lemma PulledReadsBack(text: string, kv: seq<string>, env: Values, breaks: Breaks)
    requires Writable(kv, env, breaks) && breaks('\n') && breaks('\r') && forall c | breaks(c) :: AnyBreak(c)
    ensures var pulled := PulledLines(KeyOf, ToWrite(kv, env), kv, FileLines(text, AnyBreak));
            FileLines(PulledText(text, kv, env), breaks) == if pulled == [] then [""] else Reread(Chomped, pulled)
  {
    var lines := FileLines(text, AnyBreak);
    var pulled := PulledLines(KeyOf, ToWrite(kv, env), kv, lines);
    SplitIsOneLineEach(Translated(text), AnyBreak);
    forall l | l in pulled ensures OneLine(Chomped(l), breaks) {
      PulledIsOneLineEach(kv, env, lines, breaks, l);
    }
    FileReadsBack(pulled, breaks);
  }

  /** A final carriage return makes no difference to the parser. */
  lemma ChompedAssignment(line: string)
    ensures Assignment(Chomped(line)) == Assignment(line)
  {
    var i, j := TrimBounds(Chomped(line));
    TrimIs(line, i, j);
    assert Slice(line, i, j) == Slice(Chomped(line), i, j);
  }

  lemma {:induction false} SameLastWins(parse: Parser, xs: seq<string>, ys: seq<string>)
    requires |xs| == |ys| && forall i | 0 <= i < |xs| :: parse(xs[i]) == parse(ys[i])
    ensures LastWins(parse, xs) == LastWins(parse, ys)
  {
    if xs != [] { SameLastWins(parse, xs[..|xs| - 1], ys[..|ys| - 1]); }
  }

  lemma {:induction false} SameFirstWins(parse: Parser, xs: seq<string>, ys: seq<string>, env: Values)
    requires |xs| == |ys| && forall i | 0 <= i < |xs| :: parse(xs[i]) == parse(ys[i])
    ensures FirstWins(parse, xs, env) == FirstWins(parse, ys, env)
  {
    if xs != [] {
      var a := parse(xs[0]);
      SameFirstWins(parse, xs[1..], ys[1..], if a.None? || a.value.0 in env then env else env[a.value.0 := a.value.1]);
    }
  }

  lemma ChompedReaders(lines: seq<string>, env: Values)
    ensures LastWins(Assignment, Reread(Chomped, lines)) == LastWins(Assignment, lines)
    ensures FirstWins(Assignment, Reread(Chomped, lines), env) == FirstWins(Assignment, lines, env)
  {
    forall i | 0 <= i < |lines| ensures Assignment(Reread(Chomped, lines)[i]) == Assignment(lines[i]) {
      ChompedAssignment(lines[i]);
    }
    SameLastWins(Assignment, Reread(Chomped, lines), lines);
    SameFirstWins(Assignment, Reread(Chomped, lines), lines, env);
  }

  lemma BlankLineIsNothing(parse: Parser, env: Values)
    requires parse("").None?
    ensures LastWins(parse, [""]) == LastWins(parse, []) && FirstWins(parse, [""], env) == FirstWins(parse, [], env)
  {
  }

  lemma BlankAssignsNothing()
    ensures Assignment("").None?
  {
  }

  /** After a pull the last-wins reader returns every written value, and what it returned before for every other key. */
  lemma LastWinsReaderAfterPull(text: string, kv: seq<string>, env: Values)
    requires Writable(kv, env, AnyBreak)
    ensures LastWins(Assignment, FileLines(PulledText(text, kv, env), AnyBreak))
            == LastWins(Assignment, FileLines(text, AnyBreak)) + ReadBack(kv, env)
  {
    var lines := FileLines(text, AnyBreak);
    PulledReadsBack(text, kv, env, AnyBreak);
    ChompedReaders(PulledLines(KeyOf, ToWrite(kv, env), kv, lines), map[]);
    ReadersAgree(kv, env, lines);
    LastWinsAfterPull(Assignment, KeyOf, ToWrite(kv, env), ReadBack(kv, env), kv, lines);
    BlankAssignsNothing();
    BlankLineIsNothing(Assignment, map[]);
  }

  lemma ReadBackIsSettable(kv: seq<string>, env: Values)
    requires Environment(env)
    ensures forall k | k in ReadBack(kv, env) :: Settable(k, ReadBack(kv, env)[k])
  {
    forall k | k in ReadBack(kv, env) ensures Settable(k, ReadBack(kv, env)[k]) {
      UnquotedChars(env[k]);
    }
  }

  /** The reader is refused a key that a pull does not write. */
  ghost predicate FailsAnyway(lines: seq<string>, kv: seq<string>, env: Values, process: Values) {
    FailsBeside(Assignment, ToWrite(kv, env), lines, process)
  }

  /**
   The first-wins reader, on top of a process environment, finds after a pull the written values, and for every
   other key what it would have found had it broken the old file into lines as the rewriter does; it fails if that
   would have been refused.
   */
  lemma FirstWinsReaderAfterPull(text: string, kv: seq<string>, env: Values, process: Values)
    requires Writable(kv, env, Newline) && Environment(env)
    ensures var lines := FileLines(text, AnyBreak);
            FirstWins(Assignment, FileLines(PulledText(text, kv, env), Newline), process) ==
            if FailsAnyway(lines, kv, env, process) then None
            else Some(Filled(Assignment, lines, process) + (ReadBack(kv, env) - process.Keys))
  {
    var lines := FileLines(text, AnyBreak);
    PulledReadsBack(text, kv, env, Newline);
    ChompedReaders(PulledLines(KeyOf, ToWrite(kv, env), kv, lines), process);
    ReadersAgree(kv, env, lines);
    ReadBackIsSettable(kv, env);
    FirstWinsAfterPull(Assignment, KeyOf, ToWrite(kv, env), ReadBack(kv, env), kv, lines, process);
    BlankAssignsNothing();
    BlankLineIsNothing(Assignment, process);
  }

  /** So on an old file with none of the rarer breaks, it finds for every other key what it did find. */
  lemma NewlinesOnlyKeepOtherKeys(text: string, kv: seq<string>, env: Values, process: Values)
    requires Writable(kv, env, Newline) && Environment(env)
    requires forall c | c in Translated(text) :: AnyBreak(c) ==> Newline(c)
    ensures var before := FirstWins(Assignment, FileLines(text, Newline), process);
            var after := FirstWins(Assignment, FileLines(PulledText(text, kv, env), Newline), process);
            && (after.None? <==> FailsAnyway(FileLines(text, Newline), kv, env, process))
            && (before.Some? ==> after == Some(before.value + (ReadBack(kv, env) - process.Keys)))
  {
    var lines := FileLines(text, Newline);
    SplitsAgree(Translated(text));
    FirstWinsReaderAfterPull(text, kv, env, process);
    FirstWinsIs(Assignment, lines, process);
    if FailsAnyway(lines, kv, env, process) {
      var i: nat :| RefusedOther(Assignment, ToWrite(kv, env), lines, process, i);
      assert Refused(Assignment, lines, process, i);
    }
  }

  /******* Pulling again *******/

  lemma SecondPullKeeps(text: string, kv: seq<string>, env: Values)
    requires Writable(kv, env, AnyBreak)
    ensures PulledText(PulledText(text, kv, env), kv, env) == PulledText(text, kv, env)
  {
    var lines, values := FileLines(text, AnyBreak), ToWrite(kv, env);
    var pulled := PulledLines(KeyOf, values, kv, lines);
    PulledReadsBack(text, kv, env, AnyBreak);
    forall k | k in values ensures KeyOf(Chomped(AssignmentLine(k, values[k]))) == k {
      ChompedWritten(k, values[k]);
      KeyOfWritten(k, Chomped(values[k]));
    }
    OldLinesAreChomped(text);
    SecondPullChangesNothing(KeyOf, values, kv, lines, Chomped);
    if pulled == [] {
      BlankStaysBlank(values, kv, lines);
    }
  }

  lemma OldLinesAreChomped(text: string)
    ensures forall l | l in FileLines(text, AnyBreak) :: Chomped(l) == l
  {
    SplitIsOneLineEach(Translated(text), AnyBreak);
  }

  // A value with a break inside makes its line more than one, so the next pull finds and leaves more lines.
  lemma SecondPullGrows(text: string, kv: seq<string>, env: Values, k: string)
    requires k in ToWrite(kv, env) && !OneLine(Chomped(env[k]), AnyBreak)
    ensures PulledText(PulledText(text, kv, env), kv, env) != PulledText(text, kv, env)
  {
    var values, once := ToWrite(kv, env), PulledText(text, kv, env);
    var pulled := PulledLines(KeyOf, values, kv, FileLines(text, AnyBreak));
    var again := PulledLines(KeyOf, values, kv, FileLines(once, AnyBreak));
    var i := WrittenIsThere(KeyOf, values, kv, FileLines(text, AnyBreak), k);
    FileIsCounted(pulled);
    var j := WrittenIsThere(KeyOf, values, kv, FileLines(once, AnyBreak), k);
    BreakInValue(k, values[k]);
    assert again[j] in again;
    JoinedCounts(again);
  }

  lemma BreakInValue(k: string, v: string)
    requires !OneLine(Chomped(v), AnyBreak)
    ensures !OneLine(Chomped(AssignmentLine(k, v)), AnyBreak)
  {
    var i :| 0 <= i < |Chomped(v)| && AnyBreak(Chomped(v)[i]);
    ChompedWritten(k, v);
    assert AssignmentLine(k, Chomped(v))[|k| + 1 + i] == Chomped(v)[i];
  }

  /**
   A second pull of the same values leaves the file as it is exactly if each of them is one line, or one line with a
   carriage return at its end.
   */
  lemma SecondPullLeavesTheFileIff(text: string, kv: seq<string>, env: Values)
    requires forall k | k in kv :: Identifier(k)
    ensures PulledText(PulledText(text, kv, env), kv, env) == PulledText(text, kv, env) <==>
            forall k | k in ToWrite(kv, env) :: OneLine(Chomped(env[k]), AnyBreak)
  {
    if forall k | k in ToWrite(kv, env) :: OneLine(Chomped(env[k]), AnyBreak) {
      SecondPullKeeps(text, kv, env);
    } else {
      var k :| k in ToWrite(kv, env) && !OneLine(Chomped(env[k]), AnyBreak);
      SecondPullGrows(text, kv, env, k);
    }
  }

  lemma BlankStaysBlank(values: Values, kv: seq<string>, lines: seq<string>)
    requires PulledLines(KeyOf, values, kv, lines) == [] && forall k | k in values :: k in kv && Identifier(k)
    ensures FileText(PulledLines(KeyOf, values, kv, [""])) == FileText([])
  {
    var seen := Seen(KeyOf, values, lines);
    assert lines == [] && seen == {};
    forall k | k in values ensures false {
      AppendedContents(values, kv, seen, AssignmentLine(k, values[k]));
    }
    AppendsNothing(values, kv, Seen(KeyOf, values, [""]));
    assert PulledLines(KeyOf, values, kv, [""]) == [""];
    BlankFile();
  }

  /******* Which values come back *******/

  lemma UnquotedChars(v: string)
    ensures forall c | c in Unquoted(v) :: c in v
  {
    StripChars(Trim(v), '"');
    StripChars(Strip(Trim(v), '"'), '\'');
  }

  lemma StripChars(v: string, q: char)
    ensures forall c | c in Strip(v, q) :: c in v
  {
  }

  lemma TrimChars(v: string)
    ensures forall c | c in Trim(v) :: c in v
  {
    var i, j := TrimBounds(v);
  }

  lemma SliceChars(l: string, i: nat, j: nat)
    requires i <= j <= |l|
    ensures forall c | c in Slice(l, i, j) :: c in l
  {
  }

  lemma RestUnquotedChars(l: string, line: string)
    requires (forall c | c in l :: c in line) && Equals(l) < |l|
    ensures forall c | c in Unquoted(Slice(l, Equals(l) + 1, |l|)) :: c in line
  {
    UnquotedChars(Slice(l, Equals(l) + 1, |l|));
    SliceChars(l, Equals(l) + 1, |l|);
  }

  lemma ValueChars(line: string)
    requires Assignment(line).Some?
    ensures forall c | c in Assignment(line).value.1 :: c in line
  {
    TrimChars(line);
    RestUnquotedChars(Trim(line), line);
  }

  lemma AssignedIsOneLine(line: string, breaks: Breaks)
    requires Assignment(line).Some? && OneLine(line, breaks)
    ensures OneLine(Assignment(line).value.1, breaks)
  {
    ValueChars(line);
    var v := Assignment(line).value.1;
    forall i | 0 <= i < |v| ensures !breaks(v[i]) { assert v[i] in v; }
  }

  lemma LastWinsReadsOneLine(lines: seq<string>, breaks: Breaks, k: string)
    requires OneLineEach(lines, breaks) && k in LastWins(Assignment, lines)
    ensures OneLine(LastWins(Assignment, lines)[k], breaks)
  {
    LastWinsIs(Assignment, lines, k);
    var i := LastExists(Assignment, lines, k);
    assert lines[i] in lines;
    AssignedIsOneLine(lines[i], breaks);
  }

  lemma FirstWinsReadsOneLine(lines: seq<string>, breaks: Breaks, process: Values, k: string)
    requires OneLineEach(lines, breaks) && k !in process
    requires FirstWins(Assignment, lines, process).Some? && k in FirstWins(Assignment, lines, process).value
    ensures OneLine(FirstWins(Assignment, lines, process).value[k], breaks)
  {
    FirstWinsIs(Assignment, lines, process);
    FilledIs(Assignment, lines, process, k);
    var i := FirstExists(Assignment, lines, k);
    assert lines[i] in lines;
    AssignedIsOneLine(lines[i], breaks);
  }

  /** Every written value but that of `k` is one line to the reader. */
  predicate OthersWritable(kv: seq<string>, env: Values, breaks: Breaks, k: string) {
    && (forall x | x in kv :: Identifier(x))
    && (forall x | x in ToWrite(kv, env) && x != k :: OneLine(Chomped(env[x]), breaks))
  }

  lemma OneLineIsChomped(v: string, breaks: Breaks)
    requires OneLine(v, breaks) && breaks('\r')
    ensures Chomped(v) == v
  {
  }

  /**
   A fetched value is what the last-wins reader returns exactly if it holds no line break, the carriage return
   included, and trimming and unquoting do not change it.
   */
  lemma FetchedValueIsReadIff(text: string, kv: seq<string>, environ: Values, fetched: Values, k: string)
    requires OthersWritable(kv, environ + fetched, AnyBreak, k) && k in kv && k in fetched && fetched[k] != ""
    ensures Get(LastWins(Assignment, FileLines(PulledText(text, kv, environ + fetched), AnyBreak)), k)
            == Some(fetched[k])
            <==> OneLine(fetched[k], AnyBreak) && Unquoted(fetched[k]) == fetched[k]
  {
    var lines := FileLines(PulledText(text, kv, environ + fetched), AnyBreak);
    if OneLine(fetched[k], AnyBreak) {
      OneLineIsChomped(fetched[k], AnyBreak);
      LastWinsReaderAfterPull(text, kv, environ + fetched);
      assert k in ReadBack(kv, environ + fetched);
    } else if k in LastWins(Assignment, lines) {
      SplitIsOneLineEach(Translated(PulledText(text, kv, environ + fetched)), AnyBreak);
      LastWinsReadsOneLine(lines, AnyBreak, k);
    }
  }

  /** For the first-wins reader the rarer breaks do no harm, but the rest of the file must not make it fail. */
  lemma FetchedValueIsReadFirstIff(text: string, kv: seq<string>, environ: Values, fetched: Values, process: Values,
                                   k: string)
    requires OthersWritable(kv, environ + fetched, Newline, k) && k in kv && k in fetched && fetched[k] != ""
    requires Environment(environ + fetched) && k !in process
    ensures var after := FirstWins(Assignment, FileLines(PulledText(text, kv, environ + fetched), Newline), process);
            after.Some? && Get(after.value, k) == Some(fetched[k]) <==>
            && !FailsAnyway(FileLines(text, AnyBreak), kv, environ + fetched, process)
            && OneLine(fetched[k], Newline) && Unquoted(fetched[k]) == fetched[k]
  {
    var lines := FileLines(PulledText(text, kv, environ + fetched), Newline);
    var after := FirstWins(Assignment, lines, process);
    if OneLine(fetched[k], Newline) {
      OneLineIsChomped(fetched[k], Newline);
      FirstWinsReaderAfterPull(text, kv, environ + fetched, process);
      assert k in ReadBack(kv, environ + fetched);
    } else if after.Some? && k in after.value {
      SplitIsOneLineEach(Translated(PulledText(text, kv, environ + fetched)), Newline);
      FirstWinsReadsOneLine(lines, Newline, process, k);
    }
  }

  /**
   A key that the vault does not return is written all the same if it is in the map and set in the running process:
   so the pull changes what is read for it exactly if that value differs from the one in the file.
   */
  lemma UnfetchedKeyTakesTheProcessValue(text: string, kv: seq<string>, environ: Values, fetched: Values, k: string)
    requires Writable(kv, environ + fetched, AnyBreak) && k !in fetched
    ensures var before := Get(LastWins(Assignment, FileLines(text, AnyBreak)), k);
            var after := Get(LastWins(Assignment, FileLines(PulledText(text, kv, environ + fetched), AnyBreak)), k);
            && (k in kv && k in environ && environ[k] != "" ==> after == Some(Unquoted(environ[k])))
            && (after != before <==>
                k in kv && k in environ && environ[k] != "" && before != Some(Unquoted(environ[k])))
  {
    LastWinsReaderAfterPull(text, kv, environ + fetched);
    assert k in ReadBack(kv, environ + fetched) <==> k in kv && k in environ && environ[k] != "";
  }

  /** With a rarer break in the old file, the first-wins reader finds a key after a pull that it did not find before. */
  lemma FormFeedRevealsAKey(k: string, v: string, h: string, w: string)
    requires Identifier(k) && Identifier(h) && k != h && OneLine(v, AnyBreak) && OneLine(w, AnyBreak)
    requires '\0' !in v && '\0' !in w
    ensures var text := AssignmentLine(k, v) + "\U{0c}" + AssignmentLine(h, w);
            var before := FirstWins(Assignment, FileLines(text, Newline), map[]);
            var after := FirstWins(Assignment, FileLines(PulledText(text, [], map[]), Newline), map[]);
            before.Some? && after.Some? && h !in before.value && h in after.value
  {
    var a, b := AssignmentLine(k, v), AssignmentLine(h, w);
    FormFeedLines(a, k, v, b, h, w);
    FormFeedInValue(k, v, h, w);
    FirstOfOne(Assignment, a + "\U{0c}" + b, k, h);
    AssignmentOfWritten(k, v);
    AssignmentOfWritten(h, w);
    UnquotedIsSettable(k, v);
    UnquotedIsSettable(h, w);
    FirstOfTwo(Assignment, a, b, k, h);
  }

  lemma UnquotedIsSettable(k: string, v: string)
    requires Identifier(k) && '\0' !in v
    ensures Settable(k, Unquoted(v))
  {
    UnquotedChars(v);
    assert forall i | 0 <= i < |k| :: IsKeyChar(k[i]);
  }

  lemma FormFeedLines(a: string, k: string, v: string, b: string, h: string, w: string)
    requires Identifier(k) && Identifier(h) && OneLine(v, AnyBreak) && OneLine(w, AnyBreak)
    requires a == AssignmentLine(k, v) && b == AssignmentLine(h, w)
    ensures FileLines(a + "\U{0c}" + b, Newline) == [a + "\U{0c}" + b]
    ensures FileLines(PulledText(a + "\U{0c}" + b, [], map[]), Newline) == [a, b]
  {
    WrittenIsOneLine(k, v, AnyBreak);
    WrittenIsOneLine(h, w, AnyBreak);
    FormFeedIsRead(a, b);
    SplitAtFormFeed(a, b);
    PullOfNothing([a, b]);
    PairReadsBack(a, b);
  }

  lemma PairReadsBack(a: string, b: string)
    requires OneLine(a, AnyBreak) && OneLine(b, AnyBreak)
    ensures FileLines(FileText([a, b]), Newline) == [a, b]
  {
    OneLineIsChomped(a, AnyBreak);
    OneLineIsChomped(b, AnyBreak);
    FileReadsBack([a, b], Newline);
    assert Reread(Chomped, [a, b]) == [a, b];
  }

  lemma FormFeedIsRead(a: string, b: string)
    requires OneLine(a, AnyBreak) && OneLine(b, AnyBreak)
    ensures Translated(a + "\U{0c}" + b) == a + "\U{0c}" + b
  {
    TranslatedIs(a + "\U{0c}" + b);
  }

  lemma FormFeedInValue(k: string, v: string, h: string, w: string)
    requires Identifier(k) && Identifier(h) && '\0' !in v && '\0' !in w
    ensures var a := Assignment(AssignmentLine(k, v) + "\U{0c}" + AssignmentLine(h, w));
            a.Some? && a.value.0 == k && Settable(k, a.value.1)
  {
    var long := v + "\U{0c}" + AssignmentLine(h, w);
    NoZero(v, h, w);
    AssignmentOfWritten(k, long);
    UnquotedIsSettable(k, long);
    SameText(k, v, "\U{0c}", AssignmentLine(h, w));
  }

  lemma NoZero(v: string, h: string, w: string)
    requires Identifier(h) && '\0' !in v && '\0' !in w
    ensures '\0' !in v + "\U{0c}" + AssignmentLine(h, w)
  {
    forall c | c in h ensures c != '\0' {
      var i :| 0 <= i < |h| && h[i] == c;
      assert IsKeyChar(h[i]);
    }
  }

  lemma SameText(k: string, v: string, c: string, b: string)
    ensures AssignmentLine(k, v) + c + b == AssignmentLine(k, v + c + b)
  {
  }

  lemma SplitAtFormFeed(a: string, b: string)
    requires OneLine(a, AnyBreak) && OneLine(b, AnyBreak) && b != ""
    ensures SplitLines(a + "\U{0c}" + b, Newline) == [a + "\U{0c}" + b]
    ensures SplitLines(a + "\U{0c}" + b, AnyBreak) == [a, b]
  {
    var s := a + "\U{0c}" + b;
    assert s[|a|] == '\U{0c}' && s[..|a|] == a && s[|a| + 1..] == b;
    NextBreakIs(s, AnyBreak, |a|);
    assert NextBreak(b, AnyBreak, 0) == |b|;
    assert SplitLines(b, AnyBreak) == [b];
    assert NextBreak(s, Newline, 0) == |s| by {
      forall i | 0 <= i < |s| ensures !Newline(s[i]) {
        assert if i < |a| then s[i] == a[i] else i == |a| || s[i] == b[i - |a| - 1];
      }
    }
  }

  lemma PullOfNothing(lines: seq<string>)
    ensures PulledLines(KeyOf, ToWrite([], map[]), [], lines) == lines
  {
  }

  lemma FirstOfOne(parse: Parser, line: string, k: string, h: string)
    requires parse(line).Some? && parse(line).value.0 == k && h != k && Settable(k, parse(line).value.1)
    ensures FirstWins(parse, [line], map[]).Some? && h !in FirstWins(parse, [line], map[]).value
  {
  }

  lemma FirstOfTwo(parse: Parser, a: string, b: string, k: string, h: string)
    requires parse(a).Some? && parse(a).value.0 == k && Settable(k, parse(a).value.1)
    requires parse(b).Some? && parse(b).value.0 == h && h != k && Settable(h, parse(b).value.1)
    ensures FirstWins(parse, [a, b], map[]).Some? && h in FirstWins(parse, [a, b], map[]).value
  {
    var env: Values := map[][k := parse(a).value.1];
    assert [a, b][1..] == [b] && [b][1..] == [];
    assert FirstWins(parse, [a, b], map[]) == FirstWins(parse, [b], env);
    assert FirstWins(parse, [b], env) == FirstWins(parse, [], env[h := parse(b).value.1]);
  }
}
