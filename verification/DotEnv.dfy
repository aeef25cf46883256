/** The shared .env file, its lines, and the two readers that disagree on which of several assignments wins. */
module DotEnv {
  import opened Options
  import opened Text

  type Values = map<string, string>

  /******* Lines *******/

  // `str.splitlines` also breaks lines at the vertical tab, the form feed and three separators.
  predicate AnyBreak(c: char) {
    Newline(c) || c == '\U{0b}' || c == '\U{0c}' || '\U{1c}' <= c <= '\U{1e}'
  }

  // Iterating over an open file does not. Reading a file leaves newlines only of these two.
  predicate Newline(c: char) {
    c == '\n' || c == '\r'
  }

  type Breaks = char -> bool

  function NextBreak(s: string, breaks: Breaks, from: nat): (i: nat)
    requires from <= |s|
    ensures from <= i <= |s| && (i < |s| ==> breaks(s[i])) && forall k | from <= k < i :: !breaks(s[k])
    decreases |s| - from
  {
    if from == |s| || breaks(s[from]) then from else NextBreak(s, breaks, from + 1)
  }

  /** The lines of a text, without their breaks; no empty line after a final break. */
  function SplitLines(s: string, breaks: Breaks): seq<string>
    decreases |s|
  {
    if s == "" then []
    else
      var i := NextBreak(s, breaks, 0);
      if i == |s| then [s] else [s[..i]] + SplitLines(s[i + 1..], breaks)
  }

  /** The lines of a file as they are read. */
  function FileLines(text: string, breaks: Breaks): seq<string> {
    SplitLines(Translated(text), breaks)
  }

  function JoinLines(lines: seq<string>): string {
    if lines == [] then "" else lines[0] + "\n" + JoinLines(lines[1..])
  }

  predicate OneLine(s: string, breaks: Breaks) {
    forall i | 0 <= i < |s| :: !breaks(s[i])
  }

  predicate OneLineEach(lines: seq<string>, breaks: Breaks) {
    forall l | l in lines :: OneLine(l, breaks)
  }

  lemma NextBreakIs(s: string, breaks: Breaks, i: nat)
    requires i < |s| && breaks(s[i]) && OneLine(s[..i], breaks)
    ensures NextBreak(s, breaks, 0) == i
  {
  }

  /** Lines that were joined are read back as they were. */
  lemma {:induction false} SplitOfJoin(lines: seq<string>, breaks: Breaks)
    requires breaks('\n') && OneLineEach(lines, breaks)
    ensures SplitLines(JoinLines(lines), breaks) == lines
  {
    if lines != [] {
      var l, more := lines[0], JoinLines(lines[1..]);
      var s := JoinLines(lines);
      assert l in lines;
      assert s[|l|] == '\n' && s[..|l|] == l && s[|l| + 1..] == more;
      NextBreakIs(s, breaks, |l|);
      SplitOfJoin(lines[1..], breaks);
    }
  }

  lemma {:induction false} SplitIsOneLineEach(s: string, breaks: Breaks)
    ensures OneLineEach(SplitLines(s, breaks), breaks)
    decreases |s|
  {
    if s != "" {
      var i := NextBreak(s, breaks, 0);
      if i < |s| {
        SplitIsOneLineEach(s[i + 1..], breaks);
      }
    }
  }

  lemma {:induction false} NextBreakAgrees(s: string, from: nat)
    requires from <= |s| && forall i | 0 <= i < |s| :: AnyBreak(s[i]) ==> Newline(s[i])
    ensures NextBreak(s, AnyBreak, from) == NextBreak(s, Newline, from)
    decreases |s| - from
  {
  }

  /** Without the rarer breaks both ways of reading give the same lines. */
  lemma {:induction false} SplitsAgree(s: string)
    requires forall i | 0 <= i < |s| :: AnyBreak(s[i]) ==> Newline(s[i])
    ensures SplitLines(s, AnyBreak) == SplitLines(s, Newline)
    decreases |s|
  {
    if s != "" {
      NextBreakAgrees(s, 0);
      var i := NextBreak(s, AnyBreak, 0);
      if i < |s| {
        SplitsAgree(s[i + 1..]);
      }
    }
  }

  /******* Assignments *******/

  function EqualsFrom(s: string, from: nat): (i: nat)
    requires from <= |s|
    ensures from <= i <= |s| && (i < |s| ==> s[i] == '=') && forall k | from <= k < i :: s[k] != '='
    decreases |s| - from
  {
    if from == |s| || s[from] == '=' then from else EqualsFrom(s, from + 1)
  }

  // The position of the first '=', or the length.
  function Equals(s: string): (i: nat)
    ensures i <= |s| && (i < |s| ==> s[i] == '=') && forall k | 0 <= k < i :: s[k] != '='
  {
    EqualsFrom(s, 0)
  }

  function Only(c: char): Class {
    x => x == c
  }

  // `s.strip(c)`
  function Strip(s: string, c: char): string {
    Stripped(s, Only(c))
  }

  /** `v.strip().strip('"').strip("'")` */
  function Unquoted(v: string): string {
    Strip(Strip(Trim(v), '"'), '\'')
  }

  /** What either reader makes of a line: nothing, or a key and a value. */
  function Assignment(line: string): Option<(string, string)> {
    var l := Trim(line);
    if l == "" || l[0] == '#' || Equals(l) == |l| then None
    else Some((Trim(l[..Equals(l)]), Unquoted(Slice(l, Equals(l) + 1, |l|))))
  }

  /******* The readers, for whatever way of parsing a line *******/

  type Parser = string -> Option<(string, string)>

  /** What the last-wins reader collects; assignments to an empty key are skipped. */
  function LastWins(parse: Parser, lines: seq<string>): Values {
    if lines == [] then map[]
    else
      var before, a := LastWins(parse, lines[..|lines| - 1]), parse(lines[|lines| - 1]);
      if a.None? || a.value.0 == "" then before else before[a.value.0 := a.value.1]
  }

  // The operating system refuses empty names and zero characters: setting such a variable is an error.
  predicate Settable(key: string, value: string) {
    key != "" && '\0' !in key && '\0' !in value
  }

  /** What the first-wins reader makes of an environment; an error ends the program. */
  function FirstWins(parse: Parser, lines: seq<string>, env: Values): Option<Values> {
    if lines == [] then Some(env)
    else
      var a, rest := parse(lines[0]), lines[1..];
      if a.None? || a.value.0 in env then FirstWins(parse, rest, env)
      else if !Settable(a.value.0, a.value.1) then None
      else FirstWins(parse, rest, env[a.value.0 := a.value.1])
  }

  /** The same if nothing were refused. */
  function Filled(parse: Parser, lines: seq<string>, env: Values): Values {
    if lines == [] then env
    else
      var a, rest := parse(lines[0]), lines[1..];
      Filled(parse, rest, if a.None? || a.value.0 in env then env else env[a.value.0 := a.value.1])
  }

  method CollectLastWins(parse: Parser, lines: seq<string>) returns (result: Values)
    ensures result == LastWins(parse, lines)
  {
    result := map[];
    for n := 0 to |lines|
      invariant result == LastWins(parse, lines[..n])
    {
      assert lines[..n + 1][..n] == lines[..n];
      var a := parse(lines[n]);
      if a.Some? && a.value.0 != "" {
        result := result[a.value.0 := a.value.1];
      }
    }
    assert lines[..|lines|] == lines;
  }

  method CollectFirstWins(parse: Parser, lines: seq<string>, env: Values) returns (result: Option<Values>)
    ensures result == FirstWins(parse, lines, env)
  {
    var values := env;
    for n := 0 to |lines|
      invariant FirstWins(parse, lines[n..], values) == FirstWins(parse, lines, env)
    {
      assert lines[n..][1..] == lines[n + 1..];
      var a := parse(lines[n]);
      if a.Some? && a.value.0 !in values {
        if !Settable(a.value.0, a.value.1) {
          return None;
        }
        values := values[a.value.0 := a.value.1];
      }
    }
    return Some(values);
  }

  /******* What each reader returns, by position *******/

  predicate Assigns(parse: Parser, line: string, k: string) {
    parse(line).Some? && parse(line).value.0 == k
  }

  predicate IsLast(parse: Parser, lines: seq<string>, k: string, i: nat) {
    i < |lines| && Assigns(parse, lines[i], k) && forall j | i < j < |lines| :: !Assigns(parse, lines[j], k)
  }

  predicate IsFirst(parse: Parser, lines: seq<string>, k: string, i: nat) {
    i < |lines| && Assigns(parse, lines[i], k) && forall j | 0 <= j < i :: !Assigns(parse, lines[j], k)
  }

  predicate Mentions(parse: Parser, lines: seq<string>, k: string) {
    exists i | 0 <= i < |lines| :: Assigns(parse, lines[i], k)
  }

  lemma {:induction false} LastWinsIs(parse: Parser, lines: seq<string>, k: string)
    ensures k in LastWins(parse, lines) <==> k != "" && Mentions(parse, lines, k)
    ensures forall i: nat | k != "" && IsLast(parse, lines, k, i) ::
              k in LastWins(parse, lines) && LastWins(parse, lines)[k] == parse(lines[i]).value.1
  {
    if lines != [] {
      var n := |lines| - 1;
      var init := lines[..n];
      LastWinsIs(parse, init, k);
      assert forall i | 0 <= i < n :: init[i] == lines[i];
      if Mentions(parse, lines, k) && !Assigns(parse, lines[n], k) {
        var i :| 0 <= i < |lines| && Assigns(parse, lines[i], k);
        assert Assigns(parse, init[i], k);
      }
      forall i: nat | k != "" && IsLast(parse, lines, k, i)
        ensures k in LastWins(parse, lines) && LastWins(parse, lines)[k] == parse(lines[i]).value.1
      {
        if i < n {
          assert !Assigns(parse, lines[n], k);
          assert IsLast(parse, init, k, i);
        }
      }
    }
  }

  /** The line is the first to assign its key, which the environment lacks, and what it assigns cannot be set. */
  predicate Refused(parse: Parser, lines: seq<string>, env: Values, i: nat) {
    && i < |lines| && parse(lines[i]).Some?
    && var (k, v) := parse(lines[i]).value;
       k !in env && IsFirst(parse, lines, k, i) && !Settable(k, v)
  }

  ghost predicate Fails(parse: Parser, lines: seq<string>, env: Values) {
    exists i: nat :: Refused(parse, lines, env, i)
  }

  lemma {:induction false} FilledIs(parse: Parser, lines: seq<string>, env: Values, k: string)
    ensures var m := Filled(parse, lines, env);
            && (k in m <==> k in env || Mentions(parse, lines, k))
            && (k in env ==> m[k] == env[k])
            && forall i: nat | k !in env && IsFirst(parse, lines, k, i) :: m[k] == parse(lines[i]).value.1
  {
    if lines != [] {
      var a, rest := parse(lines[0]), lines[1..];
      MentionsInRest(parse, lines, k);
      FilledIs(parse, rest, if a.None? || a.value.0 in env then env else env[a.value.0 := a.value.1], k);
      forall i: nat | i > 0 && IsFirst(parse, lines, k, i)
        ensures IsFirst(parse, rest, k, i - 1) && !Assigns(parse, lines[0], k)
      {
        assert forall j | 0 <= j < |rest| :: rest[j] == lines[j + 1];
      }
    }
  }

  lemma FirstInRest(parse: Parser, lines: seq<string>, k: string, i: nat)
    requires lines != []
    ensures IsFirst(parse, lines, k, i + 1) <==> !Assigns(parse, lines[0], k) && IsFirst(parse, lines[1..], k, i)
  {
    var rest := lines[1..];
    assert forall j | 0 <= j < |rest| :: rest[j] == lines[j + 1];
    if IsFirst(parse, rest, k, i) && !Assigns(parse, lines[0], k) {
      forall j | 0 <= j < i + 1 ensures !Assigns(parse, lines[j], k) {
        if j > 0 { assert lines[j] == rest[j - 1]; }
      }
    }
  }

  lemma RefusedInRest(parse: Parser, lines: seq<string>, env: Values, i: nat)
    requires lines != []
    requires var a := parse(lines[0]); a.None? || a.value.0 in env || Settable(a.value.0, a.value.1)
    ensures var a := parse(lines[0]);
            var env' := if a.None? || a.value.0 in env then env else env[a.value.0 := a.value.1];
            Refused(parse, lines, env, i + 1) <==> Refused(parse, lines[1..], env', i)
  {
    if i < |lines| - 1 && parse(lines[i + 1]).Some? {
      assert lines[1..][i] == lines[i + 1];
      FirstInRest(parse, lines, parse(lines[i + 1]).value.0, i);
    }
  }

  /** The first-wins reader fails exactly if a line is refused, and otherwise fills in what the first lines assign. */
  lemma {:induction false} FirstWinsIs(parse: Parser, lines: seq<string>, env: Values)
    ensures FirstWins(parse, lines, env) == if Fails(parse, lines, env) then None else Some(Filled(parse, lines, env))
  {
    if lines != [] {
      var a, rest := parse(lines[0]), lines[1..];
      var env' := if a.None? || a.value.0 in env then env else env[a.value.0 := a.value.1];
      if a.Some? && a.value.0 !in env && !Settable(a.value.0, a.value.1) {
        assert Refused(parse, lines, env, 0);
      } else {
        FirstWinsIs(parse, rest, env');
        forall i: nat ensures Refused(parse, lines, env, i + 1) <==> Refused(parse, rest, env', i) {
          RefusedInRest(parse, lines, env, i);
        }
        FailsInRest(parse, lines, rest, env, env');
      }
    }
  }

  lemma FailsInRest(parse: Parser, lines: seq<string>, rest: seq<string>, env: Values, env': Values)
    requires !Refused(parse, lines, env, 0)
    requires forall i: nat :: Refused(parse, lines, env, i + 1) <==> Refused(parse, rest, env', i)
    ensures Fails(parse, lines, env) <==> Fails(parse, rest, env')
  {
    if i: nat :| Refused(parse, lines, env, i) {
      assert Refused(parse, rest, env', i - 1);
    }
    if i: nat :| Refused(parse, rest, env', i) {
      assert Refused(parse, lines, env, i + 1);
    }
  }

  lemma MentionsInRest(parse: Parser, lines: seq<string>, x: string)
    requires lines != []
    ensures Mentions(parse, lines, x) <==> Assigns(parse, lines[0], x) || Mentions(parse, lines[1..], x)
  {
  }

  lemma {:induction false} LastExists(parse: Parser, lines: seq<string>, k: string) returns (i: nat)
    requires Mentions(parse, lines, k)
    ensures IsLast(parse, lines, k, i)
  {
    var n := |lines| - 1;
    if Assigns(parse, lines[n], k) {
      i := n;
    } else {
      var j :| 0 <= j < |lines| && Assigns(parse, lines[j], k);
      assert lines[..n][j] == lines[j];
      i := LastExists(parse, lines[..n], k);
      assert forall m | 0 <= m < n :: lines[..n][m] == lines[m];
    }
  }

  lemma {:induction false} FirstExists(parse: Parser, lines: seq<string>, k: string) returns (i: nat)
    requires Mentions(parse, lines, k)
    ensures IsFirst(parse, lines, k, i)
  {
    if Assigns(parse, lines[0], k) {
      i := 0;
    } else {
      MentionsInRest(parse, lines, k);
      i := FirstExists(parse, lines[1..], k);
      i := i + 1;
      forall j | 0 < j < i ensures !Assigns(parse, lines[j], k) {
        assert lines[1..][j - 1] == lines[j];
      }
    }
  }

  /**
   The reader of the threat-intelligence sync: it returns exactly the keys that some line assigns, each with the
   value of the last line that does.
   */
  method ReadLastWins(text: string) returns (result: Values)
    ensures result == LastWins(Assignment, FileLines(text, AnyBreak))
    ensures forall k :: k in result <==> k != "" && Mentions(Assignment, FileLines(text, AnyBreak), k)
    ensures forall k, i: nat | k in result && IsLast(Assignment, FileLines(text, AnyBreak), k, i) ::
              result[k] == Assignment(FileLines(text, AnyBreak)[i]).value.1
  {
    result := CollectLastWins(Assignment, FileLines(text, AnyBreak));
    forall k { LastWinsIs(Assignment, FileLines(text, AnyBreak), k); }
  }

  /**
   The reader of the scan engine, on top of the process environment: it fails exactly when some line is the first to
   assign a key that the environment lacks, and the key or the value cannot be set; otherwise it fills in the keys
   that the environment lacks, each with the value of the first line.
   */
  method ReadFirstWins(text: string, env: Values) returns (result: Option<Values>)
    ensures result == FirstWins(Assignment, FileLines(text, Newline), env)
    ensures result.None? <==> Fails(Assignment, FileLines(text, Newline), env)
    ensures result.Some? ==>
              forall k :: k in result.value <==> k in env || Mentions(Assignment, FileLines(text, Newline), k)
    ensures result.Some? ==> forall k | k in env :: result.value[k] == env[k]
    ensures result.Some? ==>
              var lines := FileLines(text, Newline);
              forall k, i: nat | k in result.value && k !in env && IsFirst(Assignment, lines, k, i) ::
                result.value[k] == Assignment(lines[i]).value.1
  {
    result := CollectFirstWins(Assignment, FileLines(text, Newline), env);
    FirstWinsIs(Assignment, FileLines(text, Newline), env);
    forall k { FilledIs(Assignment, FileLines(text, Newline), env, k); }
  }

  /******* Trimming *******/

  predicate SpaceOn(s: string, lo: int, hi: int) {
    forall x | 0 <= x < |s| && lo <= x < hi :: IsSpace(s[x])
  }

  /** Trimming cuts off spaces on both sides and nothing else. */
  lemma TrimBounds(s: string) returns (i: nat, j: nat)
    ensures i <= j <= |s| && Trim(s) == Slice(s, i, j) && SpaceOn(s, 0, i) && SpaceOn(s, j, |s|)
    ensures i < j ==> !IsSpace(s[i]) && !IsSpace(s[j - 1])
  {
    i, j := SkipFrom(s, IsSpace, 0), SkipBack(s, IsSpace, |s|);
    if j < i { j := i; }
  }

  lemma TrimIs(s: string, i: nat, j: nat)
    requires i <= j <= |s| && SpaceOn(s, 0, i) && SpaceOn(s, j, |s|)
    requires i < j ==> !IsSpace(s[i]) && !IsSpace(s[j - 1])
    ensures Trim(s) == Slice(s, i, j)
  {
    var p, q := TrimBounds(s);
    if i < j || p < q {
      assert p == i && q == j;
    }
  }

  lemma SliceBehind(s: string, t: string, i: nat, p: nat, q: nat)
    requires i <= |s| && t == Slice(s, i, |s|) && p <= q <= |t|
    ensures Slice(t, p, q) == Slice(s, i + p, i + q)
  {
  }

  lemma SpaceBehind(s: string, t: string, i: nat, lo: nat, hi: nat)
    requires i <= |s| && t == Slice(s, i, |s|) && SpaceOn(t, lo, hi)
    ensures SpaceOn(s, i + lo, i + hi)
  {
    forall x | 0 <= x < |s| && i + lo <= x < i + hi ensures IsSpace(s[x]) { assert t[x - i] == s[x]; }
  }

  /** Leading spaces make no difference. */
  lemma TrimWithoutLeading(s: string, t: string, i: nat)
    requires i <= |s| && SpaceOn(s, 0, i) && t == Slice(s, i, |s|)
    ensures Trim(s) == Trim(t)
  {
    var p, q := TrimBounds(t);
    SpaceBehind(s, t, i, 0, p);
    SpaceBehind(s, t, i, q, |t|);
    SliceBehind(s, t, i, p, q);
    TrimIs(s, i + p, i + q);
  }
}
