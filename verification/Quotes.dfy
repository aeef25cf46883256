/** How a line of the .env file is read, said of its characters: where the key ends, and which quotes come off. */
module Quotes {
  import opened Options
  import opened Text
  import opened TextLaws
  import opened DotEnv
  import opened KvSecrets

  /******* Values *******/

  predicate Repeats(s: string, q: char) {
    forall i | 0 <= i < |s| :: s[i] == q
  }

  /** `r` is `s` without the quotes at its ends. */
  ghost predicate Framed(s: string, q: char, r: string) {
    && (r != "" ==> r[0] != q && r[|r| - 1] != q)
    && exists a, b :: Surrounds(s, a, r, b) && Repeats(a, q) && Repeats(b, q)
  }

  /** Spaces come off, then double quotes, then single quotes, as many as there are on either side. */
  ghost predicate Reads(v: string, r: string) {
    exists x, y :: Trimmed(v, x) && Framed(x, '"', y) && Framed(y, '\'', r)
  }

  lemma RepeatsIsAll(s: string, q: char)
    ensures Repeats(s, q) <==> All(s, Only(q))
  {
  }

  lemma FramedIsPeeled(s: string, q: char, r: string)
    ensures Framed(s, q, r) <==> Peeled(s, Only(q), r)
  {
    forall a { RepeatsIsAll(a, q); }
  }

  lemma StripIs(s: string, q: char, r: string)
    ensures Strip(s, q) == r <==> Framed(s, q, r)
  {
    StrippedIs(s, Only(q), r);
    FramedIsPeeled(s, q, r);
  }

  lemma UnquotedIs(v: string, r: string)
    ensures Unquoted(v) == r <==> Reads(v, r)
  {
    var x, y := Trim(v), Strip(Trim(v), '"');
    TrimIsTrimmed(v, x);
    StripIs(x, '"', y);
    StripIs(y, '\'', r);
    if Reads(v, r) {
      var x', y' :| Trimmed(v, x') && Framed(x', '"', y') && Framed(y', '\'', r);
      TrimIsTrimmed(v, x');
      StripIs(x', '"', y');
    }
  }

  /******* Lines *******/

  // `l` is `p`, the first equals sign, and `q`.
  predicate Parts(l: string, p: string, q: string) {
    l == p + "=" + q && '=' !in p
  }

  lemma PartsAre(l: string, p: string, q: string)
    requires Parts(l, p, q)
    ensures Equals(l) == |p| < |l| && l[..Equals(l)] == p && Slice(l, Equals(l) + 1, |l|) == q
  {
    forall k | 0 <= k < |p| ensures l[k] != '=' { assert l[k] == p[k] && p[k] in p; }
    assert l[|p|] == '=';
  }

  lemma HasParts(l: string)
    requires Equals(l) < |l|
    ensures Parts(l, l[..Equals(l)], Slice(l, Equals(l) + 1, |l|))
  {
    assert Slice(l, Equals(l) + 1, |l|) == l[Equals(l) + 1..];
  }

  predicate Skipped(l: string) {
    l == "" || l[0] == '#' || '=' !in l
  }

  ghost predicate Assigned(line: string, l: string, p: string, q: string, k: string, v: string) {
    Trimmed(line, l) && !Skipped(l) && Parts(l, p, q) && Trimmed(p, k) && Reads(q, v)
  }

  lemma EqualsIff(l: string)
    ensures Equals(l) < |l| <==> '=' in l
  {
    if '=' in l {
      var i :| 0 <= i < |l| && l[i] == '=';
    }
  }

  // What the reader does with a line that it does not skip.
  lemma AssignmentParts(line: string, l: string)
    requires Trim(line) == l && !Skipped(l)
    ensures Assignment(line) == Some((Trim(l[..Equals(l)]), Unquoted(Slice(l, Equals(l) + 1, |l|))))
  {
    EqualsIff(l);
  }

  lemma AssignedIsRead(line: string, l: string, p: string, q: string, k: string, v: string)
    requires Assigned(line, l, p, q, k, v)
    ensures Assignment(line) == Some((k, v))
  {
    TrimIsTrimmed(line, l);
    PartsAre(l, p, q);
    TrimIsTrimmed(p, k);
    UnquotedIs(q, v);
    AssignmentParts(line, l);
  }

  lemma ReadIsAssigned(line: string, k: string, v: string) returns (l: string, p: string, q: string)
    requires Assignment(line) == Some((k, v))
    ensures Assigned(line, l, p, q, k, v)
  {
    l := Trim(line);
    EqualsIff(l);
    AssignmentParts(line, l);
    p, q := l[..Equals(l)], Slice(l, Equals(l) + 1, |l|);
    TrimIsTrimmed(line, l);
    HasParts(l);
    TrimIsTrimmed(p, k);
    UnquotedIs(q, v);
  }

  /**
   A line is read as an assignment of `v` to `k` exactly if, trimmed, it is no comment and has an equals sign; what
   is before the first one, trimmed, is `k`, and what is behind reads as `v`.
   */
  lemma AssignmentIff(line: string, k: string, v: string)
    ensures Assignment(line) == Some((k, v)) <==> exists l, p, q :: Assigned(line, l, p, q, k, v)
  {
    if Assignment(line) == Some((k, v)) {
      var l, p, q := ReadIsAssigned(line, k, v);
    }
    if l, p, q :| Assigned(line, l, p, q, k, v) {
      AssignedIsRead(line, l, p, q, k, v);
    }
  }

  /** And as nothing exactly if, trimmed, it is empty, a comment, or without an equals sign. */
  lemma NoAssignmentIff(line: string, l: string)
    requires Trimmed(line, l)
    ensures Assignment(line).None? <==> Skipped(l)
  {
    TrimIsTrimmed(line, l);
    EqualsIff(l);
  }

  /** The rewriter takes what is before the first equals sign, trimmed, for the key, or the whole line. */
  lemma KeyOfIs(line: string, p: string, q: string, k: string)
    requires if '=' in line then Parts(line, p, q) else p == line
    ensures KeyOf(line) == k <==> Trimmed(p, k)
  {
    TrimIsTrimmed(p, k);
    EqualsIff(line);
    if '=' in line {
      PartsAre(line, p, q);
    } else {
      assert line[..|line|] == line;
    }
  }

  /******* Quoted values *******/

  predicate NoQuote(c: char) {
    c != '"' && c != '\''
  }

  /** Neither end of the value is a space or a quote. */
  predicate Plain(w: string) {
    w != "" ==> NoQuote(w[0]) && NoQuote(w[|w| - 1]) && w[0] !in SPACES && w[|w| - 1] !in SPACES
  }

  predicate QuotedAs(v: string, w: string) {
    v == w || v == "\"" + w + "\"" || v == "'" + w + "'"
  }

  lemma InQuotes(w: string, q: char)
    requires Plain(w) && (q == '"' || q == '\'')
    ensures var v := [q] + w + [q]; v[0] == v[|v| - 1] == q && NoSpaceAtEnds(v) && Framed(v, q, w)
  {
    var v := [q] + w + [q];
    assert Surrounds(v, [q], w, [q]) && Repeats([q], q);
  }

  lemma NotInQuotes(w: string, q: char)
    requires w != "" ==> w[0] != q && w[|w| - 1] != q
    ensures Framed(w, q, w)
  {
    NoFrame(w);
  }

  lemma QuotedEnds(v: string, w: string)
    requires Plain(w) && QuotedAs(v, w)
    ensures NoSpaceAtEnds(v)
  {
    InQuotes(w, '"');
    InQuotes(w, '\'');
  }

  lemma QuotedFrames(v: string, w: string) returns (y: string)
    requires Plain(w) && QuotedAs(v, w)
    ensures Framed(v, '"', y) && Framed(y, '\'', w)
  {
    InQuotes(w, '"');
    InQuotes(w, '\'');
    NotInQuotes(w, '"');
    NotInQuotes(w, '\'');
    if v == "'" + w + "'" {
      y := v;
      NotInQuotes(v, '"');
    } else {
      y := w;
    }
  }

  lemma QuotedReads(v: string, w: string)
    requires Plain(w) && QuotedAs(v, w)
    ensures NoSpaceAtEnds(v) && Reads(v, w)
  {
    QuotedEnds(v, w);
    var y := QuotedFrames(v, w);
    NoFrame(v);
    TrimBetween(v, "", v, "");
  }

  lemma NoFrame(v: string)
    ensures Surrounds(v, "", v, "")
  {
  }

  // The text without the spaces at its end.
  lemma RightTrimmed(s: string) returns (u: string, e: string)
    ensures s == u + e && Blank(e) && (u != "" ==> u[|u| - 1] !in SPACES) && Trim(u) == Trim(s)
  {
    var r := Trim(s);
    TrimIsTrimmed(s, r);
    var a, b :| Surrounds(s, a, r, b) && Blank(a) && Blank(b);
    if r == "" {
      u, e := "", s;
      TrimBetween("", "", "", "");
      BlankJoins(a, b);
    } else {
      u, e := a + r, b;
      LastOf(a, r);
      TrimBetween(u, a, r, "");
    }
  }

  lemma LastOf(a: string, r: string)
    requires r != ""
    ensures (a + r)[|a + r| - 1] == r[|r| - 1] && Surrounds(a + r, a, r, "")
  {
  }

  lemma BlankJoins(a: string, b: string)
    requires Blank(a) && Blank(b)
    ensures Blank(a + "" + b)
  {
  }

  predicate Name(k: string) {
    && k != "" && k[0] != '#' && '=' !in k && k[0] !in SPACES && k[|k| - 1] !in SPACES
  }

  lemma BlankHasNoEquals(b: string)
    requires Blank(b)
    ensures '=' !in b
  {
  }

  lemma KeyPart(k: string, b: string, u: string)
    requires Name(k) && Blank(b) && (u != "" ==> u[|u| - 1] !in SPACES)
    ensures Parts(k + b + "=" + u, k + b, u) && Trimmed(k + b, k)
    ensures NoSpaceAtEnds(k + b + "=" + u) && !Skipped(k + b + "=" + u)
  {
    var l := k + b + "=" + u;
    BlankHasNoEquals(b);
    assert Surrounds(k + b, "", k, b);
    assert l[|k + b|] == '=' && l[0] == k[0];
    assert l[|l| - 1] == if u == "" then '=' else u[|u| - 1];
  }

  // What is left of the value's part when the whole line is trimmed reads as the value.
  lemma ValuePart(c: string, v: string, w: string, d: string, u: string)
    requires Plain(w) && QuotedAs(v, w) && Blank(c) && Blank(d) && Trim(u) == Trim(c + v + d)
    ensures Reads(u, w)
  {
    QuotedReads(v, w);
    NoFrame(v);
    TrimBetween(v, "", v, "");
    TrimBetween(c + v + d, c, v, d);
    UnquotedIs(v, w);
    UnquotedIs(u, w);
  }

  lemma SevenParts(a: string, k: string, b: string, c: string, v: string, d: string, u: string, e: string)
    requires c + v + d == u + e
    ensures Surrounds(a + k + b + "=" + c + v + d, a, k + b + "=" + u, e)
  {
    assert a + k + b + "=" + c + v + d == a + (k + b + "=" + (c + v + d));
    assert k + b + "=" + (u + e) == (k + b + "=" + u) + e;
  }

  /** A key and a plain value, in quotes of either kind or in none, with any spaces around either: both are read. */
  lemma QuotedLineIsRead(a: string, k: string, b: string, c: string, v: string, w: string, d: string)
    requires Name(k) && Plain(w) && QuotedAs(v, w) && Blank(a) && Blank(b) && Blank(c) && Blank(d)
    ensures Assignment(a + k + b + "=" + c + v + d) == Some((k, w))
  {
    var u, e := RightTrimmed(c + v + d);
    SevenParts(a, k, b, c, v, d, u, e);
    ValuePart(c, v, w, d, u);
    KeyPart(k, b, u);
    TrimBetween(a + k + b + "=" + c + v + d, a, k + b + "=" + u, e);
    AssignedIsRead(a + k + b + "=" + c + v + d, k + b + "=" + u, k + b, u, k, w);
  }

  /******* Line breaks, and what cannot be set *******/

  /** What breaks a line when a file is iterated, and when the rewriter splits it. */
  lemma BreaksAre(c: char)
    ensures Newline(c) <==> c in "\n\r"
    ensures AnyBreak(c) <==> c in "\n\r\U{0b}\U{0c}\U{1c}\U{1d}\U{1e}"
  {
    var all := "\n\r\U{0b}\U{0c}\U{1c}\U{1d}\U{1e}";
    if AnyBreak(c) && !Newline(c) {
      var i := if c as int < 14 then c as int - 9 else c as int - 24;
      assert all[i] == c;
    }
    assert Newline(c) ==> c == all[0] || c == all[1];
  }

  // Line `i` is the first to assign its key, which the environment lacks, and key or value cannot be set.
  ghost predicate Breaks(lines: seq<string>, env: Values, i: nat, k: string, v: string) {
    && i < |lines| && Assignment(lines[i]) == Some((k, v)) && k !in env
    && (forall j | 0 <= j < i :: Assignment(lines[j]).Some? ==> Assignment(lines[j]).value.0 != k)
    && (k == "" || '\0' in k || '\0' in v)
  }

  lemma RefusedBreaks(lines: seq<string>, env: Values, i: nat)
    requires Refused(Assignment, lines, env, i)
    ensures exists k, v :: Breaks(lines, env, i, k, v)
  {
    var (k, v) := Assignment(lines[i]).value;
    forall j | 0 <= j < i && Assignment(lines[j]).Some? ensures Assignment(lines[j]).value.0 != k {
      assert !Assigns(Assignment, lines[j], k);
    }
    assert Breaks(lines, env, i, k, v);
  }

  lemma BreakingIsRefused(lines: seq<string>, env: Values, i: nat, k: string, v: string)
    requires Breaks(lines, env, i, k, v)
    ensures Refused(Assignment, lines, env, i)
  {
    forall j | 0 <= j < i ensures !Assigns(Assignment, lines[j], k) { }
    assert Assigns(Assignment, lines[i], k);
  }

  /** The first-wins reader fails on such a line, and on no other. */
  lemma FailsIff(lines: seq<string>, env: Values)
    ensures FirstWins(Assignment, lines, env).None? <==> exists i: nat, k, v :: Breaks(lines, env, i, k, v)
  {
    FirstWinsIs(Assignment, lines, env);
    if Fails(Assignment, lines, env) {
      var i: nat :| Refused(Assignment, lines, env, i);
      RefusedBreaks(lines, env, i);
    }
    if i: nat, k, v :| Breaks(lines, env, i, k, v) {
      BreakingIsRefused(lines, env, i, k, v);
    }
  }
}
