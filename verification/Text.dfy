/** Python's string operations on ASCII text, as the agent and the backend use them. */
module Text {
  import opened Options

  predicate IsSpace(c: char) {
    c == ' ' || '\t' <= c <= '\r' || '\U{1c}' <= c <= '\U{1f}'
  }

  function LowerChar(c: char): char {
    if 'A' <= c <= 'Z' then (c as int + 32) as char else c
  }

  /** `s.lower()` */
  function Lower(s: string): (r: string)
    ensures |r| == |s|
    ensures forall i | 0 <= i < |s| :: r[i] == LowerChar(s[i])
  {
    seq(|s|, i requires 0 <= i < |s| => LowerChar(s[i]))
  }

  type Class = char -> bool

  function SkipFrom(s: string, c: Class, i: nat): (j: nat)
    requires i <= |s|
    ensures i <= j <= |s| && (forall k | i <= k < j :: c(s[k])) && (j < |s| ==> !c(s[j]))
    decreases |s| - i
  {
    if i < |s| && c(s[i]) then SkipFrom(s, c, i + 1) else i
  }

  function SkipBack(s: string, c: Class, j: nat): (i: nat)
    requires j <= |s|
    ensures i <= j && (forall k | i <= k < j :: c(s[k])) && (i > 0 ==> !c(s[i - 1]))
  {
    if j > 0 && c(s[j - 1]) then SkipBack(s, c, j - 1) else j
  }

  /** `s[i:j]` */
  function Slice(s: string, i: nat, j: nat): (r: string)
    requires i <= j <= |s|
    ensures |r| == j - i && forall k | 0 <= k < j - i :: r[k] == s[i + k]
  {
    seq(j - i, k requires 0 <= k < j - i => s[i + k])
  }

  /** The text without the characters of a class at its ends. */
  function Stripped(s: string, c: Class): string {
    var i, j := SkipFrom(s, c, 0), SkipBack(s, c, |s|);
    if i < j then Slice(s, i, j) else ""
  }

  /** `s.strip()` */
  function Trim(s: string): string {
    Stripped(s, IsSpace)
  }

  /** The order of strings by code point. */
  predicate Below(x: string, y: string) {
    y != "" && (x == "" || x[0] < y[0] || (x[0] == y[0] && Below(x[1..], y[1..])))
  }

  lemma {:induction false} BelowIsTotal(x: string, y: string)
    ensures Below(x, y) || Below(y, x) || x == y
    ensures !(Below(x, y) && Below(y, x))
    ensures !Below(x, x)
  {
    if x != "" && y != "" {
      BelowIsTotal(x[1..], y[1..]);
      if x[1..] == y[1..] && x[0] == y[0] {
        assert x == [x[0]] + x[1..] && y == [y[0]] + y[1..];
      }
    }
    if x != "" && y == "" { BelowIsTotal(x[1..], x[1..]); }
  }

  lemma {:induction false} BelowIsTransitive(x: string, y: string, z: string)
    requires Below(x, y) && Below(y, z)
    ensures Below(x, z)
  {
    if x != "" && x[0] == y[0] && y[0] == z[0] {
      BelowIsTransitive(x[1..], y[1..], z[1..]);
    }
  }

  ghost predicate Ascending(xs: seq<string>) {
    forall i, j | 0 <= i < j < |xs| :: Below(xs[i], xs[j])
  }

  function Inserted(x: string, xs: seq<string>): seq<string> {
    if xs == [] || Below(x, xs[0]) then [x] + xs
    else if x == xs[0] then xs
    else [xs[0]] + Inserted(x, xs[1..])
  }

  /** `sorted(set(xs))` */
  function SortedSet(xs: seq<string>): seq<string> {
    if xs == [] then [] else Inserted(xs[0], SortedSet(xs[1..]))
  }

  lemma {:induction false} InsertedIsAscending(x: string, xs: seq<string>)
    requires Ascending(xs)
    ensures Ascending(Inserted(x, xs))
    ensures forall y :: y in Inserted(x, xs) <==> y == x || y in xs
  {
    if xs == [] {
    } else if Below(x, xs[0]) {
      forall i | 0 <= i < |xs| ensures Below(x, xs[i]) {
        if i > 0 { BelowIsTransitive(x, xs[0], xs[i]); }
      }
    } else if x != xs[0] {
      BelowIsTotal(x, xs[0]);
      var rest := xs[1..];
      assert Ascending(rest);
      InsertedIsAscending(x, rest);
      var more := Inserted(x, rest);
      forall i | 0 <= i < |more| ensures Below(xs[0], more[i]) {
        assert more[i] in more;
        assert more[i] == x || more[i] in rest;
      }
      assert forall y :: y in xs <==> y == xs[0] || y in rest;
    }
  }

  /** Sorting yields the same elements, each once, in order. */
  lemma {:induction false} SortedSetIsAscending(xs: seq<string>)
    ensures Ascending(SortedSet(xs))
    ensures forall y :: y in SortedSet(xs) <==> y in xs
  {
    if xs != [] {
      SortedSetIsAscending(xs[1..]);
      InsertedIsAscending(xs[0], SortedSet(xs[1..]));
      assert forall y :: y in xs <==> y == xs[0] || y in xs[1..];
    }
  }

  /** There is one way only to write a set in order. */
  lemma {:induction false} AscendingIsUnique(xs: seq<string>, ys: seq<string>)
    requires Ascending(xs) && Ascending(ys) && forall y :: y in xs <==> y in ys
    ensures xs == ys
  {
    assert xs != [] ==> xs[0] in ys;
    assert ys != [] ==> ys[0] in xs;
    if xs != [] && ys != [] {
      var i :| 0 <= i < |ys| && ys[i] == xs[0];
      var j :| 0 <= j < |xs| && xs[j] == ys[0];
      BelowIsTotal(xs[0], ys[0]);
      assert xs[0] == ys[0];
      forall y ensures y in xs[1..] <==> y in ys[1..] {
        Rest(xs, y);
        Rest(ys, y);
      }
      AscendingIsUnique(xs[1..], ys[1..]);
    }
  }

  lemma Rest(xs: seq<string>, y: string)
    requires xs != [] && Ascending(xs)
    ensures y in xs[1..] <==> y in xs && y != xs[0]
  {
    BelowIsTotal(y, y);
    assert y in xs ==> y == xs[0] || y in xs[1..];
  }

  /******* Searching *******/

  predicate At(s: string, pattern: string, i: int) {
    0 <= i && i + |pattern| <= |s| && forall k | 0 <= k < |pattern| :: s[i + k] == pattern[k]
  }

  /** The leftmost occurrence from position `from` on. */
  function FindFrom(s: string, pattern: string, from: nat): (r: Option<nat>)
    requires from <= |s|
    ensures r.Some? ==> r.value + |pattern| <= |s|
    decreases |s| - from
  {
    if At(s, pattern, from) then Some(from)
    else if from == |s| then None
    else FindFrom(s, pattern, from + 1)
  }

  /** `s.find(pattern)` */
  function Find(s: string, pattern: string): (r: Option<nat>)
    ensures r.Some? ==> r.value + |pattern| <= |s|
  {
    FindFrom(s, pattern, 0)
  }

  /** Occurrence `i` is the first. */
  ghost predicate FirstAt(s: string, pattern: string, i: int) {
    At(s, pattern, i) && forall j | 0 <= j < i :: !At(s, pattern, j)
  }

  ghost predicate Absent(s: string, pattern: string) {
    forall j :: !At(s, pattern, j)
  }

  lemma {:induction false} FindFromIsFirst(s: string, pattern: string, from: nat)
    requires from <= |s|
    ensures var r := FindFrom(s, pattern, from);
            && (r.Some? ==> from <= r.value && At(s, pattern, r.value))
            && (r.Some? ==> forall j | from <= j < r.value :: !At(s, pattern, j))
            && (r.None? ==> forall j | from <= j :: !At(s, pattern, j))
    decreases |s| - from
  {
    if !At(s, pattern, from) && from < |s| {
      FindFromIsFirst(s, pattern, from + 1);
    }
  }

  lemma FindIsFirst(s: string, pattern: string)
    ensures Find(s, pattern).None? <==> Absent(s, pattern)
    ensures forall i: nat :: Find(s, pattern) == Some(i) <==> FirstAt(s, pattern, i)
  {
    FindFromIsFirst(s, pattern, 0);
  }

  /** `s.rstrip("\n")` */
  function TrimNewlines(s: string): (r: string)
    ensures |r| <= |s| && r == s[..|r|]
    ensures forall i | |r| <= i < |s| :: s[i] == '\n'
    ensures r != "" ==> r[|r| - 1] != '\n'
  {
    s[..SkipBack(s, c => c == '\n', |s|)]
  }

  lemma TrimNewlinesIs(s: string, r: string)
    requires |r| <= |s| && r == s[..|r|] && (forall i | |r| <= i < |s| :: s[i] == '\n')
    requires r != "" ==> r[|r| - 1] != '\n'
    ensures TrimNewlines(s) == r
  {
  }

  /******* Line ends *******/

  /** What reading a file in text mode makes of its line ends: each becomes one newline. */
  function Translated(s: string): string {
    if s == "" then ""
    else
      var init, c := s[..|s| - 1], s[|s| - 1];
      if c == '\n' && EndsInReturn(init) then Translated(init)
      else Translated(init) + [if c == '\r' then '\n' else c]
  }

  predicate EndsInReturn(s: string) {
    s != "" && s[|s| - 1] == '\r'
  }

  lemma {:induction false} TranslatedHasNoReturn(s: string)
    ensures '\r' !in Translated(s)
  {
    if s != "" {
      TranslatedHasNoReturn(s[..|s| - 1]);
    }
  }

  lemma {:induction false} TranslatedIs(s: string)
    requires '\r' !in s
    ensures Translated(s) == s
  {
    if s != "" {
      TranslatedIs(s[..|s| - 1]);
      assert s == s[..|s| - 1] + [s[|s| - 1]];
    }
  }

  /** Texts can be translated apart unless the cut may go through a line end. */
  lemma {:induction false} TranslatedConcat(x: string, y: string)
    requires !EndsInReturn(x)
    ensures Translated(x + y) == Translated(x) + Translated(y)
  {
    if y == "" {
      assert x + y == x;
    } else {
      var init := y[..|y| - 1];
      TranslatedConcat(x, init);
      assert (x + y)[..|x + y| - 1] == x + init;
      assert EndsInReturn(x + init) <==> EndsInReturn(init);
    }
  }

  /** What writing a file in text mode makes of newlines; `crlf` on Windows. */
  function Stored(s: string, crlf: bool): string {
    if s == "" then ""
    else Stored(s[..|s| - 1], crlf) + if crlf && s[|s| - 1] == '\n' then "\r\n" else [s[|s| - 1]]
  }

  lemma {:induction false} StoredConcat(x: string, y: string, crlf: bool)
    ensures Stored(x + y, crlf) == Stored(x, crlf) + Stored(y, crlf)
  {
    if y == "" {
      assert x + y == x;
    } else {
      StoredConcat(x, y[..|y| - 1], crlf);
      assert (x + y)[..|x + y| - 1] == x + y[..|y| - 1];
    }
  }

  lemma StoredEnd(s: string, crlf: bool)
    ensures EndsInReturn(Stored(s, crlf)) <==> EndsInReturn(s)
  {
  }

  lemma TranslatedEnd(s: string)
    requires !EndsInReturn(s)
    ensures Translated(s + "\r\n") == Translated(s) + "\n"
  {
    assert (s + "\r\n")[..|s| + 1] == s + "\r" && (s + "\r")[..|s|] == s;
  }

  lemma TranslatedNext(s: string, c: char)
    requires !EndsInReturn(s) && c != '\r'
    ensures Translated(s + [c]) == Translated(s) + [c]
  {
    assert (s + [c])[..|s|] == s;
  }

  // One more character, stored and read.
  lemma StoredNext(t: string, c: char, crlf: bool)
    requires !EndsInReturn(t) && c != '\r'
    ensures Translated(t + if crlf && c == '\n' then "\r\n" else [c]) == Translated(t) + [c]
  {
    if crlf && c == '\n' { TranslatedEnd(t); } else { TranslatedNext(t, c); }
  }

  /** Text without carriage returns is read as it was written, on any system. */
  lemma {:induction false} StoredIsRead(s: string, crlf: bool)
    requires '\r' !in s
    ensures Translated(Stored(s, crlf)) == s
  {
    if s != "" {
      var init := s[..|s| - 1];
      StoredIsRead(init, crlf);
      StoredEnd(init, crlf);
      StoredNext(Stored(init, crlf), s[|s| - 1], crlf);
      assert s == init + [s[|s| - 1]];
    }
  }

  /** Different texts are written differently. */
  lemma {:induction false} StoredIsInjective(x: string, y: string, crlf: bool)
    requires Stored(x, crlf) == Stored(y, crlf)
    ensures x == y
  {
    if x != "" && y != "" {
      assert Stored(x, crlf)[|Stored(x, crlf)| - 1] == x[|x| - 1];
      assert Stored(y, crlf)[|Stored(y, crlf)| - 1] == y[|y| - 1];
      var n := |Stored(x, crlf)| - if crlf && x[|x| - 1] == '\n' then 2 else 1;
      assert Stored(x, crlf)[..n] == Stored(x[..|x| - 1], crlf);
      assert Stored(y, crlf)[..n] == Stored(y[..|y| - 1], crlf);
      StoredIsInjective(x[..|x| - 1], y[..|y| - 1], crlf);
      assert x == x[..|x| - 1] + [x[|x| - 1]] && y == y[..|y| - 1] + [y[|y| - 1]];
    }
  }

  /******* Texts joined by a bar *******/

  lemma SplitAtFirstBar(x: string, r: string, y: string, s: string)
    requires '|' !in x && '|' !in y
    ensures x + "|" + r == y + "|" + s <==> x == y && r == s
  {
    var p, q := x + "|" + r, y + "|" + s;
    forall k | 0 <= k < |x| ensures p[k] != '|' { assert x[k] in x; }
    forall k | 0 <= k < |y| ensures q[k] != '|' { assert y[k] in y; }
    if p == q {
      assert p[|x|] == '|' && q[|y|] == '|';
      assert p[..|x|] == x && q[..|y|] == y && p[|x| + 1..] == r && q[|y| + 1..] == s;
    }
  }

  lemma SplitAtLastBar(r: string, x: string, s: string, y: string)
    requires '|' !in x && '|' !in y
    ensures r + "|" + x == s + "|" + y <==> r == s && x == y
  {
    var p, q := r + "|" + x, s + "|" + y;
    forall k | |r| < k < |p| ensures p[k] != '|' { assert x[k - |r| - 1] in x; }
    forall k | |s| < k < |q| ensures q[k] != '|' { assert y[k - |s| - 1] in y; }
    if p == q {
      assert p[|r|] == '|' && q[|s|] == '|';
      assert p[..|r|] == r && q[..|s|] == s && p[|r| + 1..] == x && q[|s| + 1..] == y;
    }
  }
}
