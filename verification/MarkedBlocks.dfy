/** Text with blocks between two markers: removing the blocks, and writing one behind the rest. */
module MarkedBlocks {
  import opened Options
  import opened Text

  // One line break right after the end marker goes with the block.
  function AfterEnd(s: string): (r: string)
    ensures |r| <= |s|
  {
    if s != "" && s[0] == '\n' then s[1..] else s
  }

  /** The text before the first block, from a begin marker `b` to the nearest end marker `e`, and the text behind it. */
  function FirstBlock(b: string, e: string, s: string): (r: Option<(string, string)>)
    requires b != ""
    ensures r.Some? ==> |r.value.0| + |r.value.1| < |s|
  {
    var i := Find(s, b);
    if i.None? then None
    else
      var rest := s[i.value + |b|..];
      var j := Find(rest, e);
      if j.None? then None else Some((s[..i.value], AfterEnd(rest[j.value + |e|..])))
  }

  /** Every block removed; what is left is not searched again. */
  function Cleared(b: string, e: string, s: string): (r: string)
    requires b != ""
    ensures |r| <= |s|
    decreases |s|
  {
    match FirstBlock(b, e, s)
    case None => s
    case Some((before, behind)) => before + Cleared(b, e, behind)
  }

  /** The non-greedy substitution, as a scan from left to right. */
  method ClearBlocks(b: string, e: string, content: string) returns (out: string)
    requires b != ""
    ensures out == Cleared(b, e, content)
  {
    out := "";
    var rest := content;
    var block := FirstBlock(b, e, rest);
    while block.Some?
      invariant block == FirstBlock(b, e, rest)
      invariant out + Cleared(b, e, rest) == Cleared(b, e, content)
      decreases |rest|
    {
      var (before, behind) := block.value;
      Associates(out, before, Cleared(b, e, behind));
      out, rest := out + before, behind;
      block := FirstBlock(b, e, rest);
    }
    out := out + rest;
  }

  lemma Associates(x: string, y: string, z: string)
    ensures x + (y + z) == x + y + z
  {
  }

  /** What a block looks like behind the trimmed text. */
  function Tail(b: string, e: string, lines: string): string {
    "\n\n" + b + "\n" + lines + e + "\n"
  }

  /** The text outside the blocks, trimmed, with a new block behind it. */
  function Written(b: string, e: string, content: string, lines: string): string
    requires b != ""
  {
    TrimNewlines(Cleared(b, e, content)) + Tail(b, e, lines)
  }

  predicate NoUpperCase(s: string) {
    forall i | 0 <= i < |s| :: !('A' <= s[i] <= 'Z')
  }

  /** What the laws below need to know of the markers. */
  predicate Markers(b: string, e: string) {
    && |b| >= 3 && |e| >= 3 && '\n' !in b && '\n' !in e
    && b[0] == '#' && b[2] != 'E' && (forall k | 0 < k < |b| :: b[k] != '#')
    && e[0] == '#' && e[1] == ' ' && e[2] == 'E'
  }

  /** The part of a block behind its begin marker. */
  function Rest(e: string, lines: string): string {
    "\n" + lines + e + "\n"
  }

  /******* Where the markers of a written block are found *******/

  /** The parts of a tail, by position. */
  ghost predicate IsTail(b: string, e: string, lines: string, t: string) {
    && |t| == |b| + |lines| + |e| + 4
    && t[0] == '\n' && t[1] == '\n' && At(t, b, 2) && t[2 + |b|..] == Rest(e, lines)
  }

  lemma TailParts(b: string, e: string, lines: string)
    ensures IsTail(b, e, lines, Tail(b, e, lines))
  {
  }

  /** An end marker can only start where a '#' is followed two places on by an 'E'. */
  lemma NotAtEnd(b: string, e: string, s: string, j: nat)
    requires Markers(b, e) && (j + 2 < |s| ==> s[j] != '#' || s[j + 2] != 'E')
    ensures !At(s, e, j)
  {
  }

  /** No occurrence of a marker goes over a line break. */
  lemma NotAcrossBreak(s: string, m: string, j: nat, k: nat)
    requires '\n' !in m && j <= k < j + |m| && k < |s| && s[k] == '\n'
    ensures !At(s, m, j)
  {
    assert m[k - j] in m;
  }

  lemma AtPrefix(x: string, y: string, m: string, j: nat)
    requires j + |m| <= |x|
    ensures At(x + y, m, j) <==> At(x, m, j)
  {
  }

  lemma AtSuffix(x: string, y: string, m: string, j: nat)
    ensures At(x + y, m, |x| + j) <==> At(y, m, j)
  {
  }

  /** In text without a begin marker, the first one is the block's own. */
  lemma BeginIsFound(b: string, e: string, lines: string, x: string, t: string)
    requires Markers(b, e) && IsTail(b, e, lines, t) && Absent(x, b)
    ensures FirstAt(x + t, b, |x| + 2)
  {
    forall j | 0 <= j < |x| + 2 ensures !At(x + t, b, j) {
      if j + |b| <= |x| {
        AtPrefix(x, t, b, j);
      } else {
        NotAcrossBreak(x + t, b, j, if j < |x| then |x| else j);
      }
    }
    AtSuffix(x, t, b, 2);
  }

  lemma RestParts(e: string, lines: string)
    ensures var s := Rest(e, lines);
            && (forall k | 0 <= k < |lines| :: s[1 + k] == lines[k])
            && At(s, e, 1 + |lines|) && s[1 + |lines| + |e|..] == "\n"
  {
  }

  /** After the begin marker, the first end marker is the block's own: its lines have no upper case. */
  lemma EndIsFound(b: string, e: string, lines: string)
    requires Markers(b, e) && NoUpperCase(lines)
    ensures FirstAt(Rest(e, lines), e, 1 + |lines|)
  {
  }

  lemma NoEndInFront(b: string, e: string, lines: string, t: string, j: nat)
    requires Markers(b, e) && IsTail(b, e, lines, t) && j < 2 + |b|
    ensures !At(t, e, j)
  {
    assert j >= 2 ==> t[2 + (j - 2)] == b[j - 2];
    assert t[2 + 2] == b[2];
    NotAtEnd(b, e, t, j);
  }

  /** Where the end marker of a tail is, and what is behind it. */
  function EndOf(b: string, lines: string): nat {
    3 + |b| + |lines|
  }

  lemma NoEndBefore(b: string, e: string, lines: string, t: string, j: nat)
    requires Markers(b, e) && NoUpperCase(lines) && IsTail(b, e, lines, t) && j < EndOf(b, lines)
    ensures !At(t, e, j)
  {
    if j < 2 + |b| {
      NoEndInFront(b, e, lines, t, j);
    } else {
      var r, front := Rest(e, lines), t[..2 + |b|];
      EndIsFound(b, e, lines);
      assert t == front + r;
      AtSuffix(front, r, e, j - 2 - |b|);
    }
  }

  lemma EndBehindFront(e: string, lines: string, front: string)
    ensures At(front + Rest(e, lines), e, |front| + 1 + |lines|)
    ensures (front + Rest(e, lines))[|front| + 1 + |lines| + |e|..] == "\n"
  {
    RestParts(e, lines);
    AtSuffix(front, Rest(e, lines), e, 1 + |lines|);
    BehindText(front, Rest(e, lines), 1 + |lines| + |e|);
  }

  lemma TailFront(b: string, e: string, lines: string, t: string)
    requires IsTail(b, e, lines, t)
    ensures t == t[..2 + |b|] + Rest(e, lines) && |t[..2 + |b|]| == 2 + |b|
  {
  }

  lemma EndInTail(b: string, e: string, lines: string, t: string)
    requires Markers(b, e) && NoUpperCase(lines) && IsTail(b, e, lines, t)
    ensures FirstAt(t, e, EndOf(b, lines)) && t[EndOf(b, lines) + |e|..] == "\n"
  {
    TailFront(b, e, lines, t);
    EndBehindFront(e, lines, t[..2 + |b|]);
    forall j | 0 <= j < EndOf(b, lines) ensures !At(t, e, j) {
      NoEndBefore(b, e, lines, t, j);
    }
  }

  /** The same when the search starts before the begin marker, behind text without an end marker. */
  lemma EndIsFoundBehind(b: string, e: string, lines: string, y: string, t: string)
    requires Markers(b, e) && NoUpperCase(lines) && IsTail(b, e, lines, t) && Absent(y, e)
    ensures FirstAt(y + t, e, |y| + EndOf(b, lines))
    ensures (y + t)[|y| + EndOf(b, lines) + |e|..] == "\n"
  {
    EndInTail(b, e, lines, t);
    FirstBehind(e, y, t, EndOf(b, lines));
    BehindText(y, t, EndOf(b, lines) + |e|);
  }

  lemma FirstBehind(m: string, y: string, t: string, i: nat)
    requires '\n' !in m && t != "" && t[0] == '\n' && FirstAt(t, m, i) && Absent(y, m)
    ensures FirstAt(y + t, m, |y| + i)
  {
    AtSuffix(y, t, m, i);
    forall j | 0 <= j < |y| + i ensures !At(y + t, m, j) {
      if j < |y| {
        NotInText(m, y, t, j);
      } else {
        AtSuffix(y, t, m, j - |y|);
      }
    }
  }

  lemma NotInText(m: string, y: string, t: string, j: nat)
    requires '\n' !in m && t != "" && t[0] == '\n' && j < |y| && !At(y, m, j)
    ensures !At(y + t, m, j)
  {
    if j + |m| <= |y| {
      AtPrefix(y, t, m, j);
    } else {
      NotAcrossBreak(y + t, m, j, |y|);
    }
  }

  lemma FirstStaysFirst(m: string, y: string, t: string, i: nat)
    requires FirstAt(y, m, i)
    ensures FirstAt(y + t, m, i)
  {
    AtPrefix(y, t, m, i);
    forall j | 0 <= j < i ensures !At(y + t, m, j) {
      AtPrefix(y, t, m, j);
    }
  }

  /******* Writing a block and clearing it *******/

  lemma ClearedStep(b: string, e: string, s: string, i: nat, rest: string, j: nat, after: string)
    requires b != "" && FirstAt(s, b, i) && s[i + |b|..] == rest && FirstAt(rest, e, j) && rest[j + |e|..] == after
    ensures Cleared(b, e, s) == s[..i] + Cleared(b, e, AfterEnd(after))
  {
    FoundAt(s, b, i);
    FoundAt(rest, e, j);
    ClearedFound(b, e, s, i, j);
  }

  lemma ClearedFound(b: string, e: string, s: string, i: nat, j: nat)
    requires b != "" && Find(s, b) == Some(i) && Find(s[i + |b|..], e) == Some(j)
    ensures Cleared(b, e, s) == s[..i] + Cleared(b, e, AfterEnd(s[i + |b|..][j + |e|..]))
  {
    BlockFound(b, e, s, i, j);
    ClearedBlock(b, e, s, s[..i], AfterEnd(s[i + |b|..][j + |e|..]));
  }

  lemma BlockFound(b: string, e: string, s: string, i: nat, j: nat)
    requires b != "" && Find(s, b) == Some(i) && Find(s[i + |b|..], e) == Some(j)
    ensures FirstBlock(b, e, s) == Some((s[..i], AfterEnd(s[i + |b|..][j + |e|..])))
  {
  }

  lemma ClearedBlock(b: string, e: string, s: string, before: string, behind: string)
    requires b != "" && FirstBlock(b, e, s) == Some((before, behind))
    ensures Cleared(b, e, s) == before + Cleared(b, e, behind)
  {
  }

  lemma FoundAt(s: string, m: string, i: nat)
    requires FirstAt(s, m, i)
    ensures Find(s, m) == Some(i)
  {
    FindIsFirst(s, m);
  }

  lemma ClearedUnmarked(b: string, e: string, s: string)
    requires b != "" && Absent(s, b)
    ensures Cleared(b, e, s) == s
  {
    FindIsFirst(s, b);
  }

  lemma ClearedBreak(b: string, e: string)
    requires b != ""
    ensures Cleared(b, e, AfterEnd("\n")) == ""
  {
  }

  /** When the block ends the text, what is before it is left. */
  lemma ClearedToEnd(b: string, e: string, s: string, i: nat, rest: string, j: nat)
    requires b != "" && FirstAt(s, b, i) && s[i + |b|..] == rest && FirstAt(rest, e, j) && rest[j + |e|..] == "\n"
    ensures Cleared(b, e, s) == s[..i]
  {
    ClearedStep(b, e, s, i, rest, j, "\n");
    ClearedBreak(b, e);
  }

  // The text is `x`, the leftmost begin marker, `y`, the nearest end marker, and `z`.
  predicate Parted(b: string, e: string, s: string, x: string, y: string, z: string) {
    && s == x + (b + (y + (e + z)))
    && (forall j | 0 <= j < |x| :: !At(s, b, j))
    && forall j | 0 <= j < |y| :: !At(y + (e + z), e, j)
  }

  lemma PartedAt(b: string, e: string, s: string, x: string, y: string, z: string)
    requires Parted(b, e, s, x, y, z)
    ensures FirstAt(s, b, |x|) && s[|x| + |b|..] == y + (e + z) && s[..|x|] == x
    ensures FirstAt(y + (e + z), e, |y|) && (y + (e + z))[|y| + |e|..] == z
  {
    assert s[|x| + |b|..] == y + (e + z);
    assert (y + (e + z))[|y|..] == e + z;
  }

  /**
   What the substitution makes of any text: without a begin marker that an end marker follows, the text itself;
   otherwise what is before the first block, and behind it the same again, without a line break right after the block.
   */
  lemma ClearedIs(b: string, e: string, s: string, x: string, y: string, z: string)
    requires b != ""
    ensures Parted(b, e, s, x, y, z) ==>
              Cleared(b, e, s) == x + Cleared(b, e, if z != "" && z[0] == '\n' then z[1..] else z)
    ensures (forall x', y', z' :: !Parted(b, e, s, x', y', z')) ==> Cleared(b, e, s) == s
  {
    if Parted(b, e, s, x, y, z) {
      PartedAt(b, e, s, x, y, z);
      ClearedStep(b, e, s, |x|, y + (e + z), |y|, z);
    }
    if FirstBlock(b, e, s).Some? {
      var x', y', z' := BlockParts(b, e, s);
    }
  }

  lemma AtIs(s: string, m: string, i: nat)
    requires At(s, m, i)
    ensures s == s[..i] + (m + s[i + |m|..])
  {
    assert s[i..i + |m|] == m;
    assert s == s[..i] + (s[i..i + |m|] + s[i + |m|..]);
  }

  // A block that is found parts the text.
  lemma BlockParts(b: string, e: string, s: string) returns (x: string, y: string, z: string)
    requires b != "" && FirstBlock(b, e, s).Some?
    ensures Parted(b, e, s, x, y, z)
  {
    var i := Find(s, b).value;
    var rest := s[i + |b|..];
    var j := Find(rest, e).value;
    FindIsFirst(s, b);
    FindIsFirst(rest, e);
    AtIs(s, b, i);
    AtIs(rest, e, j);
    x, y, z := s[..i], rest[..j], rest[j + |e|..];
  }

  /** A block written after text without a begin marker is removed again, with its line break. */
  lemma WrittenBlockIsCleared(b: string, e: string, lines: string, x: string, t: string)
    requires Markers(b, e) && NoUpperCase(lines) && IsTail(b, e, lines, t) && Absent(x, b)
    ensures Cleared(b, e, x + t) == x + "\n\n"
  {
    BeginIsFound(b, e, lines, x, t);
    EndIsFound(b, e, lines);
    RestParts(e, lines);
    BehindText(x, t, 2 + |b|);
    FrontOf(b, e, lines, x, t);
    ClearedToEnd(b, e, x + t, |x| + 2, Rest(e, lines), 1 + |lines|);
  }

  lemma FrontOf(b: string, e: string, lines: string, x: string, t: string)
    requires IsTail(b, e, lines, t)
    ensures (x + t)[..|x| + 2] == x + "\n\n"
  {
  }

  lemma BehindText(x: string, t: string, k: nat)
    requires k <= |t|
    ensures (x + t)[|x| + k..] == t[k..]
  {
  }

  lemma TextBefore(x: string, t: string, k: nat)
    requires k <= |x|
    ensures (x + t)[k..] == x[k..] + t && (x + t)[..k] == x[..k]
  {
  }

  lemma TrimmingKeepsMarkers(b: string, e: string, s: string)
    requires Markers(b, e)
    ensures Absent(TrimNewlines(s), b) <==> Absent(s, b)
  {
    var r := TrimNewlines(s);
    var breaks := s[|r|..];
    assert s == r + breaks;
    forall j ensures At(s, b, j) <==> At(r, b, j) {
      if 0 <= j && j + |b| <= |r| {
        AtPrefix(r, breaks, b, j);
      } else if 0 <= j && j + |b| <= |s| {
        NotAcrossBreak(s, b, j, j + |b| - 1);
      }
    }
  }

  /** A begin marker left in the text takes everything up to an end marker with it, so less than the text remains. */
  lemma {:induction false} LeftoverMarkerSwallows(b: string, e: string, lines: string, x: string, t: string)
    requires Markers(b, e) && NoUpperCase(lines) && IsTail(b, e, lines, t)
    ensures |Cleared(b, e, x + t)| <= |x| + 2
    ensures !Absent(x, b) ==> |Cleared(b, e, x + t)| < |x|
    decreases |x|, 1
  {
    if Absent(x, b) {
      WrittenBlockIsCleared(b, e, lines, x, t);
    } else {
      var i := FirstOccurrence(x, b);
      var y := x[i + |b|..];
      if Absent(y, e) {
        SwallowsItAll(b, e, lines, x, t, i, y);
      } else {
        var j := FirstOccurrence(y, e);
        var z := y[j + |e|..];
        SwallowsBlock(b, e, x, t, i, y, j, z);
        RestSwallows(b, e, lines, z, t);
      }
    }
  }

  lemma SwallowsItAll(b: string, e: string, lines: string, x: string, t: string, i: nat, y: string)
    requires Markers(b, e) && NoUpperCase(lines) && IsTail(b, e, lines, t)
    requires FirstAt(x, b, i) && y == x[i + |b|..] && Absent(y, e)
    ensures |Cleared(b, e, x + t)| == i
  {
    FirstStaysFirst(b, x, t, i);
    TextBefore(x, t, i);
    TextBefore(x, t, i + |b|);
    EndIsFoundBehind(b, e, lines, y, t);
    ClearedToEnd(b, e, x + t, i, y + t, |y| + EndOf(b, lines));
  }

  lemma SwallowsBlock(b: string, e: string, x: string, t: string, i: nat, y: string, j: nat, z: string)
    requires b != "" && FirstAt(x, b, i) && y == x[i + |b|..] && FirstAt(y, e, j) && z == y[j + |e|..]
    ensures Cleared(b, e, x + t) == x[..i] + Cleared(b, e, AfterEnd(z + t))
  {
    FirstStaysFirst(b, x, t, i);
    TextBefore(x, t, i);
    TextBefore(x, t, i + |b|);
    FirstStaysFirst(e, y, t, j);
    TextBefore(y, t, j + |e|);
    ClearedStep(b, e, x + t, i, y + t, j, z + t);
  }

  lemma {:induction false} RestSwallows(b: string, e: string, lines: string, z: string, t: string)
    requires Markers(b, e) && NoUpperCase(lines) && IsTail(b, e, lines, t)
    ensures |Cleared(b, e, AfterEnd(z + t))| <= |z| + 2
    decreases |z|, 2
  {
    if z == "" {
      assert z + t == t;
      ClearedTail(b, e, lines, t);
    } else {
      assert AfterEnd(z + t) == AfterEnd(z) + t;
      LeftoverMarkerSwallows(b, e, lines, AfterEnd(z), t);
    }
  }

  lemma ClearedTail(b: string, e: string, lines: string, t: string)
    requires Markers(b, e) && NoUpperCase(lines) && IsTail(b, e, lines, t)
    ensures |Cleared(b, e, AfterEnd(t))| <= 1
  {
    var s := t[1..];
    assert AfterEnd(t) == s;
    assert forall k {:trigger b[k]} | 0 <= k < |b| :: s[1 + k] == t[2 + k];
    NotAcrossBreak(s, b, 0, 0);
    assert FirstAt(s, b, 1);
    EndIsFound(b, e, lines);
    RestParts(e, lines);
    assert s[1 + |b|..] == t[2 + |b|..];
    ClearedToEnd(b, e, s, 1, Rest(e, lines), 1 + |lines|);
  }

  lemma TrimmedIsRestoredIff(b: string, e: string, lines: string, x: string)
    requires Markers(b, e) && NoUpperCase(lines) && TrimNewlines(x) == x
    ensures TrimNewlines(Cleared(b, e, x + Tail(b, e, lines))) == x <==> Absent(x, b)
  {
    var t := Tail(b, e, lines);
    TailParts(b, e, lines);
    if Absent(x, b) {
      WrittenBlockIsCleared(b, e, lines, x, t);
      TrimNewlinesIs(x + "\n\n", x);
    } else {
      LeftoverMarkerSwallows(b, e, lines, x, t);
    }
  }

  /** Clearing what was written gives the text outside the blocks back, exactly if that holds no begin marker. */
  lemma ClearingUndoesWritingIff(b: string, e: string, content: string, lines: string)
    requires Markers(b, e) && NoUpperCase(lines)
    ensures TrimNewlines(Cleared(b, e, Written(b, e, content, lines))) == TrimNewlines(Cleared(b, e, content))
            <==> Absent(Cleared(b, e, content), b)
  {
    var x := TrimNewlines(Cleared(b, e, content));
    TrimmingKeepsMarkers(b, e, Cleared(b, e, content));
    TrimNewlinesIs(x, x);
    TrimmedIsRestoredIff(b, e, lines, x);
  }

  /** And writing twice has the effect of the second writing on the same condition. */
  lemma LastWritingWinsIff(b: string, e: string, content: string, first: string, second: string)
    requires Markers(b, e) && NoUpperCase(first)
    ensures Written(b, e, Written(b, e, content, first), second) == Written(b, e, content, second)
            <==> Absent(Cleared(b, e, content), b)
  {
    ClearingUndoesWritingIff(b, e, content, first);
    SamePrefix(TrimNewlines(Cleared(b, e, Written(b, e, content, first))), TrimNewlines(Cleared(b, e, content)),
               Tail(b, e, second));
  }

  lemma SamePrefix(x: string, y: string, t: string)
    ensures x + t == y + t <==> x == y
  {
    if x + t == y + t {
      assert (x + t)[..|x|] == x && (y + t)[..|y|] == y;
    }
  }

  lemma FirstOccurrence(s: string, m: string) returns (i: nat)
    requires !Absent(s, m)
    ensures FirstAt(s, m, i)
  {
    FindIsFirst(s, m);
    i := Find(s, m).value;
  }
}
