/** Which hosts the block of an updated hosts file sinks, said of the lines of the file. */
module SinkholeLines {
  import opened Text
  import opened TextLaws
  import opened DotEnv
  import opened MarkedBlocks
  import opened HostsSinkhole

  /** The domain is listed, up to spaces around it and capital letters. */
  ghost predicate Listed(domains: seq<string>, x: string) {
    exists d, t :: d in domains && Trimmed(d, t) && t != "" && x == Lower(t)
  }

  // The name is the www name of a listed domain that has not that prefix already.
  ghost predicate ListedAsWww(domains: seq<string>, h: string) {
    exists x :: Listed(domains, x) && !("www." <= x) && h == "www." + x
  }

  lemma {:induction false} NormalizedIs(domains: seq<string>, x: string)
    ensures x in Normalized(domains) <==> Listed(domains, x)
  {
    if domains != [] {
      var d, rest := domains[0], domains[1..];
      NormalizedIs(rest, x);
      TrimIsTrimmed(d, Trim(d));
      assert forall y :: y in domains <==> y == d || y in rest;
      if x == Lower(Trim(d)) && Trim(d) != "" { assert Listed(domains, x); }
      if Listed(domains, x) && !Listed(rest, x) {
        var y, t :| y in domains && Trimmed(y, t) && t != "" && x == Lower(t);
        TrimIsTrimmed(y, t);
      }
      if Listed(rest, x) {
        var y, t :| y in rest && Trimmed(y, t) && t != "" && x == Lower(t);
        assert y in domains;
      }
    }
  }

  /******* The lines of a block *******/

  function EntryLines(d: string): seq<string> {
    if "www." <= d then ["0.0.0.0 " + d] else ["0.0.0.0 " + d, "0.0.0.0 " + ("www." + d)]
  }

  function BlockLines(domains: seq<string>): seq<string> {
    if domains == [] then [] else BlockLines(domains[..|domains| - 1]) + EntryLines(domains[|domains| - 1])
  }

  lemma {:induction false} JoinConcat(xs: seq<string>, ys: seq<string>)
    ensures JoinLines(xs + ys) == JoinLines(xs) + JoinLines(ys)
  {
    if xs == [] {
      assert xs + ys == ys;
    } else {
      JoinConcat(xs[1..], ys);
      assert (xs + ys)[1..] == xs[1..] + ys;
    }
  }

  lemma JoinOne(x: string)
    ensures JoinLines([x]) == x + "\n"
  {
    assert [x][1..] == [];
  }

  lemma EntryIsJoined(d: string)
    ensures Entry(d) == JoinLines(EntryLines(d))
  {
    var x, y := "0.0.0.0 " + d, "0.0.0.0 " + ("www." + d);
    JoinOne(x);
    JoinOne(y);
    JoinConcat([x], [y]);
    assert [x] + [y] == [x, y];
    assert "0.0.0.0 www." + d == y;
  }

  lemma {:induction false} LinesAreJoined(domains: seq<string>)
    ensures Lines(domains) == JoinLines(BlockLines(domains))
  {
    if domains != [] {
      var init, d := domains[..|domains| - 1], domains[|domains| - 1];
      LinesAreJoined(init);
      EntryIsJoined(d);
      JoinConcat(BlockLines(init), EntryLines(d));
    }
  }

  /******* How often a host is on them *******/

  function Line(h: string): string {
    "0.0.0.0 " + h
  }

  function Count(b: bool): nat {
    if b then 1 else 0
  }

  lemma LineIsInjective(x: string, y: string)
    ensures Line(x) == Line(y) <==> x == y
  {
    assert Line(x)[8..] == x && Line(y)[8..] == y;
  }

  lemma EntryCounts(d: string, h: string)
    ensures multiset(EntryLines(d))[Line(h)] == Count(h == d) + Count(!("www." <= d) && h == "www." + d)
  {
    LineIsInjective(d, h);
    LineIsInjective("www." + d, h);
    assert "0.0.0.0 " + d == Line(d) && "0.0.0.0 " + ("www." + d) == Line("www." + d);
    assert h == d ==> h != "www." + d;
  }

  predicate WwwOf(domains: seq<string>, h: string) {
    exists x | x in domains :: !("www." <= x) && h == "www." + x
  }

  lemma LastCounts(domains: seq<string>, h: string)
    requires domains != [] && forall i, j | 0 <= i < j < |domains| :: domains[i] != domains[j]
    ensures var init, d := domains[..|domains| - 1], domains[|domains| - 1];
            && Count(h in domains) == Count(h in init) + Count(h == d)
            && Count(WwwOf(domains, h)) == Count(WwwOf(init, h)) + Count(!("www." <= d) && h == "www." + d)
  {
    var init, d := domains[..|domains| - 1], domains[|domains| - 1];
    assert forall x :: x in domains <==> x in init || x == d;
    assert d !in init;
    forall x | h == "www." + x ensures x == h[4..] { }
  }

  lemma {:induction false} BlockCounts(domains: seq<string>, h: string)
    requires forall i, j | 0 <= i < j < |domains| :: domains[i] != domains[j]
    ensures multiset(BlockLines(domains))[Line(h)] == Count(h in domains) + Count(WwwOf(domains, h))
  {
    if domains != [] {
      BlockCounts(domains[..|domains| - 1], h);
      EntryCounts(domains[|domains| - 1], h);
      LastCounts(domains, h);
    }
  }

  lemma {:induction false} OnlyHosts(domains: seq<string>, l: string)
    requires l in BlockLines(domains)
    ensures exists h :: l == Line(h)
  {
    var init, d := domains[..|domains| - 1], domains[|domains| - 1];
    if l in BlockLines(init) {
      OnlyHosts(init, l);
    } else {
      assert l == Line(d) || l == Line("www." + d);
    }
  }

  /** The block that an update writes for these domains. */
  function Block(domains: seq<string>): seq<string> {
    BlockLines(SortedSet(Normalized(domains)))
  }

  /**
   A host is on one line of the block for being a listed domain, and on one for being the www name of a listed domain
   without that prefix; there are no other lines.
   */
  lemma BlockIs(domains: seq<string>, h: string)
    ensures multiset(Block(domains))[Line(h)] == Count(Listed(domains, h)) + Count(ListedAsWww(domains, h))
  {
    var sorted := SortedSet(Normalized(domains));
    SortedSetIsAscending(Normalized(domains));
    forall i, j | 0 <= i < j < |sorted| ensures sorted[i] != sorted[j] { BelowIsTotal(sorted[i], sorted[j]); }
    BlockCounts(sorted, h);
    forall x ensures x in sorted <==> Listed(domains, x) { NormalizedIs(domains, x); }
  }

  /** So a listed domain is sunk, and so is its www name; nothing else is. */
  lemma SunkIff(domains: seq<string>, l: string)
    ensures l in Block(domains) <==>
            exists h :: l == "0.0.0.0 " + h && (Listed(domains, h) || ListedAsWww(domains, h))
  {
    if l in Block(domains) {
      OnlyHosts(SortedSet(Normalized(domains)), l);
      var h :| l == Line(h);
      BlockIs(domains, h);
      assert l in multiset(Block(domains));
    }
    if h :| l == "0.0.0.0 " + h && (Listed(domains, h) || ListedAsWww(domains, h)) {
      BlockIs(domains, h);
      assert l in multiset(Block(domains));
    }
  }

  /******* The file *******/

  lemma SplitAt(s: string, breaks: Breaks, i: nat)
    requires i < |s| && breaks(s[i]) && forall k | 0 <= k < i :: !breaks(s[k])
    ensures SplitLines(s, breaks) == [s[..i]] + SplitLines(s[i + 1..], breaks)
  {
    NextBreakIs(s, breaks, i);
  }

  lemma CutBehind(x: string, y: string, i: nat)
    requires i <= |x|
    ensures (x + y)[..i] == x[..i] && (x + y)[i..] == x[i..] + y
  {
  }

  lemma SplitBoth(x: string, y: string, breaks: Breaks, i: nat)
    requires i < |x| && breaks(x[i]) && forall k | 0 <= k < i :: !breaks(x[k])
    ensures SplitLines(x, breaks) == [x[..i]] + SplitLines(x[i + 1..], breaks)
    ensures SplitLines(x + y, breaks) == [x[..i]] + SplitLines(x[i + 1..] + y, breaks)
  {
    CutBehind(x, y, i);
    CutBehind(x, y, i + 1);
    SplitAt(x, breaks, i);
    assert forall k | 0 <= k <= i :: (x + y)[k] == x[k];
    SplitAt(x + y, breaks, i);
  }

  lemma FirstApart(x: string, more: seq<string>, rest: seq<string>)
    ensures [x] + (more + rest) == [x] + more + rest
  {
  }

  lemma NothingBehind(y: string, breaks: Breaks)
    ensures SplitLines("" + y, breaks) == SplitLines("", breaks) + SplitLines(y, breaks)
  {
    assert "" + y == y;
  }

  lemma {:induction false} SplitBehindBreak(x: string, y: string, breaks: Breaks)
    requires x != "" && breaks(x[|x| - 1])
    ensures SplitLines(x + y, breaks) == SplitLines(x, breaks) + SplitLines(y, breaks)
    decreases |x|
  {
    var i := NextBreak(x, breaks, 0);
    var rest := x[i + 1..];
    SplitBoth(x, y, breaks, i);
    if rest == "" {
      NothingBehind(y, breaks);
    } else {
      assert rest[|rest| - 1] == x[|x| - 1];
      SplitBehindBreak(rest, y, breaks);
    }
    FirstApart(x[..i], SplitLines(rest, breaks), SplitLines(y, breaks));
  }

  const BEGIN_LINE := "# BEGIN CyEDR-SINKHOLE"
  const END_LINE := "# END CyEDR-SINKHOLE"

  /** What is read from the file after an update: the unmanaged text, an empty line, and the block. */
  function Framed(domains: seq<string>): seq<string> {
    ["", BEGIN_LINE] + Block(domains) + [END_LINE]
  }

  lemma JoinAround(a: string, b: string, lines: seq<string>, e: string)
    ensures JoinLines([a, b] + lines + [e]) == a + "\n" + (b + "\n") + JoinLines(lines) + (e + "\n")
  {
    JoinConcat([a, b] + lines, [e]);
    JoinConcat([a, b], lines);
    JoinConcat([a], [b]);
    JoinOne(a);
    JoinOne(b);
    JoinOne(e);
    assert [a] + [b] == [a, b];
  }

  lemma TailIsJoined(lines: seq<string>)
    ensures "\n" + JoinLines(["", BEGIN_LINE] + lines + [END_LINE]) == Tail(BEGIN, END, JoinLines(lines))
  {
    JoinAround("", BEGIN_LINE, lines, END_LINE);
    TailAround(BEGIN, END, JoinLines(lines));
  }

  lemma TailAround(b: string, e: string, lines: string)
    ensures Tail(b, e, lines) == "\n" + ("" + "\n" + (b + "\n") + lines + (e + "\n"))
  {
  }

  /** The text that an update writes, whatever the domains. */
  lemma NewTextIs(content: string, domains: seq<string>)
    requires domains != []
    ensures NewText(content, domains) == TrimNewlines(Unmanaged(content)) + ("\n" + JoinLines(Framed(domains)))
  {
    LinesAreJoined(SortedSet(Normalized(domains)));
    TailIsJoined(Block(domains));
  }

  lemma HostIsOneLine(domains: seq<string>, h: string)
    requires (forall x | Listed(domains, x) :: OneLine(x, Newline)) && (Listed(domains, h) || ListedAsWww(domains, h))
    ensures OneLine("0.0.0.0 " + h, Newline)
  {
    if !Listed(domains, h) {
      var x :| Listed(domains, x) && !("www." <= x) && h == "www." + x;
    }
  }

  lemma BlockIsOneLineEach(domains: seq<string>)
    requires forall x | Listed(domains, x) :: OneLine(x, Newline)
    ensures OneLineEach(Block(domains), Newline)
  {
    forall l | l in Block(domains) ensures OneLine(l, Newline) {
      SunkIff(domains, l);
      var h :| l == "0.0.0.0 " + h && (Listed(domains, h) || ListedAsWww(domains, h));
      HostIsOneLine(domains, h);
    }
  }

  lemma MarkersAreOneLine()
    ensures OneLine("", Newline) && OneLine(BEGIN_LINE, Newline) && OneLine(END_LINE, Newline)
  {
  }

  lemma {:induction false} JoinHasNoReturn(lines: seq<string>)
    requires OneLineEach(lines, Newline)
    ensures '\r' !in JoinLines(lines)
  {
    if lines != [] {
      assert lines[0] in lines;
      JoinHasNoReturn(lines[1..]);
    }
  }

  lemma SplitBehind(kept: string, lines: seq<string>)
    requires OneLineEach(lines, Newline)
    ensures SplitLines(kept + ("\n" + JoinLines(lines)), Newline) == SplitLines(kept + "\n", Newline) + lines
  {
    assert kept + ("\n" + JoinLines(lines)) == kept + "\n" + JoinLines(lines);
    SplitBehindBreak(kept + "\n", JoinLines(lines), Newline);
    SplitOfJoin(lines, Newline);
  }

  lemma KeptHasNoReturn(content: string)
    ensures '\r' !in TrimNewlines(Unmanaged(content))
  {
    TranslatedHasNoReturn(content);
    ClearedHasNoReturn(Translated(content));
  }

  lemma FramedIsOneLineEach(domains: seq<string>)
    requires forall x | Listed(domains, x) :: OneLine(x, Newline)
    ensures OneLineEach(Framed(domains), Newline)
  {
    BlockIsOneLineEach(domains);
    MarkersAreOneLine();
  }

  /**
   After an update with domains that hold no line break, on any system: the file is read as the lines of the text
   outside the blocks, an empty line, the begin marker, the lines of the block, and the end marker.
   */
  lemma UpdatedFileIs(content: string, domains: seq<string>, crlf: bool)
    requires domains != [] && forall x | Listed(domains, x) :: OneLine(x, Newline)
    ensures FileLines(Updated(content, domains, crlf), Newline)
            == SplitLines(TrimNewlines(Unmanaged(content)) + "\n", Newline)
               + (["", "# BEGIN CyEDR-SINKHOLE"] + Block(domains) + ["# END CyEDR-SINKHOLE"])
  {
    NewTextIs(content, domains);
    FramedIsOneLineEach(domains);
    JoinHasNoReturn(Framed(domains));
    KeptHasNoReturn(content);
    StoredIsRead(NewText(content, domains), crlf);
    SplitBehind(TrimNewlines(Unmanaged(content)), Framed(domains));
  }
}
