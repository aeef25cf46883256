/** The block of sinkholed domains that the agent keeps between two markers in the hosts file. */
module HostsSinkhole {
  import opened Options
  import opened MarkedBlocks
  import opened Text

  const BEGIN := "# BEGIN CyEDR-SINKHOLE"
  const END := "# END CyEDR-SINKHOLE"

  function Normalized(domains: seq<string>): seq<string> {
    if domains == [] then []
    else
      var d := Trim(domains[0]);
      if d == "" then Normalized(domains[1..]) else [Lower(d)] + Normalized(domains[1..])
  }

  function Entry(domain: string): string {
    "0.0.0.0 " + domain + "\n" + if "www." <= domain then "" else "0.0.0.0 www." + domain + "\n"
  }

  function Lines(domains: seq<string>): string {
    if domains == [] then "" else Lines(domains[..|domains| - 1]) + Entry(domains[|domains| - 1])
  }

  function DomainLines(domains: seq<string>): string {
    Lines(SortedSet(Normalized(domains)))
  }

  // Everything outside the managed blocks, as the agent reads it.
  function Unmanaged(content: string): string {
    Cleared(BEGIN, END, Translated(content))
  }

  /** The text that an update writes. */
  function NewText(content: string, domains: seq<string>): string {
    if domains == [] then Unmanaged(content)
    else Written(BEGIN, END, Translated(content), DomainLines(domains))
  }

  function Updated(content: string, domains: seq<string>, crlf: bool): string {
    Stored(NewText(content, domains), crlf)
  }

  /** The hosts file; its line ends are translated when it is read, and on Windows when it is written. */
  class HostsFile {
    const crlf: bool
    var content: string

    constructor (content: string, crlf: bool)
      ensures this.content == content && this.crlf == crlf
    {
      this.content, this.crlf := content, crlf;
    }

    method UpdateSinkhole(domains: seq<string>)
      modifies this
      ensures content == Updated(old(content), domains, crlf)
    {
      var text := ClearBlocks(BEGIN, END, Translated(content));
      if domains != [] {
        var block := "\n" + BEGIN + "\n";
        var lines := WriteLines(SortedSet(Normalized(domains)));
        block := block + lines;
        block := block + END + "\n";
        TailIsBlock(BEGIN, END, lines);
        text := TrimNewlines(text) + ("\n" + block);
      }
      content := Stored(text, crlf);
    }
  }

  method WriteLines(sorted: seq<string>) returns (lines: string)
    ensures lines == Lines(sorted)
  {
    lines := "";
    for n := 0 to |sorted|
      invariant lines == Lines(sorted[..n])
    {
      assert sorted[..n + 1][..n] == sorted[..n];
      lines := lines + Entry(sorted[n]);
    }
    assert sorted[..|sorted|] == sorted;
  }

  lemma TailIsBlock(b: string, e: string, lines: string)
    ensures "\n" + ("\n" + b + "\n" + lines + e + "\n") == Tail(b, e, lines)
  {
  }

  lemma TheMarkers()
    ensures Markers(BEGIN, END)
  {
  }

  /******* The lines hold no upper case, so they never hold an end marker *******/

  lemma {:induction false} LinesHaveNoUpperCase(domains: seq<string>)
    requires forall d | d in domains :: NoUpperCase(d)
    ensures NoUpperCase(Lines(domains))
  {
    if domains != [] {
      LinesHaveNoUpperCase(domains[..|domains| - 1]);
      var d := domains[|domains| - 1];
      assert NoUpperCase("0.0.0.0 ") && NoUpperCase("0.0.0.0 www.") && NoUpperCase(d);
      assert NoUpperCase(Entry(d));
    }
  }

  lemma {:induction false} NormalizedHasNoUpperCase(domains: seq<string>)
    ensures forall d | d in Normalized(domains) :: NoUpperCase(d)
  {
    if domains != [] {
      NormalizedHasNoUpperCase(domains[1..]);
    }
  }

  lemma DomainLinesHaveNoUpperCase(domains: seq<string>)
    ensures NoUpperCase(DomainLines(domains))
  {
    NormalizedHasNoUpperCase(domains);
    SortedSetIsAscending(Normalized(domains));
    LinesHaveNoUpperCase(SortedSet(Normalized(domains)));
  }

  /******* Reading a written file *******/

  lemma {:induction false} ClearedHasNoReturn(s: string)
    requires '\r' !in s
    ensures '\r' !in Cleared(BEGIN, END, s)
    decreases |s|
  {
    var block := FirstBlock(BEGIN, END, s);
    if block.Some? {
      FirstBlockParts(s);
      ClearedHasNoReturn(block.value.1);
    }
  }

  lemma FirstBlockParts(s: string)
    ensures var block := FirstBlock(BEGIN, END, s);
            block.Some? ==> (forall c | c in block.value.0 :: c in s) && forall c | c in block.value.1 :: c in s
  {
  }

  lemma {:induction false} LinesEndInNewline(domains: seq<string>)
    ensures Lines(domains) != "" ==> Lines(domains)[|Lines(domains)| - 1] == '\n'
  {
    if domains != [] {
      LinesEndInNewline(domains[..|domains| - 1]);
      var e := Entry(domains[|domains| - 1]);
      assert e[|e| - 1] == '\n';
    }
  }

  lemma {:induction false} TranslatedHasNoUpperCase(s: string)
    requires NoUpperCase(s)
    ensures NoUpperCase(Translated(s))
  {
    if s != "" {
      TranslatedHasNoUpperCase(s[..|s| - 1]);
    }
  }

  lemma {:induction false} StoredHasNoUpperCase(s: string, crlf: bool)
    requires NoUpperCase(s)
    ensures NoUpperCase(Stored(s, crlf))
  {
    if s != "" {
      StoredHasNoUpperCase(s[..|s| - 1], crlf);
    }
  }

  // The lines of a block as they come back when the file is read.
  function LinesBack(lines: string, crlf: bool): string {
    Translated(Stored(lines, crlf))
  }

  lemma BackBetween(head: string, lines: string, foot: string, crlf: bool)
    requires '\r' !in head && '\r' !in foot && !EndsInReturn(lines)
    ensures LinesBack(head + (lines + foot), crlf) == head + (LinesBack(lines, crlf) + foot)
  {
    StoredConcat(lines, foot, crlf);
    StoredConcat(head, lines + foot, crlf);
    StoredEnd(lines, crlf);
    StoredEnd(head, crlf);
    StoredIsRead(head, crlf);
    StoredIsRead(foot, crlf);
    TranslatedConcat(Stored(lines, crlf), Stored(foot, crlf));
    TranslatedConcat(Stored(head, crlf), Stored(lines, crlf) + Stored(foot, crlf));
  }

  lemma TailIsJoined(b: string, e: string, lines: string)
    ensures Tail(b, e, lines) == "\n\n" + b + "\n" + (lines + (e + "\n"))
  {
  }

  lemma TailIsRead(b: string, e: string, lines: string, crlf: bool)
    requires '\r' !in b && '\r' !in e && !EndsInReturn(lines)
    ensures LinesBack(Tail(b, e, lines), crlf) == Tail(b, e, LinesBack(lines, crlf))
  {
    BackBetween("\n\n" + b + "\n", lines, e + "\n", crlf);
    TailIsJoined(b, e, lines);
    TailIsJoined(b, e, LinesBack(lines, crlf));
  }

  lemma BehindIsRead(kept: string, tail: string, crlf: bool)
    requires '\r' !in kept
    ensures LinesBack(kept + tail, crlf) == kept + LinesBack(tail, crlf)
  {
    StoredConcat(kept, tail, crlf);
    StoredEnd(kept, crlf);
    StoredIsRead(kept, crlf);
    TranslatedConcat(Stored(kept, crlf), Stored(tail, crlf));
  }

  /** Read again, a written file is the file that the lines as they come back would have made. */
  lemma WrittenIsRead(content: string, domains: seq<string>, crlf: bool)
    requires '\r' !in content
    ensures Translated(Stored(Written(BEGIN, END, content, DomainLines(domains)), crlf))
            == Written(BEGIN, END, content, LinesBack(DomainLines(domains), crlf))
  {
    ClearedHasNoReturn(content);
    LinesEndInNewline(SortedSet(Normalized(domains)));
    TailIsRead(BEGIN, END, DomainLines(domains), crlf);
    BehindIsRead(TrimNewlines(Cleared(BEGIN, END, content)), Tail(BEGIN, END, DomainLines(domains)), crlf);
  }

  /** What the laws below start from: the file as it is read after an update. */
  lemma UpdatedIsRead(content: string, domains: seq<string>, crlf: bool)
    requires domains != []
    ensures Translated(Updated(content, domains, crlf))
            == Written(BEGIN, END, Translated(content), LinesBack(DomainLines(domains), crlf))
    ensures NoUpperCase(LinesBack(DomainLines(domains), crlf))
  {
    TranslatedHasNoReturn(content);
    WrittenIsRead(Translated(content), domains, crlf);
    DomainLinesHaveNoUpperCase(domains);
    StoredHasNoUpperCase(DomainLines(domains), crlf);
    TranslatedHasNoUpperCase(Stored(DomainLines(domains), crlf));
  }

  lemma ClearedIsRead(content: string, crlf: bool)
    ensures Translated(Updated(content, [], crlf)) == Unmanaged(content)
  {
    TranslatedHasNoReturn(content);
    ClearedHasNoReturn(Translated(content));
    StoredIsRead(Unmanaged(content), crlf);
  }

  /******* The replace laws *******/

  /**
   Clearing an updated file gives the unmanaged text of the original back, up to trailing newlines, exactly when
   that text holds no begin marker.
   */
  lemma ClearingUndoesUpdatingIff(content: string, domains: seq<string>, crlf: bool)
    requires domains != []
    ensures TrimNewlines(Translated(Updated(Updated(content, domains, crlf), [], crlf)))
            == TrimNewlines(Unmanaged(content))
            <==> Absent(Unmanaged(content), BEGIN)
  {
    TheMarkers();
    ClearedIsRead(Updated(content, domains, crlf), crlf);
    UpdatedIsRead(content, domains, crlf);
    ClearingUndoesWritingIff(BEGIN, END, Translated(content), LinesBack(DomainLines(domains), crlf));
  }

  /** A later update replaces an earlier one, exactly when the unmanaged text holds no begin marker. */
  lemma LastUpdateWinsIff(content: string, first: seq<string>, second: seq<string>, crlf: bool)
    requires first != [] && second != []
    ensures Updated(Updated(content, first, crlf), second, crlf) == Updated(content, second, crlf)
            <==> Absent(Unmanaged(content), BEGIN)
  {
    TheMarkers();
    UpdatedIsRead(content, first, crlf);
    LastWritingWinsIff(BEGIN, END, Translated(content), LinesBack(DomainLines(first), crlf), DomainLines(second));
    if Updated(Updated(content, first, crlf), second, crlf) == Updated(content, second, crlf) {
      StoredIsInjective(NewText(Updated(content, first, crlf), second), NewText(content, second), crlf);
    }
  }

  /**
   On a file without a begin marker, updating twice is updating once, and clearing gives the file back as it is read,
   up to trailing newlines.
   */
  lemma UpdateIsIdempotent(content: string, domains: seq<string>, crlf: bool)
    requires Absent(Translated(content), BEGIN)
    ensures Updated(Updated(content, domains, crlf), domains, crlf) == Updated(content, domains, crlf)
    ensures TrimNewlines(Translated(Updated(Updated(content, domains, crlf), [], crlf)))
            == TrimNewlines(Translated(content))
  {
    ClearedUnmarked(BEGIN, END, Translated(content));
    ClearedIsRead(content, crlf);
    if domains != [] {
      LastUpdateWinsIff(content, domains, domains, crlf);
      ClearingUndoesUpdatingIff(content, domains, crlf);
    } else {
      ClearedIsRead(Updated(content, [], crlf), crlf);
    }
  }

  /** The file depends only on which domains are listed, not on their order, case, spacing or repetition. */
  lemma OnlyTheSetMatters(content: string, domains: seq<string>, others: seq<string>, crlf: bool)
    requires domains != [] && others != []
    requires forall d :: d in Normalized(domains) <==> d in Normalized(others)
    ensures Updated(content, domains, crlf) == Updated(content, others, crlf)
  {
    SortedSetIsAscending(Normalized(domains));
    SortedSetIsAscending(Normalized(others));
    AscendingIsUnique(SortedSet(Normalized(domains)), SortedSet(Normalized(others)));
  }
}
