/** What trimming and lowering make of a text, said of its characters. */
module TextLaws {
  import opened Text

  const SPACES := " \t\n\U{0b}\U{0c}\r\U{1c}\U{1d}\U{1e}\U{1f}"

  lemma SpacesAre(c: char)
    ensures IsSpace(c) <==> c in SPACES
  {
    if IsSpace(c) {
      var i := if c == ' ' then 0 else if c < '\r' then c as int - 8 else if c == '\r' then 5 else c as int - 22;
      assert SPACES[i] == c;
    }
  }

  /** Lowering puts the letter of the same place in the alphabet for each capital letter, and changes nothing else. */
  lemma LowerIs(s: string, i: nat)
    requires i < |s|
    ensures 'A' <= s[i] <= 'Z' ==> 'a' <= Lower(s)[i] <= 'z' && Lower(s)[i] - 'a' == s[i] - 'A'
    ensures !('A' <= s[i] <= 'Z') ==> Lower(s)[i] == s[i]
  {
  }

  /******* Stripping *******/

  predicate Surrounds(s: string, a: string, r: string, b: string) {
    s == a + r + b
  }

  predicate All(s: string, c: Class) {
    forall i | 0 <= i < |s| :: c(s[i])
  }

  predicate Bare(s: string, c: Class) {
    s != "" ==> !c(s[0]) && !c(s[|s| - 1])
  }

  /** `r` is `s` without the characters of the class at its ends. */
  ghost predicate Peeled(s: string, c: Class, r: string) {
    Bare(r, c) && exists a, b :: Surrounds(s, a, r, b) && All(a, c) && All(b, c)
  }

  lemma ThreeParts(s: string, i: nat, j: nat)
    requires i <= j <= |s|
    ensures Surrounds(s, s[..i], Slice(s, i, j), s[j..])
  {
    assert Slice(s, i, j) == s[i..j];
    assert s == s[..j] + s[j..] && s[..j] == s[..i] + s[i..j];
  }

  lemma AllBefore(s: string, c: Class, i: nat)
    requires i <= |s| && forall k | 0 <= k < i :: c(s[k])
    ensures All(s[..i], c)
  {
  }

  lemma AllBehind(s: string, c: Class, j: nat)
    requires j <= |s| && forall k | j <= k < |s| :: c(s[k])
    ensures All(s[j..], c)
  {
  }

  lemma SliceIsBare(s: string, c: Class, i: nat, j: nat)
    requires i < j <= |s| && !c(s[i]) && !c(s[j - 1])
    ensures Bare(Slice(s, i, j), c)
  {
    var r := Slice(s, i, j);
    assert r[0] == s[i + 0] && r[j - i - 1] == s[j - 1];
  }

  lemma WhollySkipped(s: string, c: Class, i: nat, j: nat)
    requires j <= i <= |s| && (i < |s| ==> !c(s[i]))
    requires (forall k | 0 <= k < i :: c(s[k])) && (forall k | j <= k < |s| :: c(s[k]))
    ensures All(s, c)
  {
  }

  lemma SomethingLeft(s: string, c: Class, i: nat, j: nat)
    requires i < j <= |s| && !c(s[i]) && !c(s[j - 1])
    requires (forall k | 0 <= k < i :: c(s[k])) && (forall k | j <= k < |s| :: c(s[k]))
    ensures Surrounds(s, s[..i], Slice(s, i, j), s[j..])
    ensures All(s[..i], c) && All(s[j..], c) && Bare(Slice(s, i, j), c)
  {
    ThreeParts(s, i, j);
    SliceIsBare(s, c, i, j);
    AllBefore(s, c, i);
    AllBehind(s, c, j);
  }

  lemma NothingLeft(s: string)
    ensures Surrounds(s, s, "", "")
  {
  }

  lemma PeeledParts(s: string, c: Class) returns (a: string, b: string)
    ensures Surrounds(s, a, Stripped(s, c), b) && All(a, c) && All(b, c) && Bare(Stripped(s, c), c)
  {
    var i, j := SkipFrom(s, c, 0), SkipBack(s, c, |s|);
    if i < j {
      SomethingLeft(s, c, i, j);
      a, b := s[..i], s[j..];
    } else {
      WhollySkipped(s, c, i, j);
      NothingLeft(s);
      a, b := s, "";
    }
  }

  // The stripped text begins at the first character that is not of the class.
  lemma PeeledBegins(s: string, c: Class, a: string, r: string, b: string)
    requires Surrounds(s, a, r, b) && All(a, c) && All(b, c) && Bare(r, c)
    ensures r == "" ==> All(s, c)
    ensures r != "" ==> |a| < |s| && !c(s[|a|]) && (forall k | 0 <= k < |a| :: c(s[k]))
    ensures r != "" ==> !c(s[|a| + |r| - 1]) && forall k | |a| + |r| <= k < |s| :: c(s[k])
  {
    forall k | |a| + |r| <= k < |s| ensures c(s[k]) { assert s[k] == b[k - |a| - |r|]; }
    forall k | 0 <= k < |a| ensures c(s[k]) { assert s[k] == a[k]; }
    if r != "" {
      assert s[|a|] == r[0] && s[|a| + |r| - 1] == r[|r| - 1];
    }
  }

  lemma PeeledIsUnique(s: string, c: Class, a: string, r: string, b: string, a': string, r': string, b': string)
    requires Surrounds(s, a, r, b) && All(a, c) && All(b, c) && Bare(r, c)
    requires Surrounds(s, a', r', b') && All(a', c) && All(b', c) && Bare(r', c)
    ensures r == r'
  {
    PeeledBegins(s, c, a, r, b);
    PeeledBegins(s, c, a', r', b');
    if r != "" {
      assert r' != "" && |a| == |a'| && |a| + |r| == |a'| + |r'|;
      assert r == s[|a|..|a| + |r|] && r' == s[|a'|..|a'| + |r'|];
    }
  }

  /** There is one way to strip a text, and stripping finds it. */
  lemma StrippedIs(s: string, c: Class, r: string)
    ensures Stripped(s, c) == r <==> Peeled(s, c, r)
  {
    var a, b := PeeledParts(s, c);
    if Peeled(s, c, r) {
      var a', b' :| Surrounds(s, a', r, b') && All(a', c) && All(b', c);
      PeeledIsUnique(s, c, a, Stripped(s, c), b, a', r, b');
    }
  }

  /******* Trimming *******/

  predicate Blank(s: string) {
    forall i | 0 <= i < |s| :: s[i] in SPACES
  }

  /** `r` is `s` without the spaces at its ends. */
  ghost predicate Trimmed(s: string, r: string) {
    && (r != "" ==> r[0] !in SPACES && r[|r| - 1] !in SPACES)
    && exists a, b :: Surrounds(s, a, r, b) && Blank(a) && Blank(b)
  }

  lemma BlankIsSpace(s: string)
    ensures Blank(s) <==> All(s, IsSpace)
  {
    forall i | 0 <= i < |s| ensures IsSpace(s[i]) <==> s[i] in SPACES { SpacesAre(s[i]); }
  }

  lemma NotBare(r: string)
    ensures Bare(r, IsSpace) <==> r == "" || (r[0] !in SPACES && r[|r| - 1] !in SPACES)
  {
    if r != "" {
      SpacesAre(r[0]);
      SpacesAre(r[|r| - 1]);
    }
  }

  lemma TrimmedIsPeeled(s: string, r: string)
    requires Trimmed(s, r)
    ensures Peeled(s, IsSpace, r)
  {
    var a, b :| Surrounds(s, a, r, b) && Blank(a) && Blank(b);
    NotBare(r);
    BlankIsSpace(a);
    BlankIsSpace(b);
  }

  lemma PeeledIsTrimmed(s: string, r: string)
    requires Peeled(s, IsSpace, r)
    ensures Trimmed(s, r)
  {
    var a, b :| Surrounds(s, a, r, b) && All(a, IsSpace) && All(b, IsSpace);
    NotBare(r);
    BlankIsSpace(a);
    BlankIsSpace(b);
  }

  /** Trimming a text yields the text that is trimmed. */
  lemma TrimIsTrimmed(s: string, r: string)
    ensures Trim(s) == r <==> Trimmed(s, r)
  {
    StrippedIs(s, IsSpace, r);
    if Trimmed(s, r) { TrimmedIsPeeled(s, r); }
    if Peeled(s, IsSpace, r) { PeeledIsTrimmed(s, r); }
  }

  predicate NoSpaceAtEnds(r: string) {
    r != "" ==> r[0] !in SPACES && r[|r| - 1] !in SPACES
  }

  /** What stands between blanks and begins and ends with no space is what trimming leaves. */
  lemma TrimBetween(s: string, a: string, r: string, b: string)
    requires Surrounds(s, a, r, b) && Blank(a) && Blank(b) && NoSpaceAtEnds(r)
    ensures Trimmed(s, r) && Trim(s) == r
  {
    TrimIsTrimmed(s, r);
  }
}
