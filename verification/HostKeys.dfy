/** Which agents the two passes take for one machine, said of their names, platforms and addresses. */
module HostKeys {
  import opened Options
  import opened HostDedup
  import opened HostDedupTheorems
  import opened Text
  import opened TextLaws

  /******* Names and stems *******/

  predicate PrivateDomain(d: string) {
    d in {".lan", ".local", ".home", ".internal", ".localdomain", ".corp", ".office", ".intranet", ".priv"}
  }

  predicate EndsIn(s: string, t: string, d: string) {
    PrivateDomain(d) && (s == t + d || s == t + d + "\n")
  }

  /** The text is `t` with a private domain behind it, which a line break may follow. */
  ghost predicate Cuts(s: string, t: string) {
    exists d :: EndsIn(s, t, d)
  }

  /** The name, in lower case and without a private domain at its end, is the stem with spaces around it. */
  ghost predicate ReducesTo(name: string, stem: string) {
    if exists t :: Cuts(Lower(name), t) then exists t :: Cuts(Lower(name), t) && Trimmed(t, stem)
    else Trimmed(Lower(name), stem)
  }

  lemma OneDot(d: string)
    requires PrivateDomain(d)
    ensures d != "" && d[0] == '.' && (forall k | 0 < k < |d| :: d[k] != '.') && d[|d| - 1] != '\n'
  {
  }

  predicate Joined(s: string, t: string, d: string) {
    s == t + d
  }

  lemma DotBegins(s: string, t: string, d: string)
    requires Joined(s, t, d) && PrivateDomain(d)
    ensures |t| < |s| && s[|t|] == '.' && (forall k | |t| < k < |s| :: s[k] != '.') && t == s[..|t|]
    ensures s[|s| - 1] != '\n'
  {
    OneDot(d);
    forall k | |t| < k < |s| ensures s[k] != '.' { assert s[k] == d[k - |t|]; }
    assert s[|s| - 1] == d[|d| - 1];
  }

  // A domain begins at the last dot, so there is one way to cut it off.
  lemma OneDomain(s: string, t: string, d: string, t': string, d': string)
    requires Joined(s, t, d) && Joined(s, t', d') && PrivateDomain(d) && PrivateDomain(d')
    ensures t == t'
  {
    DotBegins(s, t, d);
    DotBegins(s, t', d');
  }

  lemma EndsInOneWay(s: string, t: string, d: string, t': string, d': string)
    requires EndsIn(s, t, d) && EndsIn(s, t', d')
    ensures t == t'
  {
    if Joined(s, t, d) {
      DotBegins(s, t, d);
      assert Joined(s, t', d');
      OneDomain(s, t, d, t', d');
    } else {
      var init := s[..|s| - 1];
      assert Joined(init, t, d);
      if Joined(s, t', d') {
        DotBegins(s, t', d');
      } else {
        assert Joined(init, t', d');
        OneDomain(init, t, d, t', d');
      }
    }
  }

  lemma {:induction false} CutSuffixIs(s: string, suffixes: seq<string>)
    ensures var r := CutSuffix(s, suffixes);
            && (r.Some? ==> exists d :: d in suffixes && Joined(s, r.value, d))
            && (r.None? ==> forall t, d | d in suffixes :: !Joined(s, t, d))
  {
    if suffixes != [] {
      var d := suffixes[0];
      CutSuffixIs(s, suffixes[1..]);
      assert d in suffixes;
      assert forall x :: x in suffixes <==> x == d || x in suffixes[1..];
      if |d| <= |s| { assert Joined(s, s[..|s| - |d|], s[|s| - |d|..]); }
      forall t | Joined(s, t, d) ensures d <= s[|s| - |d|..] { assert s[|s| - |d|..] == d; }
    }
  }

  // What `Stem` cuts off before it trims.
  function CutName(s: string): string {
    match CutSuffix(s, DOMAIN_SUFFIXES)
    case Some(t) => t
    case None => if s != "" && s[|s| - 1] == '\n' then CutSuffix(s[..|s| - 1], DOMAIN_SUFFIXES).GetOr(s) else s
  }

  predicate EndsInBreak(s: string) {
    s != "" && s[|s| - 1] == '\n'
  }

  lemma EndsInIff(s: string, t: string, d: string)
    ensures EndsIn(s, t, d) <==>
            PrivateDomain(d) && (Joined(s, t, d) || (EndsInBreak(s) && Joined(s[..|s| - 1], t, d)))
  {
    if s == t + d + "\n" { assert s[..|s| - 1] == t + d; }
    if EndsInBreak(s) { assert s == s[..|s| - 1] + "\n"; }
  }

  lemma CutFound(s: string, whole: string, t: string)
    requires CutSuffix(whole, DOMAIN_SUFFIXES) == Some(t)
    requires whole == s || (EndsInBreak(s) && whole == s[..|s| - 1])
    ensures t != s && Cuts(s, t)
  {
    CutSuffixIs(whole, DOMAIN_SUFFIXES);
    var d :| d in DOMAIN_SUFFIXES && Joined(whole, t, d);
    OneDot(d);
    EndsInIff(s, t, d);
  }

  lemma SomethingToCut(s: string, t: string)
    requires Cuts(s, t)
    ensures CutSuffix(s, DOMAIN_SUFFIXES).Some? ||
            (EndsInBreak(s) && CutSuffix(s[..|s| - 1], DOMAIN_SUFFIXES).Some?)
  {
    var d :| EndsIn(s, t, d);
    EndsInIff(s, t, d);
    assert d in DOMAIN_SUFFIXES;
    if Joined(s, t, d) { CutSuffixIs(s, DOMAIN_SUFFIXES); } else { CutSuffixIs(s[..|s| - 1], DOMAIN_SUFFIXES); }
  }

  lemma CutNameIs(s: string)
    ensures CutName(s) != s ==> Cuts(s, CutName(s))
    ensures CutName(s) == s ==> forall t :: !Cuts(s, t)
  {
    if CutSuffix(s, DOMAIN_SUFFIXES).Some? {
      CutFound(s, s, CutName(s));
    } else if EndsInBreak(s) && CutSuffix(s[..|s| - 1], DOMAIN_SUFFIXES).Some? {
      CutFound(s, s[..|s| - 1], CutName(s));
    } else if t :| Cuts(s, t) {
      SomethingToCut(s, t);
    }
  }

  /** The stem of a name is what the name reduces to. */
  lemma StemIs(name: string, stem: string)
    ensures Stem(name) == stem <==> ReducesTo(name, stem)
  {
    var s := Lower(name);
    CutNameIs(s);
    TrimIsTrimmed(CutName(s), stem);
    if exists t :: Cuts(s, t) {
      forall t | Cuts(s, t) ensures t == CutName(s) {
        var d :| EndsIn(s, t, d);
        var d' :| EndsIn(s, CutName(s), d');
        EndsInOneWay(s, t, d, CutName(s), d');
      }
    }
  }

  /******* Rivals *******/

  /** The name that an agent goes by. */
  function NameOf(a: Agent): string {
    if a.name == "" then a.id else a.name
  }

  lemma StemKeyIs(a: Agent, stem: string)
    ensures StemKey(a).Some? <==> a.platform.Some? && a.platform.value != ""
    ensures StemKey(a).Some? && ReducesTo(NameOf(a), stem) ==> StemKey(a).value == stem + "|" + Lower(a.platform.value)
  {
    StemIs(NameOf(a), stem);
  }

  /** Two agents are rivals by name exactly if both have a platform, and stem and lowered platform compose alike. */
  lemma RivalsByNameIff(a: Agent, b: Agent, stem: string, stem': string)
    requires ReducesTo(NameOf(a), stem) && ReducesTo(NameOf(b), stem')
    ensures Rivals(StemKey, a, b) <==>
            && a.platform.Some? && a.platform.value != "" && b.platform.Some? && b.platform.value != ""
            && stem + "|" + Lower(a.platform.value) == stem' + "|" + Lower(b.platform.value)
  {
    StemKeyIs(a, stem);
    StemKeyIs(b, stem');
  }

  /** Every name reduces to one stem. */
  lemma OneStem(name: string)
    ensures exists stem :: ReducesTo(name, stem)
    ensures forall x, y | ReducesTo(name, x) && ReducesTo(name, y) :: x == y
  {
    StemIs(name, Stem(name));
    forall x | ReducesTo(name, x) ensures x == Stem(name) { StemIs(name, x); }
  }

  /** With no bar in a platform, exactly if the names reduce to one stem and the platforms are equal in lower case. */
  lemma RivalsByStemIff(a: Agent, b: Agent)
    requires a.platform.Some? && '|' !in a.platform.value && b.platform.Some? && '|' !in b.platform.value
    ensures Rivals(StemKey, a, b) <==>
            && a.platform.value != "" && b.platform.value != ""
            && Lower(a.platform.value) == Lower(b.platform.value)
            && exists stem :: ReducesTo(NameOf(a), stem) && ReducesTo(NameOf(b), stem)
  {
    StemIs(NameOf(a), Stem(NameOf(a)));
    StemIs(NameOf(b), Stem(NameOf(b)));
    ComposedKeySeparates(Stem(NameOf(a)), a.platform.value, Stem(NameOf(b)), b.platform.value);
    if stem :| ReducesTo(NameOf(a), stem) && ReducesTo(NameOf(b), stem) {
      StemIs(NameOf(a), stem);
      StemIs(NameOf(b), stem);
    }
  }

  /******* A machine named with and without its domain *******/

  lemma LowerJoins(t: string, d: string)
    ensures Lower(t + d) == Lower(t) + Lower(d)
  {
  }

  // The characters that are no spaces lie in the `n` from `i` on, which they begin and end.
  predicate Extent(s: string, i: nat, n: nat) {
    && (n == 0 ==> forall k | 0 <= k < |s| :: IsSpace(s[k]))
    && (n > 0 ==>
          && i + n <= |s| && !IsSpace(s[i])
          && (forall k | 0 <= k < i :: IsSpace(s[k])) && forall k | i + n <= k < |s| :: IsSpace(s[k]))
  }

  lemma TrimExtent(s: string) returns (i: nat)
    ensures Extent(s, i, |Trim(s)|)
  {
    var a, b := PeeledParts(s, IsSpace);
    PeeledBegins(s, IsSpace, a, Trim(s), b);
    i := |a|;
  }

  lemma ExtentGrows(s: string, i: nat, n: nat, t: string, i': nat, n': nat)
    requires Extent(s, i, n) && Extent(t, i', n')
    requires |t| < |s| && !IsSpace(s[|t|]) && forall k | 0 <= k < |t| :: s[k] == t[k]
    ensures n' < n
  {
  }

  // A character that is no space, behind a text, makes what is left by trimming longer.
  lemma LongerIsSeen(s: string, t: string)
    requires |t| < |s| && s[..|t|] == t && !IsSpace(s[|t|])
    ensures |Trim(t)| < |Trim(s)|
  {
    var i := TrimExtent(s);
    var i' := TrimExtent(t);
    forall k | 0 <= k < |t| ensures s[k] == t[k] { assert s[..|t|][k] == s[k]; }
    ExtentGrows(s, i, |Trim(s)|, t, i', |Trim(t)|);
  }

  // The domain cut off is no space, so the trimmed texts with and without it differ.
  lemma CutIsSeen(s: string, t: string)
    requires Cuts(s, t)
    ensures Trim(s) != Trim(t)
  {
    var d :| EndsIn(s, t, d);
    OneDot(d);
    assert s[|t|] == '.' && s[..|t|] == t;
    LongerIsSeen(s, t);
  }

  /**
   An agent named `t` and one named `t` with a private domain behind it, of one platform, are rivals exactly if `t`
   ends in no private domain itself.
   */
  lemma WithAndWithoutDomainIff(a: Agent, b: Agent, d: string)
    requires a.name != "" && b.name == a.name + d && PrivateDomain(Lower(d))
    requires a.platform == b.platform && a.platform.Some? && a.platform.value != ""
    ensures Rivals(StemKey, a, b) <==> !exists t :: Cuts(Lower(a.name), t)
  {
    var s := Lower(a.name);
    LowerJoins(a.name, d);
    assert EndsIn(Lower(b.name), s, Lower(d));
    assert Cuts(Lower(b.name), s);
    TrimIsTrimmed(s, Trim(s));
    assert ReducesTo(b.name, Trim(s));
    if t :| Cuts(s, t) {
      CutIsSeen(s, t);
      TrimIsTrimmed(t, Trim(t));
      assert ReducesTo(a.name, Trim(t));
      RivalsByNameIff(a, b, Trim(t), Trim(s));
      BarAlike(Trim(t), Trim(s), Lower(a.platform.value));
    } else {
      RivalsByNameIff(a, b, Trim(s), Trim(s));
    }
  }

  lemma BarAlike(x: string, y: string, p: string)
    ensures x + "|" + p == y + "|" + p <==> x == y
  {
    if x + "|" + p == y + "|" + p {
      assert |x| == |y| && x == (x + "|" + p)[..|x|] && y == (y + "|" + p)[..|y|];
    }
  }

  /** So such a machine keeps one agent at most, whichever refresher lists it. */
  lemma OneOfBoth(s: seq<Agent>, a: Agent, b: Agent, d: string)
    requires DistinctIds(s) && a.name != "" && b.name == a.name + d && PrivateDomain(Lower(d)) && a.id != b.id
    requires a.platform == b.platform && a.platform.Some? && a.platform.value != ""
    requires !exists t :: Cuts(Lower(a.name), t)
    ensures !(a in Champions(s, StemKey) && b in Champions(s, StemKey))
    ensures !(a in Deduplicated(s) && b in Deduplicated(s))
  {
    WithAndWithoutDomainIff(a, b, d);
    ChampionsAreWinners(s, StemKey);
    ChampionsAreWinners(Champions(s, StemKey), IpKey);
    SurvivorsAreNotRivals(s, StemKey);
  }

  /******* Addresses *******/

  ghost predicate AtAddress(a: Agent, ip: string) {
    a.ip.Some? && Trimmed(a.ip.value, ip) && ip !in {"", "127.0.0.1", "::1"}
  }

  /** Two agents are rivals by address exactly if both have the same one, spaces aside, and it is not a local one. */
  lemma RivalsByAddressIff(a: Agent, b: Agent)
    ensures Rivals(IpKey, a, b) <==> exists ip :: AtAddress(a, ip) && AtAddress(b, ip)
  {
    TrimIsTrimmed("", "");
    AddressIs(a);
    AddressIs(b);
  }

  lemma AddressIs(a: Agent)
    ensures forall ip :: IpKey(a) == Some(ip) <==> AtAddress(a, ip)
  {
    forall ip ensures IpKey(a) == Some(ip) <==> AtAddress(a, ip) {
      TrimIsTrimmed(a.ip.GetOr(""), ip);
    }
    TrimIsTrimmed("", Trim(""));
  }
}
