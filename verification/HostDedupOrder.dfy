/** Exactly when the order of the dictionary matters to both deduplication passes together. */
module HostDedupOrder {
  import opened HostDedup
  import opened HostDedupTheorems

  // Both passes, for whatever keys; nothing below depends on which they are.
  ghost function Twice(s: seq<Agent>, stem: Key, ip: Key): seq<Agent> {
    Champions(Champions(s, stem), ip)
  }

  /** In some order the agent survives the first pass. */
  ghost predicate Top(s: seq<Agent>, stem: Key, a: Agent) {
    a in s && forall c | c in s && Rivals(stem, a, c) :: !Outranks(c, a)
  }

  predicate Beats(ip: Key, b: Agent, a: Agent) {
    Rivals(ip, a, b) && Outranks(b, a)
  }

  /** In some order `b` stands for `c` after the first pass. */
  ghost predicate MayStandFor(s: seq<Agent>, stem: Key, c: Agent, b: Agent) {
    Top(s, stem, b) && (b == c || Rivals(stem, c, b))
  }

  /** In some order someone stands for `c` who does not beat `a`. */
  ghost predicate Harmless(s: seq<Agent>, stem: Key, ip: Key, a: Agent, c: Agent) {
    exists b | b in s :: MayStandFor(s, stem, c, b) && !Beats(ip, b, a)
  }

  /** The agent is on top of its stem group, and no group has to be represented by one that beats it. */
  ghost predicate MaySurvive(s: seq<Agent>, stem: Key, ip: Key, a: Agent) {
    Top(s, stem, a) && forall c {:trigger Harmless(s, stem, ip, a, c)} | c in s :: Harmless(s, stem, ip, a, c)
  }

  /** The agent outranks its whole stem group, and everyone at its address who is on top of a stem group. */
  ghost predicate MustSurvive(s: seq<Agent>, stem: Key, ip: Key, a: Agent) {
    && a in s
    && (forall b | b in s && b.id != a.id && Rivals(stem, a, b) :: Outranks(a, b))
    && (forall b | b in s && b.id != a.id && Rivals(ip, a, b) && Top(s, stem, b) :: Outranks(a, b))
  }

  ghost predicate OrderNeverMatters(s: seq<Agent>, stem: Key, ip: Key) {
    forall t | SameAgents(s, t) :: SameAgents(Twice(s, stem, ip), Twice(t, stem, ip))
  }

  lemma ChampionIsTop(s: seq<Agent>, stem: Key, t: seq<Agent>, w: Agent)
    requires SameAgents(s, t) && w in Champions(t, stem)
    ensures Top(s, stem, w)
  {
    ChampionsAreWinners(t, stem);
    var i :| 0 <= i < |t| && t[i] == w && Wins(t, stem, i);
    forall c | c in s && Rivals(stem, w, c) ensures !Outranks(c, w) {
      var j :| 0 <= j < |t| && t[j] == c;
      if j != i { assert !Eliminates(stem, t[j], t[i], j < i); }
    }
  }

  /******* What survives in some order, and what in every order *******/

  lemma SurvivorMaySurvive(s: seq<Agent>, stem: Key, ip: Key, t: seq<Agent>, a: Agent)
    requires SameAgents(s, t) && a in Twice(t, stem, ip)
    ensures MaySurvive(s, stem, ip, a)
  {
    var stems := Champions(t, stem);
    ChampionsAreWinners(t, stem);
    ChampionsAreWinners(stems, ip);
    ChampionIsTop(s, stem, t, a);
    forall c | c in s ensures Harmless(s, stem, ip, a, c) {
      var w := Represented(t, stem, c);
      ChampionIsTop(s, stem, t, w);
      NotBeaten(stems, ip, a, w);
      assert w in s && MayStandFor(s, stem, c, w);
    }
  }

  lemma NotBeaten(stems: seq<Agent>, ip: Key, a: Agent, w: Agent)
    requires DistinctIds(stems) && a in Champions(stems, ip) && w in stems
    ensures !Beats(ip, w, a)
  {
    ChampionsAreWinners(stems, ip);
    var i :| 0 <= i < |stems| && stems[i] == a && Wins(stems, ip, i);
    var j :| 0 <= j < |stems| && stems[j] == w;
    if j != i { assert !Eliminates(ip, stems[j], stems[i], j < i); }
  }

  lemma OutrankerWins(t: seq<Agent>, key: Key, a: Agent)
    requires DistinctIds(t) && a in t && forall b | b in t && b.id != a.id && Rivals(key, a, b) :: Outranks(a, b)
    ensures a in Champions(t, key)
  {
    var i :| 0 <= i < |t| && t[i] == a;
    forall j | 0 <= j < |t| && j != i ensures !Eliminates(key, t[j], t[i], j < i) {
      assert t[j] in t && t[j].id != a.id;
    }
    assert Wins(t, key, i);
    ChampionsAreWinners(t, key);
  }

  lemma MustSurviveSurvives(s: seq<Agent>, stem: Key, ip: Key, t: seq<Agent>, a: Agent)
    requires SameAgents(s, t) && MustSurvive(s, stem, ip, a)
    ensures a in Twice(t, stem, ip)
  {
    var stems := Champions(t, stem);
    OutrankerWins(t, stem, a);
    ChampionsAreWinners(t, stem);
    forall b | b in stems && b.id != a.id && Rivals(ip, a, b) ensures Outranks(a, b) {
      ChampionIsTop(s, stem, t, b);
      assert b in s;
    }
    OutrankerWins(stems, ip, a);
  }

  /******* An order in which an agent survives *******/

  // The other agents of `s` that beat `a`, or those that do not, in their order.
  function Others(s: seq<Agent>, ip: Key, a: Agent, beating: bool): seq<Agent> {
    if s == [] then []
    else
      var x, more := s[|s| - 1], Others(s[..|s| - 1], ip, a, beating);
      if x.id != a.id && Beats(ip, x, a) == beating then more + [x] else more
  }

  lemma {:induction false} OthersContents(s: seq<Agent>, ip: Key, a: Agent, beating: bool)
    requires DistinctIds(s)
    ensures DistinctIds(Others(s, ip, a, beating))
    ensures forall x :: x in Others(s, ip, a, beating) <==> x in s && x.id != a.id && Beats(ip, x, a) == beating
  {
    if s != [] {
      var init := s[..|s| - 1];
      OthersContents(init, ip, a, beating);
      forall x | x in init ensures x.id != s[|s| - 1].id {
        var k :| 0 <= k < |init| && init[k] == x;
        assert s[k] == x;
      }
      assert forall x :: x in s <==> x in init || x == s[|s| - 1];
    }
  }

  // `a` first, then everyone who does not beat it.
  function Favouring(s: seq<Agent>, ip: Key, a: Agent): seq<Agent> {
    [a] + Others(s, ip, a, false) + Others(s, ip, a, true)
  }

  lemma JoinedIds(x: seq<Agent>, y: seq<Agent>)
    requires DistinctIds(x) && DistinctIds(y) && forall a, b | a in x && b in y :: a.id != b.id
    ensures DistinctIds(x + y)
  {
    forall i, j | 0 <= i < j < |x + y| ensures (x + y)[i].id != (x + y)[j].id {
      if i < |x| <= j { assert x[i] in x && y[j - |x|] in y; }
    }
  }

  lemma SameId(s: seq<Agent>, a: Agent, b: Agent)
    requires DistinctIds(s) && a in s && b in s && a.id == b.id
    ensures a == b
  {
    var i, j :| 0 <= i < |s| && 0 <= j < |s| && s[i] == a && s[j] == b;
  }

  lemma FavouringSame(s: seq<Agent>, ip: Key, a: Agent)
    requires DistinctIds(s) && a in s
    ensures SameAgents(s, Favouring(s, ip, a)) && Favouring(s, ip, a)[0] == a
  {
    var kind, harsh := Others(s, ip, a, false), Others(s, ip, a, true);
    OthersContents(s, ip, a, false);
    OthersContents(s, ip, a, true);
    JoinedIds([a], kind);
    forall x, y | x in [a] + kind && y in harsh ensures x.id != y.id {
      if x in kind && x.id == y.id { SameId(s, x, y); }
    }
    JoinedIds([a] + kind, harsh);
    forall x ensures x in s <==> x in Favouring(s, ip, a) {
      if x in s && x.id == a.id { SameId(s, x, a); }
    }
  }

  lemma HarshComeLast(s: seq<Agent>, ip: Key, a: Agent, j: nat)
    requires DistinctIds(s) && |Others(s, ip, a, false)| < j < |Favouring(s, ip, a)|
    ensures Beats(ip, Favouring(s, ip, a)[j], a)
  {
    OthersContents(s, ip, a, true);
    assert Favouring(s, ip, a)[j] in Others(s, ip, a, true);
  }

  lemma KindComeFirst(s: seq<Agent>, ip: Key, a: Agent, i: nat, j: nat)
    requires DistinctIds(s) && i < j < |Favouring(s, ip, a)| && !Beats(ip, Favouring(s, ip, a)[j], a)
    ensures !Beats(ip, Favouring(s, ip, a)[i], a)
  {
    var kind := Others(s, ip, a, false);
    OthersContents(s, ip, a, false);
    if j > |kind| {
      HarshComeLast(s, ip, a, j);
    } else if i > 0 {
      assert Favouring(s, ip, a)[i] == kind[i - 1] && kind[i - 1] in kind;
    }
  }

  lemma {:induction false} FirstStaysFirst(t: seq<Agent>, key: Key, n: nat)
    requires 0 < n <= |t| && Wins(t, key, 0)
    ensures Select(t, key, n) != [] && Select(t, key, n)[0] == t[0]
  {
    if n > 1 {
      FirstStaysFirst(t, key, n - 1);
    } else {
      assert Select(t, key, 0) == [];
    }
  }

  /** Whoever represents a group in that order does not beat `a`. */
  lemma FavouredChampions(s: seq<Agent>, stem: Key, ip: Key, a: Agent, w: Agent)
    requires DistinctIds(s) && MaySurvive(s, stem, ip, a) && w in Champions(Favouring(s, ip, a), stem)
    ensures !Beats(ip, w, a)
  {
    var t := Favouring(s, ip, a);
    FavouringSame(s, ip, a);
    ChampionsAreWinners(t, stem);
    assert w in s;
    assert Harmless(s, stem, ip, a, w);
    var b :| b in s && MayStandFor(s, stem, w, b) && !Beats(ip, b, a);
    var i :| 0 <= i < |t| && t[i] == w && Wins(t, stem, i);
    var j :| 0 <= j < |t| && t[j] == b;
    if i != j {
      assert !Eliminates(stem, t[j], t[i], j < i);
      assert !Outranks(w, b);
      KindComeFirst(s, ip, a, i, j);
    }
  }

  lemma SomeOrderKeeps(s: seq<Agent>, stem: Key, ip: Key, a: Agent)
    requires DistinctIds(s) && MaySurvive(s, stem, ip, a)
    ensures SameAgents(s, Favouring(s, ip, a)) && a in Twice(Favouring(s, ip, a), stem, ip)
  {
    var t := Favouring(s, ip, a);
    var stems := Champions(t, stem);
    FavouringSame(s, ip, a);
    FirstOfTopWins(s, t, stem);
    FirstStaysFirst(t, stem, |t|);
    ChampionsAreWinners(t, stem);
    forall j | 0 <= j < |stems| && j != 0 ensures !Eliminates(ip, stems[j], stems[0], j < 0) {
      FavouredChampions(s, stem, ip, a, stems[j]);
    }
    assert Wins(stems, ip, 0);
    ChampionsAreWinners(stems, ip);
  }

  /******* An order in which it does not *******/

  lemma LosesToFirst(t: seq<Agent>, key: Key, a: Agent)
    requires DistinctIds(t) && t != [] && t[0].id != a.id && Rivals(key, a, t[0]) && !Outranks(a, t[0])
    ensures a !in Champions(t, key)
  {
    ChampionsAreWinners(t, key);
    if i :| 0 <= i < |t| && t[i] == a && Wins(t, key, i) {
      assert Eliminates(key, t[0], t[i], 0 < i);
      assert false;
    }
  }

  lemma SomeOrderDrops(s: seq<Agent>, stem: Key, ip: Key, a: Agent) returns (t: seq<Agent>)
    requires DistinctIds(s) && a in s && !MustSurvive(s, stem, ip, a)
    ensures SameAgents(s, t) && a !in Twice(t, stem, ip)
  {
    if b :| b in s && b.id != a.id && Rivals(stem, a, b) && !Outranks(a, b) {
      t := Fronted(s, b);
      FrontedSame(s, b);
      LosesToFirst(t, stem, a);
      ChampionsAreWinners(t, stem);
      ChampionsAreWinners(Champions(t, stem), ip);
    } else {
      var b :| b in s && b.id != a.id && Rivals(ip, a, b) && Top(s, stem, b) && !Outranks(a, b);
      t := Fronted(s, b);
      FrontedSame(s, b);
      FirstOfTopWins(s, t, stem);
      FirstStaysFirst(t, stem, |t|);
      ChampionsAreWinners(t, stem);
      LosesToFirst(Champions(t, stem), ip, a);
    }
  }

  /******* The condition *******/

  lemma TwiceIds(t: seq<Agent>, stem: Key, ip: Key)
    requires DistinctIds(t)
    ensures DistinctIds(Twice(t, stem, ip)) && forall a | a in Twice(t, stem, ip) :: a in t
  {
    ChampionsAreWinners(t, stem);
    ChampionsAreWinners(Champions(t, stem), ip);
  }

  lemma SameEitherWay(s: seq<Agent>, stem: Key, ip: Key, t: seq<Agent>, a: Agent)
    requires SameAgents(s, t) && forall x | x in s && MaySurvive(s, stem, ip, x) :: MustSurvive(s, stem, ip, x)
    ensures a in Twice(s, stem, ip) <==> a in Twice(t, stem, ip)
  {
    TwiceIds(s, stem, ip);
    TwiceIds(t, stem, ip);
    if a in Twice(s, stem, ip) {
      SurvivorMaySurvive(s, stem, ip, s, a);
      MustSurviveSurvives(s, stem, ip, t, a);
    }
    if a in Twice(t, stem, ip) {
      SurvivorMaySurvive(s, stem, ip, t, a);
      MustSurviveSurvives(s, stem, ip, s, a);
    }
  }

  lemma NeverMattersOnlyIf(s: seq<Agent>, stem: Key, ip: Key, a: Agent)
    requires DistinctIds(s) && OrderNeverMatters(s, stem, ip) && a in s && MaySurvive(s, stem, ip, a)
    ensures MustSurvive(s, stem, ip, a)
  {
    SomeOrderKeeps(s, stem, ip, a);
    forall t | SameAgents(s, t) ensures a in Twice(t, stem, ip) {
      assert SameAgents(Twice(s, stem, ip), Twice(t, stem, ip));
    }
    if !MustSurvive(s, stem, ip, a) {
      var t := SomeOrderDrops(s, stem, ip, a);
    }
  }

  lemma OrderNeverMattersIff(s: seq<Agent>, stem: Key, ip: Key)
    requires DistinctIds(s)
    ensures OrderNeverMatters(s, stem, ip) <==>
            forall a | a in s && MaySurvive(s, stem, ip, a) :: MustSurvive(s, stem, ip, a)
  {
    if OrderNeverMatters(s, stem, ip) {
      forall a | a in s && MaySurvive(s, stem, ip, a) ensures MustSurvive(s, stem, ip, a) {
        NeverMattersOnlyIf(s, stem, ip, a);
      }
    }
    if forall a | a in s && MaySurvive(s, stem, ip, a) :: MustSurvive(s, stem, ip, a) {
      forall t | SameAgents(s, t) ensures SameAgents(Twice(s, stem, ip), Twice(t, stem, ip)) {
        TwiceIds(s, stem, ip);
        TwiceIds(t, stem, ip);
        forall a { SameEitherWay(s, stem, ip, t, a); }
      }
    }
  }

  /**
   The order of the dictionary never matters to the two passes together exactly if every agent that can survive them
   has to: which do either can be told from the keys and ranks of the agents alone.
   */
  lemma DeduplicationOrderIff(s: seq<Agent>)
    requires DistinctIds(s)
    ensures (forall t | SameAgents(s, t) :: SameAgents(Deduplicated(s), Deduplicated(t))) <==>
            forall a | a in s && MaySurvive(s, StemKey, IpKey, a) :: MustSurvive(s, StemKey, IpKey, a)
  {
    OrderNeverMattersIff(s, StemKey, IpKey);
    forall t ensures Twice(t, StemKey, IpKey) == Deduplicated(t) { }
  }
}
