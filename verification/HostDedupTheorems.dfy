/** What the two deduplication passes guarantee together: who survives, who stands for whom, and when order matters. */
module HostDedupTheorems {
  import opened Options
  import opened HostDedup
  import Text

  /******* One survivor per group *******/

  ghost predicate NoRivals(s: seq<Agent>, key: Key) {
    forall a, b | a in s && b in s && a.id != b.id :: !Rivals(key, a, b)
  }

  /** `b` stands in for `a` after one pass: itself, or a rival of at least its rank. */
  predicate StandsFor(key: Key, a: Agent, b: Agent) {
    (a == b || Rivals(key, a, b)) && !Outranks(a, b)
  }

  /** A winner is the earliest among the rivals of greatest rank, and nobody else is. */
  lemma WinsIffEarliestGreatest(s: seq<Agent>, key: Key, i: nat)
    requires i < |s|
    ensures Wins(s, key, i) <==>
            forall j | 0 <= j < |s| && Rivals(key, s[i], s[j]) ::
              !Outranks(s[j], s[i]) && (!Outranks(s[i], s[j]) ==> i <= j)
  {
  }

  // The best of agent `i` and its rivals among the first `n`.
  ghost function Best(s: seq<Agent>, key: Key, i: nat, n: nat): (b: nat)
    requires i < |s| && n <= |s|
    ensures b < |s| && StandsFor(key, s[i], s[b])
    ensures forall j | (0 <= j < n || j == i) && j != b :: !Eliminates(key, s[j], s[b], j < b)
  {
    if n == 0 then i
    else
      var b := Best(s, key, i, n - 1);
      if n - 1 != b && Eliminates(key, s[n - 1], s[b], n - 1 < b) then n - 1 else b
  }

  /** Every agent is represented by exactly one survivor of its pass, of at least its rank. */
  lemma Represented(s: seq<Agent>, key: Key, a: Agent) returns (w: Agent)
    requires DistinctIds(s) && a in s
    ensures w in Champions(s, key) && StandsFor(key, a, w)
    ensures forall v | v in Champions(s, key) && StandsFor(key, a, v) :: v == w
  {
    var i :| 0 <= i < |s| && s[i] == a;
    var b := Best(s, key, i, |s|);
    w := s[b];
    assert Wins(s, key, b);
    ChampionsAreWinners(s, key);
    forall v | v in Champions(s, key) && StandsFor(key, a, v) ensures v == w {
      var c :| 0 <= c < |s| && s[c] == v && Wins(s, key, c);
      if c != b {
        assert !Eliminates(key, s[b], s[c], b < c) && !Eliminates(key, s[c], s[b], c < b);
      }
    }
  }

  /** No two survivors of a pass are rivals. */
  lemma SurvivorsAreNotRivals(s: seq<Agent>, key: Key)
    requires DistinctIds(s)
    ensures NoRivals(Champions(s, key), key)
  {
    ChampionsAreWinners(s, key);
    forall a, b | a in Champions(s, key) && b in Champions(s, key) && a.id != b.id
      ensures !Rivals(key, a, b)
    {
      var i :| 0 <= i < |s| && s[i] == a && Wins(s, key, i);
      var j :| 0 <= j < |s| && s[j] == b && Wins(s, key, j);
      SoleWinner(s, key, i, j);
    }
  }

  /**
   Both passes together: no two agents left share a stem key or an address, every stem group still
   has its one champion after the first pass, and every address among those has its one champion in the end.
   */
  lemma OnePerStemAndAddress(s: seq<Agent>)
    requires DistinctIds(s)
    ensures var t, u := Champions(s, StemKey), Deduplicated(s);
            && DistinctIds(u)
            && NoRivals(t, StemKey) && NoRivals(u, StemKey) && NoRivals(u, IpKey)
            && (forall a | a in s && StemKey(a).Some? :: exists w :: w in t && StemKey(w) == StemKey(a))
            && (forall a | a in t && IpKey(a).Some? :: exists w :: w in u && IpKey(w) == IpKey(a))
  {
    var t, u := Champions(s, StemKey), Deduplicated(s);
    ChampionsAreWinners(s, StemKey);
    ChampionsAreWinners(t, IpKey);
    SurvivorsAreNotRivals(s, StemKey);
    SurvivorsAreNotRivals(t, IpKey);
    forall a | a in s && StemKey(a).Some? ensures exists w :: w in t && StemKey(w) == StemKey(a) {
      var w := Represented(s, StemKey, a);
    }
    forall a | a in t && IpKey(a).Some? ensures exists w :: w in u && IpKey(w) == IpKey(a) {
      var w := Represented(t, IpKey, a);
    }
  }

  /** Every agent is reached from its survivor in two links at most, along which rank never drops. */
  lemma TwoLinks(s: seq<Agent>, a: Agent) returns (m: Agent, w: Agent)
    requires DistinctIds(s) && a in s
    ensures m in Champions(s, StemKey) && StandsFor(StemKey, a, m)
    ensures w in Deduplicated(s) && StandsFor(IpKey, m, w)
    ensures !Outranks(a, w) && w in s
  {
    m := Represented(s, StemKey, a);
    ChampionsAreWinners(s, StemKey);
    w := Represented(Champions(s, StemKey), IpKey, m);
    ChampionsAreWinners(Champions(s, StemKey), IpKey);
  }

  /******* Idempotence *******/

  lemma {:induction false} SelectAll(s: seq<Agent>, key: Key, n: nat)
    requires n <= |s| && DistinctIds(s) && NoRivals(s, key)
    ensures Select(s, key, n) == s[..n]
  {
    if n > 0 {
      SelectAll(s, key, n - 1);
      forall j | 0 <= j < |s| && j != n - 1 ensures !Eliminates(key, s[j], s[n - 1], j < n - 1) {
        assert s[j] in s && s[n - 1] in s && s[j].id != s[n - 1].id;
      }
      assert Wins(s, key, n - 1);
    }
  }

  /** A pass changes nothing exactly when there are no rivals left. */
  lemma PassIsIdentityIff(s: seq<Agent>, key: Key)
    requires DistinctIds(s)
    ensures Champions(s, key) == s <==> NoRivals(s, key)
  {
    SurvivorsAreNotRivals(s, key);
    if NoRivals(s, key) {
      SelectAll(s, key, |s|);
    }
  }

  lemma DeduplicationIsIdempotent(s: seq<Agent>)
    requires DistinctIds(s)
    ensures Deduplicated(Deduplicated(s)) == Deduplicated(s)
  {
    OnePerStemAndAddress(s);
    PassIsIdentityIff(Deduplicated(s), StemKey);
    PassIsIdentityIff(Deduplicated(s), IpKey);
  }

  /******* Order *******/

  /** The same dictionary entries in any order. */
  ghost predicate SameAgents(s: seq<Agent>, t: seq<Agent>) {
    DistinctIds(s) && DistinctIds(t) && forall a :: a in s <==> a in t
  }

  /** Two agents of one group share its greatest rank. */
  ghost predicate TopTie(s: seq<Agent>, key: Key) {
    exists a, b | a in s && b in s && a.id != b.id :: TiedOnTop(s, key, a, b)
  }

  ghost predicate TiedOnTop(s: seq<Agent>, key: Key, a: Agent, b: Agent) {
    && Rivals(key, a, b) && !Outranks(a, b) && !Outranks(b, a)
    && forall c | c in s && Rivals(key, a, c) :: !Outranks(c, a)
  }

  ghost predicate OrderIrrelevant(s: seq<Agent>, key: Key) {
    forall t | SameAgents(s, t) :: SameAgents(Champions(s, key), Champions(t, key))
  }

  lemma SurvivesInAnyOrder(s: seq<Agent>, t: seq<Agent>, key: Key, a: Agent)
    requires SameAgents(s, t) && !TopTie(s, key) && a in Champions(s, key)
    ensures a in Champions(t, key)
  {
    ChampionsAreWinners(s, key);
    ChampionsAreWinners(t, key);
    var i :| 0 <= i < |s| && s[i] == a && Wins(s, key, i);
    assert a in t;
    var k :| 0 <= k < |t| && t[k] == a;
    forall j | 0 <= j < |t| && j != k ensures !Eliminates(key, t[j], a, j < k) {
      var b := t[j];
      assert b in t && b.id != a.id;
      if Rivals(key, a, b) && !Outranks(a, b) {
        forall c | c in s && Rivals(key, a, c) ensures !Outranks(c, a) {
          var m :| 0 <= m < |s| && s[m] == c;
          if m != i { assert !Eliminates(key, s[m], s[i], m < i); }
        }
        assert b in s;
        assert TiedOnTop(s, key, a, b);
      }
    }
    assert Wins(t, key, k);
  }

  lemma TopTieInAnyOrder(s: seq<Agent>, t: seq<Agent>, key: Key)
    requires SameAgents(s, t) && TopTie(t, key)
    ensures TopTie(s, key)
  {
  }

  // The dictionary with one of its entries moved to the front.
  function Fronted(s: seq<Agent>, a: Agent): seq<Agent> {
    [a] + Without(s, a.id)
  }

  lemma {:induction false} WithoutIds(d: seq<Agent>, id: string)
    requires DistinctIds(d)
    ensures DistinctIds(Without(d, id))
  {
    if d != [] {
      var init := d[..|d| - 1];
      WithoutIds(init, id);
      WithoutContents(init, id);
      forall b | b in Without(init, id) ensures b.id != d[|d| - 1].id {
        var k :| 0 <= k < |init| && init[k] == b;
      }
    }
  }

  lemma FrontedSame(s: seq<Agent>, a: Agent)
    requires DistinctIds(s) && a in s
    ensures SameAgents(s, Fronted(s, a)) && Fronted(s, a)[0] == a
  {
    var t := Fronted(s, a);
    WithoutIds(s, a.id);
    WithoutContents(s, a.id);
    assert DistinctIds(t);
    forall c ensures c in s <==> c in t {
      if c in s && c.id == a.id {
        var i, j :| 0 <= i < |s| && 0 <= j < |s| && s[i] == c && s[j] == a;
      }
    }
  }

  /** First in the order, an agent that nobody outranks survives. */
  lemma FirstOfTopWins(s: seq<Agent>, t: seq<Agent>, key: Key)
    requires SameAgents(s, t) && t != [] && forall c | c in s && Rivals(key, t[0], c) :: !Outranks(c, t[0])
    ensures Wins(t, key, 0) && t[0] in Champions(t, key)
  {
    forall j | 0 <= j < |t| && j != 0 ensures !Eliminates(key, t[j], t[0], j < 0) {
      assert t[j] in t;
    }
    ChampionsAreWinners(t, key);
  }

  lemma FrontedSurvives(s: seq<Agent>, key: Key, a: Agent, b: Agent)
    requires DistinctIds(s) && a in s && OrderIrrelevant(s, key) && TiedOnTop(s, key, a, b)
    ensures a in Champions(s, key)
  {
    FrontedSame(s, a);
    FirstOfTopWins(s, Fronted(s, a), key);
  }

  /** The survivors of a pass are the same in every order exactly when no group ties at its top. */
  lemma OrderIrrelevantIff(s: seq<Agent>, key: Key)
    requires DistinctIds(s)
    ensures OrderIrrelevant(s, key) <==> !TopTie(s, key)
  {
    if TopTie(s, key) && OrderIrrelevant(s, key) {
      var a, b :| a in s && b in s && a.id != b.id && TiedOnTop(s, key, a, b);
      forall c | c in s && Rivals(key, b, c) ensures !Outranks(c, b) {
        assert Rivals(key, a, c);
      }
      assert TiedOnTop(s, key, b, a);
      FrontedSurvives(s, key, a, b);
      FrontedSurvives(s, key, b, a);
      SurvivorsAreNotRivals(s, key);
      assert false;
    }
    if !TopTie(s, key) {
      forall t | SameAgents(s, t) ensures SameAgents(Champions(s, key), Champions(t, key)) {
        PassOrder(s, t, key);
      }
    }
  }

  lemma PassOrder(s: seq<Agent>, t: seq<Agent>, key: Key)
    requires SameAgents(s, t) && !TopTie(s, key)
    ensures SameAgents(Champions(s, key), Champions(t, key))
  {
    ChampionsAreWinners(s, key);
    ChampionsAreWinners(t, key);
    forall a ensures a in Champions(s, key) <==> a in Champions(t, key) {
      if a in Champions(s, key) { SurvivesInAnyOrder(s, t, key, a); }
      if a in Champions(t, key) {
        if TopTie(t, key) { TopTieInAnyOrder(s, t, key); }
        SurvivesInAnyOrder(t, s, key, a);
      }
    }
  }

  /** Without ties on top of a stem group or of an address, the order of the dictionary does not matter. */
  lemma DeduplicationOrder(s: seq<Agent>, t: seq<Agent>)
    requires SameAgents(s, t)
    requires !TopTie(s, StemKey) && !TopTie(Champions(s, StemKey), IpKey)
    ensures SameAgents(Deduplicated(s), Deduplicated(t))
  {
    PassOrder(s, t, StemKey);
    PassOrder(Champions(s, StemKey), Champions(t, StemKey), IpKey);
  }

  /** A tie between two agents of one stem matters as much as one at an address: the first visited stays. */
  lemma StemTieMatters(a: Agent, b: Agent)
    requires a.id != b.id && Rivals(StemKey, a, b) && a.keepalive == b.keepalive
    ensures Deduplicated([a, b]) == [a] && Deduplicated([b, a]) == [b]
  {
    ChampionOfPair(a, b, StemKey);
    ChampionOfPair(b, a, StemKey);
    PassIsIdentityIff([a], IpKey);
    PassIsIdentityIff([b], IpKey);
  }

  /******* Registry agents and alerts-only ghosts *******/

  ghost predicate Registered(id: string, edr: seq<RegistryRow>, collectors: seq<RegistryRow>) {
    exists r :: r in Enrolled(edr) + Enrolled(collectors) && r.id == id
  }

  /** Nothing is known about the agent that a rank could use. */
  predicate Bare(a: Agent) {
    !HasPlatform(a) && a.keepalive.None?
  }

  lemma KnownIds(edr: seq<RegistryRow>, collectors: seq<RegistryRow>, now: int, id: string)
    ensures var known := RegistryEntries(Enrolled(edr) + Enrolled(collectors), now);
            Registered(id, edr, collectors) <==> Latest(known, id).Some?
  {
    var rows := Enrolled(edr) + Enrolled(collectors);
    var known := RegistryEntries(rows, now);
    if Registered(id, edr, collectors) {
      var r :| r in rows && r.id == id;
      var i :| 0 <= i < |rows| && rows[i] == r;
      assert known[i] in known;
    }
    if Latest(known, id).Some? {
      var i :| 0 <= i < |known| && known[i] == Latest(known, id).value;
      assert rows[i] in rows;
    }
  }

  /** Entries without a registry row come from the alerts scan and have no rank at all. */
  lemma UnregisteredIsBare(alerts: seq<AlertRow>, edr: seq<RegistryRow>, collectors: seq<RegistryRow>, now: int,
                           a: Agent)
    requires a in Merged(alerts, edr, collectors, now)
    ensures !Registered(a.id, edr, collectors) ==> Bare(a) && a in GhostEntries(alerts)
    ensures Registered(a.id, edr, collectors) ==> a in RegistryEntries(Enrolled(edr) + Enrolled(collectors), now)
  {
    var ghosts := GhostEntries(alerts);
    PutAllContents([], ghosts);
    PutAllContents(PutAll([], ghosts), RegistryEntries(Enrolled(edr) + Enrolled(collectors), now));
    KnownIds(edr, collectors, now, a.id);
    if !Registered(a.id, edr, collectors) {
      var k :| 0 <= k < |ghosts| && ghosts[k] == a;
    }
  }

  /** An agent with a platform or a keepalive is never lost to an alerts-only entry. */
  lemma RankedAgentsOutliveGhosts(alerts: seq<AlertRow>, edr: seq<RegistryRow>, collectors: seq<RegistryRow>, now: int,
                                  a: Agent)
    returns (w: Agent)
    requires a in Merged(alerts, edr, collectors, now) && !Bare(a)
    ensures w in Deduplicated(Merged(alerts, edr, collectors, now))
    ensures Registered(w.id, edr, collectors) && !Outranks(a, w)
  {
    MergedIds(alerts, edr, collectors, now);
    var m;
    m, w := TwoLinks(Merged(alerts, edr, collectors, now), a);
    UnregisteredIsBare(alerts, edr, collectors, now, w);
  }

  /** An alerts-only entry keeps its address exactly when everything there is bare and it came first. */
  lemma GhostKeepsAddressIff(alerts: seq<AlertRow>, edr: seq<RegistryRow>, collectors: seq<RegistryRow>, now: int,
                             i: nat)
    requires i < |Champions(Merged(alerts, edr, collectors, now), StemKey)|
    requires !Registered(Champions(Merged(alerts, edr, collectors, now), StemKey)[i].id, edr, collectors)
    ensures var t := Champions(Merged(alerts, edr, collectors, now), StemKey);
            Wins(t, IpKey, i) <==> forall j | 0 <= j < |t| && Rivals(IpKey, t[i], t[j]) :: Bare(t[j]) && i <= j
  {
    var s := Merged(alerts, edr, collectors, now);
    var t := Champions(s, StemKey);
    MergedIds(alerts, edr, collectors, now);
    ChampionsAreWinners(s, StemKey);
    assert t[i] in t;
    UnregisteredIsBare(alerts, edr, collectors, now, t[i]);
    WinsIffEarliestGreatest(t, IpKey, i);
  }

  /** So an enrolled agent that never reported a platform or a keepalive is lost to an earlier alerts-only entry. */
  lemma BareAgentIsLostToGhost(g: AlertRow, r: RegistryRow, now: int)
    requires g.id != r.id && !r.removed && (r.osType.None? || r.osType.value == "") && r.lastSeen.None?
    requires Rivals(IpKey, GhostEntry(g), RegistryEntry(r, now))
    ensures RegistryEntry(r, now) in Merged([g], [r], [], now)
    ensures Deduplicated(Merged([g], [r], [], now)) == [GhostEntry(g)]
  {
    MergedPair(g, r, now);
    EarlierBareWins(GhostEntry(g), RegistryEntry(r, now));
  }

  lemma PutAllOne(d: seq<Agent>, a: Agent)
    ensures PutAll(d, [a]) == Put(d, a)
  {
    assert [a][..0] == [];
  }

  lemma EntriesOfOne(g: AlertRow, r: RegistryRow, now: int)
    requires !r.removed
    ensures GhostEntries([g]) == [GhostEntry(g)]
    ensures RegistryEntries(Enrolled([r]) + Enrolled([]), now) == [RegistryEntry(r, now)]
  {
    assert [r][..0] == [];
    assert Enrolled([r]) + Enrolled([]) == [r];
  }

  lemma MergedPair(g: AlertRow, r: RegistryRow, now: int)
    requires g.id != r.id && !r.removed
    ensures Merged([g], [r], [], now) == [GhostEntry(g), RegistryEntry(r, now)]
  {
    var a, b := GhostEntry(g), RegistryEntry(r, now);
    EntriesOfOne(g, r, now);
    PutAllOne([], a);
    PutAllOne([a], b);
    PutAbsent([a], b);
  }

  lemma KeylessPair(a: Agent, b: Agent, key: Key)
    requires a.id != b.id && key(a).None?
    ensures Champions([a, b], key) == [a, b]
  {
    PassIsIdentityIff([a, b], key);
  }

  lemma EarlierBareWins(a: Agent, b: Agent)
    requires a.id != b.id && Bare(a) && Bare(b) && Rivals(IpKey, a, b)
    ensures Deduplicated([a, b]) == [a]
  {
    KeylessPair(a, b, StemKey);
    ChampionOfPair(a, b, IpKey);
  }

  lemma ChampionOfPair(a: Agent, b: Agent, key: Key)
    requires Rivals(key, a, b)
    ensures Champions([a, b], key) == if Outranks(b, a) then [b] else [a]
  {
    var s := [a, b];
    assert s[0] == a && s[1] == b;
    if Outranks(b, a) {
      assert Eliminates(key, s[1], s[0], false);
      assert !Wins(s, key, 0) && Wins(s, key, 1);
    } else {
      assert Eliminates(key, s[0], s[1], true);
      assert Wins(s, key, 0) && !Wins(s, key, 1);
    }
    assert Select(s, key, 0) == [];
    assert Select(s, key, 1) == if Outranks(b, a) then [] else [a];
  }

  /** The freshest keepalive among agents with a platform always survives. */
  lemma FreshestPlatformSurvives(s: seq<Agent>, a: Agent) returns (w: Agent)
    requires DistinctIds(s) && a in s && HasPlatform(a)
    requires forall b | b in s && HasPlatform(b) :: !Fresher(b.keepalive, a.keepalive)
    ensures w in Deduplicated(s) && HasPlatform(w) && w.keepalive == a.keepalive
  {
    var m;
    m, w := TwoLinks(s, a);
  }

  /** Without a platform it need not: any agent with one that reaches the second pass with the same address takes it. */
  lemma FreshestWithoutPlatformIsLost(s: seq<Agent>, a: Agent, p: Agent)
    requires DistinctIds(s) && !HasPlatform(a) && HasPlatform(p)
    requires p in Champions(s, StemKey) && Rivals(IpKey, a, p)
    ensures a !in Deduplicated(s)
  {
    var t := Champions(s, StemKey);
    ChampionsAreWinners(s, StemKey);
    ChampionsAreWinners(t, IpKey);
  }

  ghost predicate HasKeepalive(s: seq<Agent>, k: int) {
    exists a | a in s :: a.keepalive == Some(k)
  }

  /** No agent with a platform that reaches the second pass shares the agent's address. */
  ghost predicate Unchallenged(s: seq<Agent>, a: Agent) {
    forall p | p in Champions(s, StemKey) && HasPlatform(p) :: !Rivals(IpKey, a, p)
  }

  lemma KeylessSurvives(s: seq<Agent>, key: Key, a: Agent)
    requires DistinctIds(s) && a in s && key(a).None?
    ensures a in Champions(s, key)
  {
    var w := Represented(s, key, a);
  }

  lemma NoPlatformNoStem(a: Agent)
    ensures StemKey(a).None? <==> !HasPlatform(a)
  {
  }

  lemma UnchallengedSurvives(s: seq<Agent>, a: Agent) returns (w: Agent)
    requires DistinctIds(s) && a in s && !HasPlatform(a) && Unchallenged(s, a)
    requires forall b | b in s :: !Fresher(b.keepalive, a.keepalive)
    ensures w in Deduplicated(s) && w.keepalive == a.keepalive
  {
    var t := Champions(s, StemKey);
    NoPlatformNoStem(a);
    KeylessSurvives(s, StemKey, a);
    ChampionsAreWinners(s, StemKey);
    ChampionsAreWinners(t, IpKey);
    w := Represented(t, IpKey, a);
    FreshestRival(a, w);
  }

  lemma FreshestRival(a: Agent, w: Agent)
    requires !HasPlatform(a) && (HasPlatform(w) ==> !Rivals(IpKey, a, w)) && StandsFor(IpKey, a, w)
    requires !Fresher(w.keepalive, a.keepalive)
    ensures w.keepalive == a.keepalive
  {
  }

  /**
   The freshest keepalive of all survives exactly if an agent that has it has a platform too, or shares its address
   with no agent that does.
   */
  lemma FreshestSurvivesIff(s: seq<Agent>, k: int)
    requires DistinctIds(s) && forall b | b in s :: !Fresher(b.keepalive, Some(k))
    ensures HasKeepalive(Deduplicated(s), k) <==>
            exists a | a in s :: a.keepalive == Some(k) && (HasPlatform(a) || Unchallenged(s, a))
  {
    ChampionsAreWinners(s, StemKey);
    ChampionsAreWinners(Champions(s, StemKey), IpKey);
    if HasKeepalive(Deduplicated(s), k) {
      var w :| w in Deduplicated(s) && w.keepalive == Some(k);
      if !HasPlatform(w) {
        forall p | p in Champions(s, StemKey) && HasPlatform(p) ensures !Rivals(IpKey, w, p) {
          if Rivals(IpKey, w, p) { FreshestWithoutPlatformIsLost(s, w, p); }
        }
      }
      assert w in s;
    }
    if a :| a in s && a.keepalive == Some(k) && (HasPlatform(a) || Unchallenged(s, a)) {
      var w;
      if HasPlatform(a) { w := FreshestPlatformSurvives(s, a); } else { w := UnchallengedSurvives(s, a); }
      assert w in Deduplicated(s);
    }
  }

  /** The composed key tells stems and platforms apart as long as no platform contains the separator. */
  lemma ComposedKeySeparates(x: string, p: string, y: string, q: string)
    requires '|' !in p && '|' !in q
    ensures ComposedKey(x, p) == ComposedKey(y, q) <==> x == y && Text.Lower(p) == Text.Lower(q)
  {
    forall k | 0 <= k < |p| ensures Text.Lower(p)[k] != '|' { assert p[k] in p; }
    forall k | 0 <= k < |q| ensures Text.Lower(q)[k] != '|' { assert q[k] in q; }
    Text.SplitAtLastBar(x, Text.Lower(p), y, Text.Lower(q));
  }

  /** With a separator in a platform, different pairs can share a key. */
  lemma ComposedKeyCollides(x: string, p: string, q: string)
    requires Text.Lower(p) == p && Text.Lower(q) == q
    ensures ComposedKey(x + "|" + p, q) == ComposedKey(x, p + "|" + q)
  {
  }
}
