/**
 The agent list behind the host posture cache: three sources merged into one ordered
 dictionary, which is then thinned twice, by hostname stem and by IP address.

 An insertion-ordered dictionary of agents is a sequence of agents with distinct ids:
 overwriting a key keeps its place, deleting and setting it again moves it to the end.
 */
module HostDedup {
  import opened Options
  import Text

  datatype Liveness = Unknown | NeverConnected | Active | Disconnected

  datatype Agent = Agent(
    id: string, name: string, ip: Option<string>,
    platform: Option<string>, keepalive: Option<int>, status: Liveness)

  // A row of the alerts scan (one per distinct agent seen in the last 90 days).
  datatype AlertRow = AlertRow(id: string, name: Option<string>, ip: Option<string>)

  // A row of edr_agents or collector_agents.
  datatype RegistryRow = RegistryRow(
    id: string, hostname: Option<string>, ip: Option<string>,
    osType: Option<string>, lastSeen: Option<int>, removed: bool)

  type Key = Agent -> Option<string>

  /******* The ordered dictionary *******/

  ghost predicate DistinctIds(d: seq<Agent>) {
    forall i, j | 0 <= i < j < |d| :: d[i].id != d[j].id
  }

  /** `d[a.id] = a` */
  function Put(d: seq<Agent>, a: Agent): seq<Agent> {
    if d == [] then [a]
    else if d[0].id == a.id then [a] + d[1..]
    else [d[0]] + Put(d[1..], a)
  }

  /** `d.pop(id, None)` */
  function Without(d: seq<Agent>, id: string): seq<Agent> {
    if d == [] then []
    else if d[|d| - 1].id == id then Without(d[..|d| - 1], id)
    else Without(d[..|d| - 1], id) + [d[|d| - 1]]
  }

  function PutAll(d: seq<Agent>, xs: seq<Agent>): seq<Agent> {
    if xs == [] then d else Put(PutAll(d, xs[..|xs| - 1]), xs[|xs| - 1])
  }

  lemma {:induction false} PutContents(d: seq<Agent>, a: Agent)
    requires DistinctIds(d)
    ensures DistinctIds(Put(d, a))
    ensures forall b :: b in Put(d, a) <==> b == a || (b in d && b.id != a.id)
  {
    if d != [] && d[0].id != a.id {
      PutContents(d[1..], a);
      assert forall b :: b in d <==> b == d[0] || b in d[1..];
      assert forall i | 0 < i < |d| :: d[i].id != d[0].id;
    } else if d != [] {
      assert forall b :: b in d <==> b == d[0] || b in d[1..];
    }
  }

  lemma {:induction false} PutAbsent(d: seq<Agent>, a: Agent)
    requires forall b | b in d :: b.id != a.id
    ensures Put(d, a) == d + [a]
  {
    if d != [] {
      PutAbsent(d[1..], a);
      assert [d[0]] + (d[1..] + [a]) == d + [a];
    }
  }

  lemma HeadOrRest(d: seq<Agent>, a: Agent)
    requires DistinctIds(d) && a in d
    ensures if d[0].id == a.id then d[0] == a else a in d[1..]
    ensures DistinctIds(d[1..]) && d == [d[0]] + d[1..]
  {
    var i :| 0 <= i < |d| && d[i] == a;
  }

  lemma {:induction false} PutPresent(d: seq<Agent>, a: Agent)
    requires DistinctIds(d) && a in d
    ensures Put(d, a) == d
  {
    HeadOrRest(d, a);
    if d[0].id != a.id {
      PutPresent(d[1..], a);
    }
  }

  lemma {:induction false} WithoutAbsent(d: seq<Agent>, id: string)
    requires forall b | b in d :: b.id != id
    ensures Without(d, id) == d
  {
    if d != [] {
      WithoutAbsent(d[..|d| - 1], id);
      assert d[|d| - 1] in d;
    }
  }

  lemma WithoutLast(d: seq<Agent>, a: Agent, id: string)
    ensures Without(d + [a], id) == if a.id == id then Without(d, id) else Without(d, id) + [a]
  {
  }

  /******* Merging the three sources *******/

  function GhostEntry(r: AlertRow): Agent {
    Agent(r.id, NonEmpty(r.name, r.id), r.ip, None, None, Unknown)
  }

  function RegistryEntry(r: RegistryRow, now: int): Agent {
    Agent(r.id, NonEmpty(r.hostname, r.id), r.ip, r.osType, r.lastSeen, LivenessOf(r.lastSeen, now))
  }

  // `x or y` on an optional string
  function NonEmpty(x: Option<string>, y: string): string {
    if x.Some? && x.value != "" then x.value else y
  }

  const STALE_AFTER := 300

  function LivenessOf(lastSeen: Option<int>, now: int): Liveness {
    if lastSeen.None? then NeverConnected
    else if now - lastSeen.value < STALE_AFTER then Active else Disconnected
  }

  function Enrolled(rows: seq<RegistryRow>): (live: seq<RegistryRow>)
    ensures forall r :: r in live <==> r in rows && !r.removed
  {
    if rows == [] then []
    else Enrolled(rows[..|rows| - 1]) + if rows[|rows| - 1].removed then [] else [rows[|rows| - 1]]
  }

  function GhostEntries(rows: seq<AlertRow>): (r: seq<Agent>)
    ensures |r| == |rows| && forall i | 0 <= i < |rows| :: r[i] == GhostEntry(rows[i])
  {
    if rows == [] then [] else GhostEntries(rows[..|rows| - 1]) + [GhostEntry(rows[|rows| - 1])]
  }

  function RegistryEntries(rows: seq<RegistryRow>, now: int): (r: seq<Agent>)
    ensures |r| == |rows| && forall i | 0 <= i < |rows| :: r[i] == RegistryEntry(rows[i], now)
  {
    if rows == [] then [] else RegistryEntries(rows[..|rows| - 1], now) + [RegistryEntry(rows[|rows| - 1], now)]
  }

  function Merged(alerts: seq<AlertRow>, edr: seq<RegistryRow>, collectors: seq<RegistryRow>, now: int): seq<Agent> {
    PutAll(PutAll([], GhostEntries(alerts)), RegistryEntries(Enrolled(edr) + Enrolled(collectors), now))
  }

  lemma PutAllStep(d: seq<Agent>, xs: seq<Agent>, i: nat)
    requires i < |xs|
    ensures PutAll(d, xs[..i + 1]) == Put(PutAll(d, xs[..i]), xs[i])
  {
    assert xs[..i + 1][..i] == xs[..i];
  }

  method Merge(alerts: seq<AlertRow>, edr: seq<RegistryRow>, collectors: seq<RegistryRow>, now: int)
    returns (agents: seq<Agent>)
    ensures agents == Merged(alerts, edr, collectors, now)
  {
    agents := [];
    ghost var ghosts := GhostEntries(alerts);
    for i := 0 to |alerts|
      invariant agents == PutAll([], ghosts[..i])
    {
      PutAllStep([], ghosts, i);
      agents := Put(agents, GhostEntry(alerts[i]));
    }
    assert ghosts[..|ghosts|] == ghosts;
    var registry := Enrolled(edr) + Enrolled(collectors);
    ghost var known, base := RegistryEntries(registry, now), agents;
    for i := 0 to |registry|
      invariant agents == PutAll(base, known[..i])
    {
      PutAllStep(base, known, i);
      agents := Put(agents, RegistryEntry(registry[i], now));
    }
    assert known[..|known|] == known;
  }

  /** The last entry put under an id. */
  function Latest(xs: seq<Agent>, id: string): (r: Option<Agent>)
    ensures r.Some? ==> r.value in xs && r.value.id == id
    ensures r.None? ==> forall a | a in xs :: a.id != id
  {
    if xs == [] then None
    else if xs[|xs| - 1].id == id then Some(xs[|xs| - 1])
    else
      assert forall a | a in xs :: a in xs[..|xs| - 1] || a == xs[|xs| - 1];
      Latest(xs[..|xs| - 1], id)
  }

  /** A dictionary built by assignments holds, for each id, the last entry put under it. */
  lemma {:induction false} PutAllContents(d: seq<Agent>, xs: seq<Agent>)
    requires DistinctIds(d)
    ensures DistinctIds(PutAll(d, xs))
    ensures forall a :: a in PutAll(d, xs) <==>
                        Latest(xs, a.id) == Some(a) || (Latest(xs, a.id).None? && a in d)
  {
    if xs != [] {
      var init, x := xs[..|xs| - 1], xs[|xs| - 1];
      PutAllContents(d, init);
      PutContents(PutAll(d, init), x);
    }
  }

  lemma {:induction false} PutTwice(d: seq<Agent>, a: Agent, x: Agent)
    requires a.id == x.id
    ensures Put(Put(d, a), x) == Put(d, x)
  {
    if d != [] && d[0].id != x.id {
      PutTwice(d[1..], a, x);
    }
  }

  lemma {:induction false} PutLast(d: seq<Agent>, z: Agent, x: Agent)
    requires forall a | a in d :: a.id != z.id
    ensures (exists a | a in d :: a.id == x.id) ==> Put(d + [z], x) == Put(d, x) + [z]
    ensures z.id == x.id ==> Put(d + [z], x) == d + [x]
  {
    if d != [] {
      assert (d + [z])[1..] == d[1..] + [z];
      assert forall a | a in d :: a == d[0] || a in d[1..];
      if d[0].id != x.id { PutLast(d[1..], z, x); }
    }
  }

  lemma {:induction false} PutsCommute(d: seq<Agent>, b: Agent, x: Agent)
    requires b.id != x.id && exists a | a in d :: a.id == x.id
    ensures Put(Put(d, b), x) == Put(Put(d, x), b)
  {
    if d[0].id != b.id && d[0].id != x.id {
      assert forall a | a in d :: a == d[0] || a in d[1..];
      PutsCommute(d[1..], b, x);
    }
  }

  lemma PutAllAppend(d: seq<Agent>, xs: seq<Agent>, x: Agent)
    ensures PutAll(d, xs + [x]) == Put(PutAll(d, xs), x)
  {
    assert (xs + [x])[..|xs|] == xs;
  }

  // `x` replaces an entry of `xs`.
  lemma {:induction false} PutAllReplaced(d: seq<Agent>, xs: seq<Agent>, x: Agent)
    requires DistinctIds(d) && DistinctIds(xs) && exists a | a in xs :: a.id == x.id
    ensures PutAll(d, Put(xs, x)) == Put(PutAll(d, xs), x)
  {
    var init, z := xs[..|xs| - 1], xs[|xs| - 1];
    assert xs == init + [z];
    PutLast(init, z, x);
    PutAllAppend(d, init, z);
    if z.id == x.id {
      PutTwice(PutAll(d, init), z, x);
      PutAllAppend(d, init, x);
    } else {
      var a :| a in init && a.id == x.id;
      PutAllReplaced(d, init, x);
      PutAllHasId(d, init, a);
      PutsCommute(PutAll(d, init), z, x);
      PutAllAppend(d, Put(init, x), z);
    }
  }

  lemma PutAllHasId(d: seq<Agent>, xs: seq<Agent>, a: Agent)
    requires DistinctIds(d) && a in xs
    ensures exists b | b in PutAll(d, xs) :: b.id == a.id
  {
    PutAllContents(d, xs);
    assert Latest(xs, a.id).Some?;
    assert Latest(xs, a.id).value in PutAll(d, xs);
  }

  lemma PutAllPut(d: seq<Agent>, xs: seq<Agent>, x: Agent)
    requires DistinctIds(d) && DistinctIds(xs)
    ensures PutAll(d, Put(xs, x)) == Put(PutAll(d, xs), x)
  {
    if exists a | a in xs :: a.id == x.id {
      PutAllReplaced(d, xs, x);
    } else {
      PutAbsent(xs, x);
      PutAllAppend(d, xs, x);
    }
  }

  /** Assigning the entries of a dictionary is assigning those it was made of. */
  lemma {:induction false} PutDictionary(d: seq<Agent>, xs: seq<Agent>)
    requires DistinctIds(d)
    ensures PutAll(d, PutAll([], xs)) == PutAll(d, xs)
  {
    if xs != [] {
      var init := xs[..|xs| - 1];
      PutDictionary(d, init);
      PutAllContents([], init);
      PutAllPut(d, PutAll([], init), xs[|xs| - 1]);
    }
  }

  /** The merge of the scheduled refresher, which first makes a dictionary of the registry rows. */
  method MergeScheduled(alerts: seq<AlertRow>, edr: seq<RegistryRow>, collectors: seq<RegistryRow>, now: int)
    returns (agents: seq<Agent>)
    ensures agents == Merged(alerts, edr, collectors, now)
  {
    var rows := Enrolled(edr) + Enrolled(collectors);
    ghost var known, ghosts := RegistryEntries(rows, now), GhostEntries(alerts);
    var registry := [];
    for i := 0 to |rows|
      invariant registry == PutAll([], known[..i])
    {
      PutAllStep([], known, i);
      registry := Put(registry, RegistryEntry(rows[i], now));
    }
    agents := [];
    for i := 0 to |alerts|
      invariant agents == PutAll([], ghosts[..i])
    {
      PutAllStep([], ghosts, i);
      agents := Put(agents, GhostEntry(alerts[i]));
    }
    assert known[..|known|] == known && ghosts[..|ghosts|] == ghosts;
    ghost var base := agents;
    for i := 0 to |registry|
      invariant agents == PutAll(base, registry[..i])
    {
      PutAllStep(base, registry, i);
      agents := Put(agents, registry[i]);
    }
    assert registry[..|registry|] == registry;
    PutAllContents([], ghosts);
    PutDictionary(base, known);
  }

  /******* Keys and ranks *******/

  predicate HasPlatform(a: Agent) {
    a.platform.Some? && a.platform.value != ""
  }

  // Keepalives are ordered in time; an agent that never reported comes before all others.
  predicate Fresher(x: Option<int>, y: Option<int>) {
    x.Some? && (y.None? || x.value > y.value)
  }

  /** The order both tie-breaks use: a platform first, then the fresher keepalive. */
  predicate Outranks(a: Agent, b: Agent) {
    if HasPlatform(a) != HasPlatform(b) then HasPlatform(a) else Fresher(a.keepalive, b.keepalive)
  }

  const DOMAIN_SUFFIXES: seq<string> :=
    [".lan", ".local", ".home", ".internal", ".localdomain", ".corp", ".office", ".intranet", ".priv"]

  function CutSuffix(s: string, suffixes: seq<string>): Option<string> {
    if suffixes == [] then None
    else if suffixes[0] <= s[if |suffixes[0]| <= |s| then |s| - |suffixes[0]| else 0..] then
      Some(s[..|s| - |suffixes[0]|])
    else CutSuffix(s, suffixes[1..])
  }

  /** One private-domain suffix removed at the end of the name, or before its last line break. */
  function Stem(name: string): string {
    var s := Text.Lower(name);
    var cut := match CutSuffix(s, DOMAIN_SUFFIXES)
      case Some(t) => t
      case None =>
        if s != "" && s[|s| - 1] == '\n' then CutSuffix(s[..|s| - 1], DOMAIN_SUFFIXES).GetOr(s) else s;
    Text.Trim(cut)
  }

  /** The group an agent belongs to in the first stage; None for an agent that is always kept. */
  function StemKey(a: Agent): Option<string> {
    if HasPlatform(a) then
      Some(ComposedKey(Stem(NonEmpty(Some(a.name), a.id)), a.platform.value))
    else None
  }

  function ComposedKey(stem: string, platform: string): string {
    stem + "|" + Text.Lower(platform)
  }

  /** The group an agent belongs to in the second stage; None for an agent that is always kept. */
  function IpKey(a: Agent): Option<string> {
    var ip := Text.Trim(a.ip.GetOr(""));
    if ip == "" || ip == "127.0.0.1" || ip == "::1" then None else Some(ip)
  }

  /******* Champions of a stage *******/

  predicate Rivals(key: Key, a: Agent, b: Agent) {
    key(a).Some? && key(a) == key(b)
  }

  /** A rival that outranks the agent eliminates it, and so does an earlier one of the same rank. */
  predicate Eliminates(key: Key, b: Agent, a: Agent, earlier: bool) {
    Rivals(key, a, b) && (Outranks(b, a) || (earlier && !Outranks(a, b)))
  }

  /** Agent `i` survives. */
  ghost predicate Wins(s: seq<Agent>, key: Key, i: nat)
    requires i < |s|
  {
    forall j | 0 <= j < |s| && j != i :: !Eliminates(key, s[j], s[i], j < i)
  }

  ghost function Select(s: seq<Agent>, key: Key, n: nat): seq<Agent>
    requires n <= |s|
  {
    if n == 0 then []
    else if Wins(s, key, n - 1) then Select(s, key, n - 1) + [s[n - 1]]
    else Select(s, key, n - 1)
  }

  /** What one stage keeps of `s`, in the order of `s`. */
  ghost function Champions(s: seq<Agent>, key: Key): seq<Agent> {
    Select(s, key, |s|)
  }

  ghost function Deduplicated(s: seq<Agent>): seq<Agent> {
    Champions(Champions(s, StemKey), IpKey)
  }

  lemma {:induction false} SelectContents(s: seq<Agent>, key: Key, n: nat)
    requires n <= |s| && DistinctIds(s)
    ensures DistinctIds(Select(s, key, n))
    ensures forall a :: a in Select(s, key, n) <==>
                        exists i {:trigger Wins(s, key, i)} | 0 <= i < n :: s[i] == a && Wins(s, key, i)
  {
    if n > 0 {
      SelectContents(s, key, n - 1);
      forall a | a in Select(s, key, n - 1)
        ensures a.id != s[n - 1].id
      {
        var i :| 0 <= i < n - 1 && s[i] == a && Wins(s, key, i);
      }
    }
  }

  /** The survivors are exactly the winners, each once. */
  lemma ChampionsAreWinners(s: seq<Agent>, key: Key)
    requires DistinctIds(s)
    ensures DistinctIds(Champions(s, key))
    ensures forall a :: a in Champions(s, key) <==>
                        exists i {:trigger Wins(s, key, i)} | 0 <= i < |s| :: s[i] == a && Wins(s, key, i)
    ensures forall a | a in Champions(s, key) :: a in s
  {
    SelectContents(s, key, |s|);
  }

  /******* The loops *******/

  lemma WinsExtended(t: seq<Agent>, a: Agent, key: Key, i: nat)
    requires i < |t|
    ensures Wins(t + [a], key, i) <==> Wins(t, key, i) && !Eliminates(key, a, t[i], false)
  {
    var s := t + [a];
    assert s[|t|] == a && s[i] == t[i];
    if Wins(s, key, i) {
      forall j | 0 <= j < |t| && j != i ensures !Eliminates(key, t[j], t[i], j < i) {
        assert s[j] == t[j];
      }
    }
  }

  lemma {:induction false} SelectUnchanged(t: seq<Agent>, a: Agent, key: Key, n: nat)
    requires n <= |t|
    requires forall i {:trigger Wins(t, key, i)} | 0 <= i < |t| && Wins(t, key, i) :: !Eliminates(key, a, t[i], false)
    ensures Select(t + [a], key, n) == Select(t, key, n)
  {
    if n > 0 {
      SelectUnchanged(t, a, key, n - 1);
      WinsExtended(t, a, key, n - 1);
      assert (t + [a])[n - 1] == t[n - 1];
    }
  }

  lemma {:induction false} SelectReplaced(t: seq<Agent>, a: Agent, key: Key, w: nat, n: nat)
    requires n <= |t| && w < |t| && DistinctIds(t)
    requires Wins(t, key, w) && Eliminates(key, a, t[w], false)
    ensures Select(t + [a], key, n) == Without(Select(t, key, n), t[w].id)
  {
    if n > 0 {
      var i := n - 1;
      SelectReplaced(t, a, key, w, i);
      WinsExtended(t, a, key, i);
      assert (t + [a])[i] == t[i];
      if Wins(t, key, i) {
        WithoutLast(Select(t, key, i), t[i], t[w].id);
        if i != w {
          SoleWinner(t, key, i, w);
          assert t[i].id != t[w].id;
        }
      }
    }
  }

  /** A group has one winner only. */
  lemma SoleWinner(s: seq<Agent>, key: Key, i: nat, j: nat)
    requires i < |s| && j < |s| && i != j && Wins(s, key, i) && Wins(s, key, j)
    ensures !Rivals(key, s[i], s[j])
  {
  }

  /** How the survivors change when one more agent is visited; `w` is the rival that won so far. */
  lemma Visit(t: seq<Agent>, a: Agent, key: Key, w: Option<nat>)
    requires DistinctIds(t + [a])
    requires w.Some? ==> w.value < |t| && Wins(t, key, w.value) && Rivals(key, t[w.value], a)
    requires w.None? ==> forall i | 0 <= i < |t| :: !Rivals(key, t[i], a)
    ensures Champions(t + [a], key) ==
            if w.None? then Champions(t, key) + [a]
            else if Outranks(a, t[w.value]) then Without(Champions(t, key), t[w.value].id) + [a]
            else Champions(t, key)
    ensures w.None? || Outranks(a, t[w.value]) ==> Wins(t + [a], key, |t|)
    ensures w.Some? && !Outranks(a, t[w.value]) ==> Wins(t + [a], key, w.value)
  {
    if w.None? {
      VisitFirst(t, a, key);
    } else if Outranks(a, t[w.value]) {
      VisitBetter(t, a, key, w.value);
    } else {
      VisitWorse(t, a, key, w.value);
    }
  }

  lemma SelectLast(t: seq<Agent>, a: Agent, key: Key)
    ensures Champions(t + [a], key) ==
            Select(t + [a], key, |t|) + if Wins(t + [a], key, |t|) then [a] else []
  {
    assert (t + [a])[|t|] == a;
  }

  lemma VisitFirst(t: seq<Agent>, a: Agent, key: Key)
    requires forall i | 0 <= i < |t| :: !Rivals(key, t[i], a)
    ensures Champions(t + [a], key) == Champions(t, key) + [a] && Wins(t + [a], key, |t|)
  {
    SelectUnchanged(t, a, key, |t|);
    assert Wins(t + [a], key, |t|);
    SelectLast(t, a, key);
  }

  lemma VisitBetter(t: seq<Agent>, a: Agent, key: Key, w: nat)
    requires DistinctIds(t + [a]) && w < |t| && Wins(t, key, w) && Rivals(key, t[w], a) && Outranks(a, t[w])
    ensures Champions(t + [a], key) == Without(Champions(t, key), t[w].id) + [a] && Wins(t + [a], key, |t|)
  {
    var s := t + [a];
    ChampionIds(t, a, key);
    SelectReplaced(t, a, key, w, |t|);
    forall j | 0 <= j < |t| ensures !Eliminates(key, s[j], a, true) {
      RivalsOfWinner(t, key, w, j, a);
    }
    assert Wins(s, key, |t|);
    SelectLast(t, a, key);
  }

  lemma VisitWorse(t: seq<Agent>, a: Agent, key: Key, w: nat)
    requires w < |t| && Wins(t, key, w) && Rivals(key, t[w], a) && !Outranks(a, t[w])
    ensures Champions(t + [a], key) == Champions(t, key) && Wins(t + [a], key, w)
  {
    forall i | 0 <= i < |t| && Wins(t, key, i) ensures !Eliminates(key, a, t[i], false) {
      if i != w { SoleWinner(t, key, i, w); }
    }
    SelectUnchanged(t, a, key, |t|);
    WinsExtended(t, a, key, w);
    assert Eliminates(key, (t + [a])[w], a, true);
    SelectLast(t, a, key);
  }

  /** Whoever outranks the winner of a group eliminates the whole group. */
  lemma RivalsOfWinner(t: seq<Agent>, key: Key, w: nat, j: nat, a: Agent)
    requires w < |t| && j < |t| && Wins(t, key, w) && Rivals(key, t[w], a) && Outranks(a, t[w])
    ensures !Eliminates(key, t[j], a, true)
  {
  }

  /** What `_stem_seen` and `_ip_seen` hold after visiting `t`: the winner's id under every key. */
  ghost predicate TracksWinners(seen: map<string, string>, t: seq<Agent>, key: Key) {
    && (forall i | 0 <= i < |t| && key(t[i]).Some? :: key(t[i]).value in seen)
    && (forall k | k in seen :: WinnerUnder(k, seen[k], t, key))
  }

  ghost predicate WinnerUnder(k: string, id: string, t: seq<Agent>, key: Key) {
    exists w: nat {:trigger Wins(t, key, w)} | w < |t| :: key(t[w]) == Some(k) && t[w].id == id && Wins(t, key, w)
  }

  function Lookup(d: seq<Agent>, id: string): (a: Agent)
    requires exists b :: b in d && b.id == id
    ensures a in d && a.id == id
  {
    if d[0].id == id then d[0] else
      assert forall b | b in d :: b == d[0] || b in d[1..];
      Lookup(d[1..], id)
  }

  /** The rival recorded under a key, if there is one. */
  lemma RecordedWinner(seen: map<string, string>, t: seq<Agent>, a: Agent, key: Key) returns (w: Option<nat>)
    requires DistinctIds(t) && TracksWinners(seen, t, key) && key(a).Some?
    ensures w.Some? <==> key(a).value in seen
    ensures w.Some? ==> w.value < |t| && t[w.value].id == seen[key(a).value]
                        && Wins(t, key, w.value) && Rivals(key, t[w.value], a)
    ensures w.None? ==> forall i | 0 <= i < |t| :: !Rivals(key, t[i], a)
  {
    var k := key(a).value;
    w := None;
    if k in seen {
      assert WinnerUnder(k, seen[k], t, key);
      var v: nat :| v < |t| && key(t[v]) == Some(k) && t[v].id == seen[k] && Wins(t, key, v);
      w := Some(v);
    }
  }

  /** Keeping the records up to date: `v` is the winner of its key once `a` has been visited. */
  lemma TrackVisit(seen: map<string, string>, t: seq<Agent>, a: Agent, key: Key, v: nat)
    requires TracksWinners(seen, t, key) && key(a).Some?
    requires v <= |t| && key((t + [a])[v]) == key(a) && Wins(t + [a], key, v)
    ensures TracksWinners(seen[key(a).value := (t + [a])[v].id], t + [a], key)
  {
    var s, k := t + [a], key(a).value;
    var seen' := seen[k := s[v].id];
    forall k' | k' in seen' && k' != k ensures WinnerUnder(k', seen'[k'], s, key) {
      WinnerStays(k', seen[k'], t, a, key);
    }
    assert WinnerUnder(k, s[v].id, s, key);
    assert forall i | 0 <= i < |t| :: s[i] == t[i];
    assert s[|t|] == a;
  }

  lemma WinnerStays(k: string, id: string, t: seq<Agent>, a: Agent, key: Key)
    requires WinnerUnder(k, id, t, key) && key(a) != Some(k)
    ensures WinnerUnder(k, id, t + [a], key)
  {
    var w: nat :| w < |t| && key(t[w]) == Some(k) && t[w].id == id && Wins(t, key, w);
    WinsExtended(t, a, key, w);
    assert (t + [a])[w] == t[w];
  }

  /** Agents that keep no key (no platform, or no usable address) never touch the records. */
  lemma TrackKeyless(seen: map<string, string>, t: seq<Agent>, a: Agent, key: Key)
    requires DistinctIds(t + [a]) && TracksWinners(seen, t, key) && key(a).None?
    ensures TracksWinners(seen, t + [a], key)
    ensures Champions(t + [a], key) == Champions(t, key) + [a]
  {
    Visit(t, a, key, None);
    var s := t + [a];
    forall k | k in seen ensures WinnerUnder(k, seen[k], s, key) {
      WinnerStays(k, seen[k], t, a, key);
    }
    assert forall i | 0 <= i < |t| :: s[i] == t[i];
    assert s[|t|] == a;
  }

  lemma ChampionIds(t: seq<Agent>, a: Agent, key: Key)
    requires DistinctIds(t + [a])
    ensures DistinctIds(t) && DistinctIds(Champions(t, key))
    ensures forall b | b in Champions(t, key) :: b.id != a.id
  {
    assert forall i | 0 <= i < |t| :: (t + [a])[i] == t[i];
    ChampionsAreWinners(t, key);
    assert (t + [a])[|t|] == a;
  }

  lemma LookupFinds(d: seq<Agent>, i: nat)
    requires DistinctIds(d) && i < |d|
    ensures d[i] in d && Lookup(d, d[i].id) == d[i]
  {
  }

  /** One visit of either pass: what becomes of the records and of the output. */
  lemma VisitStep(seen: map<string, string>, t: seq<Agent>, a: Agent, key: Key) returns (w: Option<nat>)
    requires DistinctIds(t + [a]) && TracksWinners(seen, t, key)
    ensures w.Some? <==> key(a).Some? && key(a).value in seen
    ensures w.None? ==> Champions(t + [a], key) == Put(Champions(t, key), a)
    ensures key(a).None? ==> TracksWinners(seen, t + [a], key)
    ensures key(a).Some? && w.None? ==> TracksWinners(seen[key(a).value := a.id], t + [a], key)
    ensures w.Some? ==> w.value < |t| && t[w.value].id == seen[key(a).value] && Rivals(key, t[w.value], a)
    ensures w.Some? ==> t[w.value] in Champions(t, key)
    ensures w.Some? ==>
              var (winner, loser) := if Outranks(a, t[w.value]) then (a, t[w.value]) else (t[w.value], a);
              && Champions(t + [a], key) == Put(Without(Champions(t, key), loser.id), winner)
              && TracksWinners(seen[key(a).value := winner.id], t + [a], key)
    ensures w.Some? && !Outranks(a, t[w.value]) ==>
              && Champions(t + [a], key) == Champions(t, key)
              && TracksWinners(seen, t + [a], key)
  {
    ChampionIds(t, a, key);
    PutAbsent(Champions(t, key), a);
    if key(a).None? {
      w := None;
      TrackKeyless(seen, t, a, key);
    } else {
      w := RecordedWinner(seen, t, a, key);
      Visit(t, a, key, w);
      if w.None? || Outranks(a, t[w.value]) {
        TrackVisit(seen, t, a, key, |t|);
      } else {
        assert (t + [a])[w.value] == t[w.value];
        TrackVisit(seen, t, a, key, w.value);
        assert seen[key(a).value := t[w.value].id] == seen;
      }
      if w.Some? {
        ReplaceLoser(t, a, t[w.value], key, w.value);
      }
    }
  }

  /** Popping the loser and setting the winner, whichever of the two is already in the output. */
  lemma ReplaceLoser(t: seq<Agent>, a: Agent, prev: Agent, key: Key, w: nat)
    requires DistinctIds(t + [a]) && w < |t| && t[w] == prev && Wins(t, key, w)
    ensures Put(Without(Champions(t, key), prev.id), a) == Without(Champions(t, key), prev.id) + [a]
    ensures Put(Without(Champions(t, key), a.id), prev) == Champions(t, key)
    ensures prev in Champions(t, key)
  {
    var d := Champions(t, key);
    ChampionIds(t, a, key);
    ChampionsAreWinners(t, key);
    WithoutContents(d, prev.id);
    PutAbsent(Without(d, prev.id), a);
    WithoutAbsent(d, a.id);
    PutPresent(d, prev);
  }

  /** The hostname-stem pass. */
  method StemDedup(agents: seq<Agent>) returns (deduped: seq<Agent>)
    requires DistinctIds(agents)
    ensures deduped == Champions(agents, StemKey)
  {
    var seen: map<string, string> := map[];
    deduped := [];
    for n := 0 to |agents|
      invariant deduped == Champions(agents[..n], StemKey)
      invariant TracksWinners(seen, agents[..n], StemKey)
    {
      var a := agents[n];
      assert agents[..n + 1] == agents[..n] + [a];
      ghost var w := VisitStep(seen, agents[..n], a, StemKey);
      var key := StemKey(a);
      if key.None? {
        deduped := Put(deduped, a);
      } else if key.value !in seen {
        seen := seen[key.value := a.id];
        deduped := Put(deduped, a);
      } else {
        LookupFinds(agents, w.value);
        var prev := Lookup(agents, seen[key.value]);
        if Fresher(a.keepalive, prev.keepalive) {
          assert prev in deduped; // so that deleting it cannot fail
          deduped := Without(deduped, prev.id);
          seen := seen[key.value := a.id];
          deduped := Put(deduped, a);
        }
      }
    }
    assert agents[..|agents|] == agents;
  }

  lemma {:induction false} WithoutContents(d: seq<Agent>, id: string)
    ensures forall b :: b in Without(d, id) <==> b in d && b.id != id
  {
    if d != [] {
      WithoutContents(d[..|d| - 1], id);
      assert forall b :: b in d <==> b in d[..|d| - 1] || b == d[|d| - 1];
    }
  }

  /** One turn of the IP pass, for the agent at `n` with the address `ip`. */
  method IpVisit(agents: seq<Agent>, n: nat, ip: Option<string>, ghost key: Key,
                 seen: map<string, string>, deduped: seq<Agent>)
    returns (seen': map<string, string>, deduped': seq<Agent>)
    requires DistinctIds(agents) && n < |agents| && ip == key(agents[n])
    requires deduped == Champions(agents[..n], key) && TracksWinners(seen, agents[..n], key)
    ensures deduped' == Champions(agents[..n + 1], key) && TracksWinners(seen', agents[..n + 1], key)
  {
    var a := agents[n];
    assert agents[..n + 1] == agents[..n] + [a];
    ghost var w := VisitStep(seen, agents[..n], a, key);
    seen', deduped' := seen, deduped;
    if ip.None? {
      deduped' := Put(deduped', a);
    } else if ip.value !in seen {
      seen' := seen'[ip.value := a.id];
      deduped' := Put(deduped', a);
    } else {
      LookupFinds(agents, w.value);
      var prev := Lookup(agents, seen[ip.value]);
      var winner, loser;
      if HasPlatform(a) && !HasPlatform(prev) {
        winner, loser := a, prev;
      } else if HasPlatform(prev) && !HasPlatform(a) {
        winner, loser := prev, a;
      } else if Fresher(a.keepalive, prev.keepalive) {
        winner, loser := a, prev;
      } else {
        winner, loser := prev, a;
      }
      deduped' := Without(deduped', loser.id);
      seen' := seen'[ip.value := winner.id];
      deduped' := Put(deduped', winner);
    }
  }

  /** The IP pass. */
  method IpDedup(agents: seq<Agent>) returns (deduped: seq<Agent>)
    requires DistinctIds(agents)
    ensures deduped == Champions(agents, IpKey)
  {
    var seen: map<string, string> := map[];
    deduped := [];
    for n := 0 to |agents|
      invariant deduped == Champions(agents[..n], IpKey)
      invariant TracksWinners(seen, agents[..n], IpKey)
    {
      seen, deduped := IpVisit(agents, n, IpKey(agents[n]), IpKey, seen, deduped);
    }
    assert agents[..|agents|] == agents;
  }

  /** The agent list of the scheduled refresher, which has no IP pass. */
  method CollectAllHosts(alerts: seq<AlertRow>, edr: seq<RegistryRow>, collectors: seq<RegistryRow>, now: int)
    returns (agents: seq<Agent>)
    ensures agents == Champions(Merged(alerts, edr, collectors, now), StemKey)
    ensures DistinctIds(agents)
  {
    agents := MergeScheduled(alerts, edr, collectors, now);
    MergedIds(alerts, edr, collectors, now);
    ChampionsAreWinners(agents, StemKey);
    agents := StemDedup(agents);
  }

  /** The agent list of one refresh of the portal. */
  method CollectAgents(alerts: seq<AlertRow>, edr: seq<RegistryRow>, collectors: seq<RegistryRow>, now: int)
    returns (agents: seq<Agent>)
    ensures agents == Deduplicated(Merged(alerts, edr, collectors, now))
    ensures DistinctIds(agents)
  {
    agents := Merge(alerts, edr, collectors, now);
    MergedIds(alerts, edr, collectors, now);
    ChampionsAreWinners(agents, StemKey);
    agents := StemDedup(agents);
    ChampionsAreWinners(agents, IpKey);
    agents := IpDedup(agents);
  }

  lemma MergedIds(alerts: seq<AlertRow>, edr: seq<RegistryRow>, collectors: seq<RegistryRow>, now: int)
    ensures DistinctIds(Merged(alerts, edr, collectors, now))
  {
    PutAllContents([], GhostEntries(alerts));
    PutAllContents(PutAll([], GhostEntries(alerts)), RegistryEntries(Enrolled(edr) + Enrolled(collectors), now));
  }
}
