/**
 Refreshes of the host posture cache in progress, any number of them and of either kind, interleaved with each
 other, with deletions and tier changes, and with what agents and alerts do to the tables.

 The portal's refresh upserts each row in a transaction of its own. The scheduled one upserts them all in one
 transaction, with a savepoint for each, so the others see them at its commit.
 */
module HostRefreshes {
  import opened Options
  import opened HostDedup
  import opened HostDedupTheorems
  import opened HostCache

  // A refresh under way: its agents, and how many of them it has written or given up.
  datatype Job = Job(kind: Refresher, agents: seq<Agent>, done: nat)

  datatype State = State(
    edr: seq<RegistryRow>, collectors: seq<RegistryRow>, alerts: seq<AlertRow>, cache: Cache, jobs: map<nat, Job>)

  /** The transactions, and how the environment changes the tables; a disabled event does nothing. */
  datatype Event =
    | Load(job: nat, kind: Refresher, now: int)
    | UpsertNext(job: nat, score: Option<real>)
    | Commit(job: nat, outcomes: map<string, real>)
    | Evict(job: nat)
    | Abort(job: nat)
    | Delete(id: string)
    | SetTier(id: string, tier: int)
    | AlertsNow(alerts: seq<AlertRow>)
    | Enroll(edr: bool, row: RegistryRow)
    | Report(edr: bool, row: RegistryRow)
    | Reenroll(row: RegistryRow)

  /** The agents that a refresh has yet to write. */
  function Pending(job: Job): seq<Agent> {
    if job.done <= |job.agents| then job.agents[job.done..] else []
  }

  /** New columns for the rows of an agent. All updates of the registries but one leave the removal flag. */
  function Updated(rows: seq<RegistryRow>, row: RegistryRow, revive: bool): (r: seq<RegistryRow>)
    ensures |r| == |rows|
    ensures forall i | 0 <= i < |rows| ::
              r[i] == if rows[i].id == row.id then row.(removed := rows[i].removed && !revive) else rows[i]
  {
    seq(|rows|, i requires 0 <= i < |rows| =>
      if rows[i].id == row.id then row.(removed := rows[i].removed && !revive) else rows[i])
  }

  predicate Enabled(st: State, e: Event) {
    match e
    case Load(j, _, _) => j !in st.jobs
    case UpsertNext(j, _) => j in st.jobs && st.jobs[j].kind.Portal? && st.jobs[j].done < |st.jobs[j].agents|
    case Commit(j, _) => j in st.jobs && st.jobs[j].kind.Scheduled? && st.jobs[j].done < |st.jobs[j].agents|
    case Evict(j) => j in st.jobs && st.jobs[j].done == |st.jobs[j].agents|
    case Abort(j) => j in st.jobs
    case Delete(id) => id != RESERVED_ID
    case SetTier(id, tier) => tier in {1, 2, 3} && id in st.cache
    case _ => true
  }

  ghost function Loaded(st: State, kind: Refresher, now: int): seq<Agent> {
    Listed(kind, Merged(st.alerts, st.edr, st.collectors, now))
  }

  ghost function Step(st: State, e: Event): State {
    if !Enabled(st, e) then st
    else
      match e
      case Load(j, kind, now) =>
        var agents := Loaded(st, kind, now);
        if agents == [] then st else st.(jobs := st.jobs[j := Job(kind, agents, 0)])
      case UpsertNext(j, score) =>
        var job := st.jobs[j];
        st.(cache := Upserted(st.cache, job.agents[job.done], score), jobs := st.jobs[j := job.(done := job.done + 1)])
      case Commit(j, outcomes) =>
        var job := st.jobs[j];
        st.(cache := UpsertedAll(st.cache, Pending(job), outcomes), jobs := st.jobs[j := job.(done := |job.agents|)])
      case Evict(j) => st.(cache := Evicted(st.cache, st.jobs[j].agents), jobs := st.jobs - {j})
      case Abort(j) => st.(jobs := st.jobs - {j})
      case Delete(id) =>
        st.(edr := MarkRemoved(st.edr, id), collectors := MarkRemoved(st.collectors, id), cache := st.cache - {id})
      case SetTier(id, tier) => st.(cache := st.cache[id := st.cache[id].(tier := tier)])
      case AlertsNow(alerts) => st.(alerts := alerts)
      case Enroll(true, row) => st.(edr := st.edr + [row])
      case Enroll(false, row) => st.(collectors := st.collectors + [row])
      case Report(true, row) => st.(edr := Updated(st.edr, row, false))
      case Report(false, row) => st.(collectors := Updated(st.collectors, row, false))
      case Reenroll(row) => st.(collectors := Updated(st.collectors, row, true))
  }

  ghost function Run(st: State, events: seq<Event>): State
    decreases |events|
  {
    if events == [] then st else Run(Step(st, events[0]), events[1..])
  }

  /******* Turns *******/

  /**
   Out of its turn a transaction does nothing: an upsert of a scheduled refresh, a commit of one of the portal, an
   eviction before the last write, or any of a refresh that is not under way; giving up changes no table.
   */
  lemma OutOfTurn(st: State, j: nat, kind: Refresher, now: int, score: Option<real>, outcomes: map<string, real>)
    ensures j !in st.jobs ==> Step(st, UpsertNext(j, score)) == Step(st, Commit(j, outcomes)) == st
    ensures j !in st.jobs ==> Step(st, Evict(j)) == Step(st, Abort(j)) == st
    ensures j in st.jobs ==> Step(st, Load(j, kind, now)) == st
    ensures j in st.jobs && st.jobs[j].kind == Scheduled ==> Step(st, UpsertNext(j, score)) == st
    ensures j in st.jobs && st.jobs[j].kind == Portal ==> Step(st, Commit(j, outcomes)) == st
    ensures j in st.jobs && st.jobs[j].done != |st.jobs[j].agents| ==> Step(st, Evict(j)) == st
    ensures j in st.jobs ==> Step(st, Abort(j)) == st.(jobs := st.jobs - {j})
  {
  }

  // The rows of an agent have new columns, and are removed if they were before, unless it enrols again.
  predicate Written(rows: seq<RegistryRow>, rows': seq<RegistryRow>, row: RegistryRow, again: bool) {
    && |rows'| == |rows|
    && forall i | 0 <= i < |rows| ::
         && (rows[i].id != row.id ==> rows'[i] == rows[i])
         && (rows[i].id == row.id ==>
               && rows'[i].id == row.id && rows'[i].hostname == row.hostname && rows'[i].ip == row.ip
               && rows'[i].osType == row.osType && rows'[i].lastSeen == row.lastSeen
               && (rows'[i].removed <==> rows[i].removed && !again))
  }

  /** What an agent sends changes the rows of its id in its own registry, and nothing else. */
  lemma ReportIs(st: State, row: RegistryRow)
    ensures var next := Step(st, Report(true, row));
            Written(st.edr, next.edr, row, false) && next == st.(edr := next.edr)
    ensures var next := Step(st, Report(false, row));
            Written(st.collectors, next.collectors, row, false) && next == st.(collectors := next.collectors)
    ensures var next := Step(st, Reenroll(row));
            Written(st.collectors, next.collectors, row, true) && next == st.(collectors := next.collectors)
    ensures Step(st, Enroll(true, row)) == st.(edr := st.edr + [row])
    ensures Step(st, Enroll(false, row)) == st.(collectors := st.collectors + [row])
  {
  }

  /** A tier from 1 to 3 is set on a host that has a row, and changes nothing else; any other request does nothing. */
  lemma TierIsSetIff(st: State, id: string, tier: int)
    ensures 1 <= tier <= 3 && id in st.cache ==>
              Step(st, SetTier(id, tier)) == st.(cache := st.cache[id := st.cache[id].(tier := tier)])
    ensures !(1 <= tier <= 3 && id in st.cache) ==> Step(st, SetTier(id, tier)) == st
  {
  }

  /******* Hosts that are gone *******/

  // Nothing in the tables or in a running refresh can still produce a row for `id`.
  ghost predicate Gone(st: State, id: string) {
    && id !in st.cache
    && !Registered(id, st.edr, st.collectors)
    && forall j | j in st.jobs :: id !in Ids(Pending(st.jobs[j]))
  }

  predicate Alerted(st: State, id: string) {
    exists r | r in st.alerts :: r.id == id
  }

  // A new row of `id`, or a collector of that id that enrols again.
  predicate Enrols(e: Event, id: string) {
    (e.Enroll? || e.Reenroll?) && e.row.id == id
  }

  predicate LoadsAlerted(st: State, e: Event, id: string) {
    e.Load? && Enabled(st, e) && Alerted(st, id)
  }

  // Some refresh of the run loads its agents while the alerts window holds `id`.
  ghost predicate SomeLoadAlerted(st: State, events: seq<Event>, id: string)
    decreases |events|
  {
    events != [] && (LoadsAlerted(st, events[0], id) || SomeLoadAlerted(Step(st, events[0]), events[1..], id))
  }

  lemma ListedWereThere(kind: Refresher, s: seq<Agent>)
    requires DistinctIds(s)
    ensures DistinctIds(Listed(kind, s)) && forall a | a in Listed(kind, s) :: a in s
  {
    ChampionsAreWinners(s, StemKey);
    ChampionsAreWinners(Champions(s, StemKey), IpKey);
  }

  lemma LoadedIds(st: State, kind: Refresher, now: int)
    ensures DistinctIds(Loaded(st, kind, now))
  {
    MergedIds(st.alerts, st.edr, st.collectors, now);
    ListedWereThere(kind, Merged(st.alerts, st.edr, st.collectors, now));
  }

  /** Whoever a refresh of either kind loads is enrolled or has an alert in the window. */
  lemma LoadedIsKnown(st: State, kind: Refresher, now: int, id: string)
    requires id in Ids(Loaded(st, kind, now))
    ensures Registered(id, st.edr, st.collectors) || Alerted(st, id)
  {
    var s := Merged(st.alerts, st.edr, st.collectors, now);
    var a :| a in Listed(kind, s) && a.id == id;
    MergedIds(st.alerts, st.edr, st.collectors, now);
    ListedWereThere(kind, s);
    UnregisteredIsBare(st.alerts, st.edr, st.collectors, now, a);
    if !Registered(id, st.edr, st.collectors) {
      var k :| 0 <= k < |st.alerts| && GhostEntries(st.alerts)[k] == a;
      assert st.alerts[k] in st.alerts;
    }
  }

  predicate Live(rows: seq<RegistryRow>, id: string) {
    exists r | r in rows :: r.id == id && !r.removed
  }

  lemma RegisteredIsLive(id: string, edr: seq<RegistryRow>, collectors: seq<RegistryRow>)
    ensures Registered(id, edr, collectors) <==> Live(edr, id) || Live(collectors, id)
  {
    if r :| r in edr && r.id == id && !r.removed { assert r in Enrolled(edr) + Enrolled(collectors); }
    if r :| r in collectors && r.id == id && !r.removed { assert r in Enrolled(edr) + Enrolled(collectors); }
  }

  lemma MarkedIsLive(rows: seq<RegistryRow>, d: string, id: string)
    ensures Live(MarkRemoved(rows, d), id) <==> id != d && Live(rows, id)
  {
    var marked := MarkRemoved(rows, d);
    if r :| r in marked && r.id == id && !r.removed {
      var i :| 0 <= i < |rows| && marked[i] == r;
      assert rows[i] in rows;
    }
    if r :| id != d && r in rows && r.id == id && !r.removed {
      var i :| 0 <= i < |rows| && rows[i] == r;
      assert marked[i] in marked;
    }
  }

  lemma UpdatedIsLive(rows: seq<RegistryRow>, row: RegistryRow, revive: bool, id: string)
    ensures Live(Updated(rows, row, revive), id) <==>
            Live(rows, id) || (revive && id == row.id && HasRow(rows, id))
  {
    var updated := Updated(rows, row, revive);
    if r :| r in updated && r.id == id && !r.removed {
      var i :| 0 <= i < |rows| && updated[i] == r;
      assert rows[i] in rows;
    }
    if r :| r in rows && r.id == id && (!r.removed || (revive && id == row.id)) {
      var i :| 0 <= i < |rows| && rows[i] == r;
      assert updated[i] in updated;
    }
  }

  lemma AppendedIsLive(rows: seq<RegistryRow>, row: RegistryRow, id: string)
    ensures Live(rows + [row], id) <==> Live(rows, id) || (row.id == id && !row.removed)
  {
    assert row in rows + [row];
    assert forall r :: r in rows + [row] <==> r in rows || r == row;
  }

  lemma EdrAfter(st: State, e: Event, id: string)
    requires Enabled(st, e)
    ensures Live(Step(st, e).edr, id) <==>
            (e.Enroll? && e.edr && e.row.id == id && !e.row.removed) || (e != Delete(id) && Live(st.edr, id))
  {
    match e
    case Delete(d) => MarkedIsLive(st.edr, d, id);
    case Report(true, row) => UpdatedIsLive(st.edr, row, false, id);
    case Enroll(true, row) => AppendedIsLive(st.edr, row, id);
    case _ =>
  }

  lemma CollectorsAfter(st: State, e: Event, id: string)
    requires Enabled(st, e)
    ensures Live(Step(st, e).collectors, id) <==>
            || (e.Enroll? && !e.edr && e.row.id == id && !e.row.removed)
            || (e.Reenroll? && e.row.id == id && HasRow(st.collectors, id))
            || (e != Delete(id) && Live(st.collectors, id))
  {
    match e
    case Delete(d) => MarkedIsLive(st.collectors, d, id);
    case Report(false, row) => UpdatedIsLive(st.collectors, row, false, id);
    case Reenroll(row) => UpdatedIsLive(st.collectors, row, true, id);
    case Enroll(false, row) => AppendedIsLive(st.collectors, row, id);
    case _ =>
  }

  /**
   A host is registered after a step if it enrols, or a collector of that id enrols again, or it was registered and
   is not the one deleted. Nothing that an agent sends to the row of a removed host brings it back.
   */
  lemma RegisteredAfter(st: State, e: Event, id: string)
    requires Enabled(st, e)
    ensures Registered(id, Step(st, e).edr, Step(st, e).collectors) <==>
            || (e.Enroll? && e.row.id == id && !e.row.removed)
            || (e.Reenroll? && e.row.id == id && HasRow(st.collectors, id))
            || (e != Delete(id) && Registered(id, st.edr, st.collectors))
  {
    var next := Step(st, e);
    EdrAfter(st, e, id);
    CollectorsAfter(st, e, id);
    RegisteredIsLive(id, st.edr, st.collectors);
    RegisteredIsLive(id, next.edr, next.collectors);
  }

  lemma PendingShrinks(job: Job)
    requires job.done < |job.agents|
    ensures Pending(job)[0] == job.agents[job.done]
    ensures Pending(job.(done := job.done + 1)) == Pending(job)[1..]
    ensures Ids(Pending(job)) == Ids(Pending(job)[1..]) + {job.agents[job.done].id}
  {
    var rest := Pending(job);
    assert rest == [rest[0]] + rest[1..];
  }

  lemma {:induction false} UpsertedOthers(cache: Cache, agents: seq<Agent>, outcomes: map<string, real>, id: string)
    requires id !in Ids(agents)
    ensures id in UpsertedAll(cache, agents, outcomes) <==> id in cache
  {
    if agents != [] {
      assert agents[|agents| - 1] in agents;
      UpsertedOthers(cache, agents[..|agents| - 1], outcomes, id);
    }
  }

  lemma JobsStep(st: State, e: Event, id: string)
    requires Gone(st, id) && !LoadsAlerted(st, e, id)
    ensures forall j | j in Step(st, e).jobs :: id !in Ids(Pending(Step(st, e).jobs[j]))
  {
    if Enabled(st, e) {
      match e
      case Load(_, kind, now) => LoadedIsFree(st, kind, now, id);
      case UpsertNext(j, _) => PendingShrinks(st.jobs[j]);
      case _ =>
    }
  }

  lemma LoadedIsFree(st: State, kind: Refresher, now: int, id: string)
    requires !Registered(id, st.edr, st.collectors) && !Alerted(st, id)
    ensures id !in Ids(Pending(Job(kind, Loaded(st, kind, now), 0)))
  {
    assert Pending(Job(kind, Loaded(st, kind, now), 0)) == Loaded(st, kind, now);
    if id in Ids(Loaded(st, kind, now)) { LoadedIsKnown(st, kind, now, id); }
  }

  lemma CacheStep(st: State, e: Event, id: string)
    requires Gone(st, id)
    ensures id !in Step(st, e).cache
  {
    if Enabled(st, e) {
      match e
      case UpsertNext(j, _) => PendingShrinks(st.jobs[j]);
      case Commit(j, outcomes) => UpsertedOthers(st.cache, Pending(st.jobs[j]), outcomes, id);
      case _ =>
    }
  }

  lemma GoneStays(st: State, e: Event, id: string)
    requires Gone(st, id) && !Enrols(e, id) && !LoadsAlerted(st, e, id)
    ensures Gone(Step(st, e), id)
  {
    if Enabled(st, e) { RegisteredAfter(st, e, id); }
    JobsStep(st, e, id);
    CacheStep(st, e, id);
  }

  /** A host is gone after its deletion unless a running refresh has yet to write it. */
  lemma DeletionMakesGone(st: State, id: string)
    requires id != RESERVED_ID && forall j | j in st.jobs :: id !in Ids(Pending(st.jobs[j]))
    ensures Gone(Step(st, Delete(id)), id)
  {
    RegisteredAfter(st, Delete(id), id);
  }

  /**
   A host that is gone comes back, in whatever run, only by enrolling, or through an alert in the window when a
   refresh loads.
   */
  lemma {:induction false} ReturnsOnlyIfAlertedOrEnrolled(st: State, events: seq<Event>, id: string)
    requires Gone(st, id) && id in Run(st, events).cache
    ensures SomeLoadAlerted(st, events, id) || exists e | e in events :: Enrols(e, id)
    decreases |events|
  {
    if !LoadsAlerted(st, events[0], id) && !Enrols(events[0], id) {
      GoneStays(st, events[0], id);
      ReturnsOnlyIfAlertedOrEnrolled(Step(st, events[0]), events[1..], id);
    }
  }

  /** So a deleted host stays away until then, unless a refresh under way at its deletion has yet to write it. */
  lemma DeletedReturnsOnlyIfAlertedOrEnrolled(st: State, events: seq<Event>, id: string)
    requires id != RESERVED_ID && forall j | j in st.jobs :: id !in Ids(Pending(st.jobs[j]))
    requires id in Run(Step(st, Delete(id)), events).cache
    ensures SomeLoadAlerted(Step(st, Delete(id)), events, id) || exists e | e in events :: Enrols(e, id)
  {
    DeletionMakesGone(st, id);
    ReturnsOnlyIfAlertedOrEnrolled(Step(st, Delete(id)), events, id);
  }

  /** The host with the reserved id cannot be deleted, and any other one leaves both registries and the cache. */
  lemma DeletedIff(st: State, id: string)
    ensures id == "000" ==> Step(st, Delete(id)) == st
    ensures id != "000" ==>
              var next := Step(st, Delete(id));
              id !in next.cache && !Registered(id, next.edr, next.collectors) && next.alerts == st.alerts
  {
    if id != "000" { RegisteredAfter(st, Delete(id), id); }
  }

  /******* Alerts of hosts that are gone *******/

  lemma LatestAlert(alerts: seq<AlertRow>, id: string) returns (a: Agent)
    requires exists r | r in alerts :: r.id == id
    ensures Latest(GhostEntries(alerts), id) == Some(a) && a.id == id && Bare(a)
  {
    var ghosts := GhostEntries(alerts);
    var i :| 0 <= i < |alerts| && alerts[i].id == id;
    assert ghosts[i] in ghosts && ghosts[i].id == id;
    a := Latest(ghosts, id).value;
    var k :| 0 <= k < |ghosts| && ghosts[k] == a;
  }

  lemma MergedAlert(st: State, now: int, id: string) returns (a: Agent)
    requires !Registered(id, st.edr, st.collectors) && Alerted(st, id)
    ensures a in Merged(st.alerts, st.edr, st.collectors, now) && a.id == id && Bare(a)
  {
    a := LatestAlert(st.alerts, id);
    var ghosts := PutAll([], GhostEntries(st.alerts));
    PutAllContents([], GhostEntries(st.alerts));
    assert a in ghosts;
    KnownIds(st.edr, st.collectors, now, id);
    PutAllContents(ghosts, RegistryEntries(Enrolled(st.edr) + Enrolled(st.collectors), now));
  }

  /** A host with an alert in the window and no live registry row is on the list of every scheduled refresh. */
  lemma AlertedIsListed(st: State, id: string, now: int) returns (i: nat)
    requires Gone(st, id) && Alerted(st, id)
    ensures i < |Loaded(st, Scheduled, now)| && Loaded(st, Scheduled, now)[i].id == id
  {
    var s := Merged(st.alerts, st.edr, st.collectors, now);
    var a := MergedAlert(st, now, id);
    MergedIds(st.alerts, st.edr, st.collectors, now);
    NoPlatformNoStem(a);
    KeylessSurvives(s, StemKey, a);
    i :| 0 <= i < |Champions(s, StemKey)| && Champions(s, StemKey)[i] == a;
  }

  /** So any such host, its posture computed, is back with the next scheduled refresh. */
  lemma AlertedHostReturnsWhenScheduled(st: State, j: nat, id: string, now: int, outcomes: map<string, real>)
    requires j !in st.jobs && Gone(st, id) && Alerted(st, id)
    ensures id in Run(st, Whole(st, j, Scheduled, now, outcomes)).cache <==> id in outcomes
  {
    var i := AlertedIsListed(st, id, now);
    var agents := Loaded(st, Scheduled, now);
    LoadedIds(st, Scheduled, now);
    UninterruptedRefresh(st, j, Scheduled, now, outcomes);
    assert agents[i] in agents && id in Ids(agents);
    RefreshedRows(st.cache, agents, outcomes, id);
  }

  lemma SurvivesIffWins(t: seq<Agent>, i: nat)
    requires DistinctIds(t) && i < |t|
    ensures t[i].id in Ids(Champions(t, IpKey)) <==> Wins(t, IpKey, i)
    ensures Champions(t, IpKey) != [] && DistinctIds(Champions(t, IpKey))
  {
    ChampionsAreWinners(t, IpKey);
    var w := Represented(t, IpKey, t[i]);
    if Wins(t, IpKey, i) { assert t[i] in Champions(t, IpKey); }
    if t[i].id in Ids(Champions(t, IpKey)) {
      var b :| b in Champions(t, IpKey) && b.id == t[i].id;
      var k :| 0 <= k < |t| && t[k] == b && Wins(t, IpKey, k);
    }
  }

  /**
   And with the next refresh of the portal exactly if, at its address, the second pass meets nobody with a platform
   or a keepalive, and nobody before it.
   */
  lemma AlertedHostReturnsIff(st: State, j: nat, id: string, now: int, outcomes: map<string, real>, i: nat)
    requires j !in st.jobs && Gone(st, id) && id in outcomes
    requires i < |Loaded(st, Scheduled, now)| && Loaded(st, Scheduled, now)[i].id == id
    ensures var t := Loaded(st, Scheduled, now);
            id in Run(st, Whole(st, j, Portal, now, outcomes)).cache <==>
            forall k | 0 <= k < |t| && Rivals(IpKey, t[i], t[k]) :: Bare(t[k]) && i <= k
  {
    var t := Loaded(st, Scheduled, now);
    LoadedIds(st, Scheduled, now);
    SurvivesIffWins(t, i);
    UninterruptedRefresh(st, j, Portal, now, outcomes);
    RefreshedRows(st.cache, Champions(t, IpKey), outcomes, id);
    GhostKeepsAddressIff(st.alerts, st.edr, st.collectors, now, i);
  }

  /******* Refreshes that nothing interrupts *******/

  function Upserts(j: nat, agents: seq<Agent>, outcomes: map<string, real>): seq<Event> {
    if agents == [] then []
    else
      var init, last := agents[..|agents| - 1], agents[|agents| - 1];
      Upserts(j, init, outcomes) + [UpsertNext(j, Outcome(outcomes, last.id))]
  }

  /** What is left of the writes of a refresh. */
  function Writes(j: nat, job: Job, outcomes: map<string, real>): seq<Event> {
    if job.kind.Portal? then Upserts(j, Pending(job), outcomes) else [Commit(j, outcomes)]
  }

  ghost function Whole(st: State, j: nat, kind: Refresher, now: int, outcomes: map<string, real>): seq<Event> {
    [Load(j, kind, now)] + (Writes(j, Job(kind, Loaded(st, kind, now), 0), outcomes) + [Evict(j)])
  }

  lemma {:induction false} RunAppend(st: State, events: seq<Event>, e: Event)
    ensures Run(st, events + [e]) == Step(Run(st, events), e)
    decreases |events|
  {
    if events == [] {
      assert [e][1..] == [];
      assert Run(st, [e]) == Run(Step(st, e), []);
      assert events + [e] == [e];
    } else {
      assert (events + [e])[1..] == events[1..] + [e];
      RunAppend(Step(st, events[0]), events[1..], e);
    }
  }

  lemma RunFrom(st: State, e: Event, events: seq<Event>)
    ensures Run(st, [e] + events) == Run(Step(st, e), events)
  {
    assert ([e] + events)[1..] == events;
  }

  lemma {:induction false} UpsertsRun(st: State, j: nat, job: Job, outcomes: map<string, real>, n: nat)
    requires j in st.jobs && st.jobs[j] == job && job.kind.Portal? && n <= |Pending(job)|
    requires job.done <= |job.agents|
    ensures Run(st, Upserts(j, Pending(job)[..n], outcomes)) == Upserting(st, j, job, outcomes, n)
  {
    var rest := Pending(job);
    if n == 0 {
      assert st.jobs[j := job] == st.jobs;
    } else {
      UpsertsRun(st, j, job, outcomes, n - 1);
      assert rest[..n][..n - 1] == rest[..n - 1];
      RunAppend(st, Upserts(j, rest[..n - 1], outcomes), UpsertNext(j, Outcome(outcomes, rest[n - 1].id)));
      UpsertingNext(st, j, job, outcomes, n - 1);
    }
  }

  // The state after the next `n` upserts of a refresh.
  function Upserting(st: State, j: nat, job: Job, outcomes: map<string, real>, n: nat): State
    requires n <= |Pending(job)|
  {
    st.(cache := UpsertedAll(st.cache, Pending(job)[..n], outcomes),
        jobs := st.jobs[j := job.(done := job.done + n)])
  }

  lemma UpsertingNext(st: State, j: nat, job: Job, outcomes: map<string, real>, n: nat)
    requires job.kind.Portal? && job.done <= |job.agents| && n < |Pending(job)|
    ensures Step(Upserting(st, j, job, outcomes, n), UpsertNext(j, Outcome(outcomes, Pending(job)[n].id)))
            == Upserting(st, j, job, outcomes, n + 1)
  {
    var rest := Pending(job);
    assert rest[..n + 1][..n] == rest[..n] && rest[n] == job.agents[job.done + n];
  }

  /** The writes of a running refresh of either kind, from where it is. */
  lemma WritesRun(st: State, j: nat, job: Job, outcomes: map<string, real>)
    requires j in st.jobs && st.jobs[j] == job && job.done <= |job.agents|
    ensures Run(st, Writes(j, job, outcomes)) ==
            st.(cache := UpsertedAll(st.cache, Pending(job), outcomes),
                jobs := st.jobs[j := job.(done := |job.agents|)])
  {
    var rest := Pending(job);
    if job.kind.Portal? {
      UpsertsRun(st, j, job, outcomes, |rest|);
      assert rest[..|rest|] == rest;
    } else {
      RunFrom(st, Commit(j, outcomes), []);
      assert [Commit(j, outcomes)] + [] == [Commit(j, outcomes)];
      if job.done == |job.agents| { assert st.jobs[j := job] == st.jobs; }
    }
  }

  /** A running refresh that goes on uninterrupted, from where it is to its end. */
  lemma RestRun(st: State, j: nat, job: Job, outcomes: map<string, real>)
    requires j in st.jobs && st.jobs[j] == job && job.done <= |job.agents|
    ensures Run(st, Writes(j, job, outcomes) + [Evict(j)]) ==
            st.(cache := Evicted(UpsertedAll(st.cache, Pending(job), outcomes), job.agents), jobs := st.jobs - {j})
  {
    WritesRun(st, j, job, outcomes);
    RunAppend(st, Writes(j, job, outcomes), Evict(j));
    assert st.jobs[j := job.(done := |job.agents|)] - {j} == st.jobs - {j};
  }

  /** Uninterrupted, the transactions of a refresh have the effect of the whole method of its kind. */
  lemma UninterruptedRefresh(st: State, j: nat, kind: Refresher, now: int, outcomes: map<string, real>)
    requires j !in st.jobs && Loaded(st, kind, now) != []
    ensures var agents := Loaded(st, kind, now);
            Run(st, Whole(st, j, kind, now, outcomes))
            == st.(cache := Evicted(UpsertedAll(st.cache, agents, outcomes), agents))
  {
    var agents := Loaded(st, kind, now);
    var job := Job(kind, agents, 0);
    assert Pending(job) == agents;
    RestRun(st.(jobs := st.jobs[j := job]), j, job, outcomes);
    RunFrom(st, Load(j, kind, now), Writes(j, job, outcomes) + [Evict(j)]);
    assert st.jobs[j := job] - {j} == st.jobs;
  }

  // With nobody to load, no transaction of the refresh is in its turn.
  lemma NobodyToLoad(st: State, j: nat, kind: Refresher, now: int, outcomes: map<string, real>)
    requires j !in st.jobs && Loaded(st, kind, now) == []
    ensures Run(st, Whole(st, j, kind, now, outcomes)) == st
  {
    var writes := Writes(j, Job(kind, [], 0), outcomes);
    assert Step(st, Load(j, kind, now)) == st;
    RunFrom(st, Load(j, kind, now), writes + [Evict(j)]);
    RunAppend(st, writes, Evict(j));
    NoWrites(st, j, kind, outcomes);
  }

  lemma NoWrites(st: State, j: nat, kind: Refresher, outcomes: map<string, real>)
    requires j !in st.jobs
    ensures Run(st, Writes(j, Job(kind, [], 0), outcomes)) == st
  {
    if kind.Scheduled? {
      RunAppend(st, [], Commit(j, outcomes));
      assert [] + [Commit(j, outcomes)] == [Commit(j, outcomes)];
    }
  }

  /** So they do for any tables, also when there is nobody to load. */
  lemma WholeIsRefreshed(st: State, j: nat, kind: Refresher, now: int, outcomes: map<string, real>)
    requires j !in st.jobs
    ensures Run(st, Whole(st, j, kind, now, outcomes))
            == st.(cache := Refreshed(kind, st.alerts, st.edr, st.collectors, st.cache, now, outcomes))
  {
    if Loaded(st, kind, now) == [] {
      NobodyToLoad(st, j, kind, now, outcomes);
    } else {
      UninterruptedRefresh(st, j, kind, now, outcomes);
    }
  }

  /******* Deletions while a refresh runs *******/

  lemma PendingIds(job: Job)
    requires DistinctIds(job.agents)
    ensures DistinctIds(Pending(job)) && Ids(Pending(job)) <= Ids(job.agents)
  {
  }

  lemma {:induction false} NothingLoadsIn(st: State, events: seq<Event>, id: string)
    requires forall e | e in events :: !e.Load?
    ensures !SomeLoadAlerted(st, events, id)
    decreases |events|
  {
    if events != [] {
      NothingLoadsIn(Step(st, events[0]), events[1..], id);
    }
  }

  lemma {:induction false} UpsertsLoadNothing(j: nat, agents: seq<Agent>, outcomes: map<string, real>)
    ensures forall e | e in Upserts(j, agents, outcomes) :: !e.Load?
  {
    if agents != [] { UpsertsLoadNothing(j, agents[..|agents| - 1], outcomes); }
  }

  /** What every refresh under way keeps: a list of distinct agents, and a place on it. */
  ghost predicate JobsAreSound(st: State) {
    forall j | j in st.jobs :: DistinctIds(st.jobs[j].agents) && st.jobs[j].done <= |st.jobs[j].agents|
  }

  lemma SoundStep(st: State, e: Event)
    requires JobsAreSound(st)
    ensures JobsAreSound(Step(st, e))
  {
    if Enabled(st, e) {
      match e
      case Load(_, kind, now) => LoadedIds(st, kind, now);
      case _ =>
    }
  }

  lemma {:induction false} JobsStaySound(st: State, events: seq<Event>)
    requires JobsAreSound(st)
    ensures JobsAreSound(Run(st, events))
    decreases |events|
  {
    if events != [] {
      SoundStep(st, events[0]);
      JobsStaySound(Step(st, events[0]), events[1..]);
    }
  }

  /**
   Deleted while a refresh runs, a host is back when the refresh ends exactly if the refresh had yet to write it and
   computes its posture: with no alert at all, and past the eviction.
   */
  lemma DeletedDuringRefreshReturnsIff(st: State, j: nat, id: string, outcomes: map<string, real>)
    requires j in st.jobs && JobsAreSound(st) && id != RESERVED_ID
    ensures var job := st.jobs[j];
            var events := [Delete(id)] + (Writes(j, job, outcomes) + [Evict(j)]);
            && (id in Run(st, events).cache <==> id in Ids(Pending(job)) && id in outcomes)
            && !SomeLoadAlerted(st, events, id)
  {
    var job, after := st.jobs[j], Step(st, Delete(id));
    var writes := Writes(j, job, outcomes);
    PendingIds(job);
    RestRun(after, j, job, outcomes);
    RunFrom(st, Delete(id), writes + [Evict(j)]);
    UpsertedAllAt(after.cache, Pending(job), outcomes, id);
    if job.kind.Portal? { UpsertsLoadNothing(j, Pending(job), outcomes); }
    NothingLoadsIn(st, [Delete(id)] + (writes + [Evict(j)]), id);
  }

  /******* Evictions and tiers over runs *******/

  /** The list a refresh works on is fixed when it loads. */
  lemma {:induction false} JobKeepsItsAgents(st: State, j: nat, events: seq<Event>)
    requires j in st.jobs && Evict(j) !in events && Abort(j) !in events
    ensures j in Run(st, events).jobs && Run(st, events).jobs[j].agents == st.jobs[j].agents
    decreases |events|
  {
    if events != [] {
      assert events[0] != Evict(j) && events[0] != Abort(j);
      JobKeepsItsAgents(Step(st, events[0]), j, events[1..]);
    }
  }

  /**
   When a refresh ends, every row belongs to an agent on its list, whatever ran in between, other refreshes
   included.
   */
  lemma RefreshLeavesSurvivorsOnly(st: State, j: nat, kind: Refresher, now: int, between: seq<Event>)
    requires j !in st.jobs && Loaded(st, kind, now) != [] && Evict(j) !in between && Abort(j) !in between
    requires Enabled(Run(Step(st, Load(j, kind, now)), between), Evict(j))
    ensures Run(st, [Load(j, kind, now)] + between + [Evict(j)]).cache.Keys <= Ids(Loaded(st, kind, now))
  {
    JobKeepsItsAgents(Step(st, Load(j, kind, now)), j, between);
    RunFrom(st, Load(j, kind, now), between);
    RunAppend(st, [Load(j, kind, now)] + between, Evict(j));
  }

  /** So a deleted host is away at the latest when a refresh ends that loaded after the deletion and saw no alert. */
  lemma NextRefreshRemovesIt(st: State, j: nat, kind: Refresher, now: int, between: seq<Event>, id: string)
    requires !Registered(id, st.edr, st.collectors) && !Alerted(st, id)
    requires j !in st.jobs && Loaded(st, kind, now) != [] && Evict(j) !in between && Abort(j) !in between
    requires Enabled(Run(Step(st, Load(j, kind, now)), between), Evict(j))
    ensures id !in Run(st, [Load(j, kind, now)] + between + [Evict(j)]).cache
  {
    RefreshLeavesSurvivorsOnly(st, j, kind, now, between);
    if id in Ids(Loaded(st, kind, now)) { LoadedIsKnown(st, kind, now, id); }
  }

  // The event deletes the row of `id`, evicts it, or sets its tier.
  predicate Disturbs(st: State, e: Event, id: string) {
    || e == Delete(id)
    || (e.SetTier? && e.id == id)
    || (e.Evict? && Enabled(st, e) && id !in Ids(st.jobs[e.job].agents))
  }

  ghost predicate Undisturbed(st: State, events: seq<Event>, id: string)
    decreases |events|
  {
    events == [] || (!Disturbs(st, events[0], id) && Undisturbed(Step(st, events[0]), events[1..], id))
  }

  lemma {:induction false} UpsertsKeepTier(cache: Cache, agents: seq<Agent>, outcomes: map<string, real>, id: string)
    requires id in cache
    ensures var after := UpsertedAll(cache, agents, outcomes); id in after && after[id].tier == cache[id].tier
  {
    if agents != [] { UpsertsKeepTier(cache, agents[..|agents| - 1], outcomes, id); }
  }

  /** Refreshing never changes the tier of a row that it does not evict, also when the posture fails. */
  lemma {:induction false} TierIsKept(st: State, events: seq<Event>, id: string)
    requires id in st.cache && Undisturbed(st, events, id)
    ensures id in Run(st, events).cache && Run(st, events).cache[id].tier == st.cache[id].tier
    decreases |events|
  {
    if events != [] {
      var e, next := events[0], Step(st, events[0]);
      if e.Commit? && Enabled(st, e) { UpsertsKeepTier(st.cache, Pending(st.jobs[e.job]), e.outcomes, id); }
      assert id in next.cache && next.cache[id].tier == st.cache[id].tier;
      TierIsKept(next, events[1..], id);
    }
  }

  lemma LoadsSomeone(st: State, now: int, now': int)
    requires Loaded(st, Scheduled, now') != []
    ensures Loaded(st, Portal, now) != []
  {
    var id := Loaded(st, Scheduled, now')[0].id;
    var s := Merged(st.alerts, st.edr, st.collectors, now);
    LoadedIsKnown(st, Scheduled, now', id);
    MergedIds(st.alerts, st.edr, st.collectors, now);
    if Registered(id, st.edr, st.collectors) {
      var known := RegistryEntries(Enrolled(st.edr) + Enrolled(st.collectors), now);
      KnownIds(st.edr, st.collectors, now, id);
      PutAllContents([], GhostEntries(st.alerts));
      PutAllContents(PutAll([], GhostEntries(st.alerts)), known);
      assert Latest(known, id).value in s;
    } else {
      var a := MergedAlert(st, now, id);
    }
    ChampionsAreWinners(s, StemKey);
    var m, w := TwoLinks(s, s[0]);
  }

  /**
   The two refreshers disagree on hosts that only the scheduled one lists. When a refresh of the portal and then a
   scheduled one find the same tables, such a host ends with a row of the default tier, whatever its tier was.
   */
  lemma AlternationResetsTier(st: State, j: nat, now: int, now': int,
                              outcomes: map<string, real>, outcomes': map<string, real>, id: string)
    requires j !in st.jobs && id in Ids(Loaded(st, Scheduled, now')) && id in outcomes'
    ensures var between := Run(st, Whole(st, j, Portal, now, outcomes));
            var cache := Run(between, Whole(between, j, Scheduled, now', outcomes')).cache;
            && id in cache
            && cache[id].tier == if id in st.cache && id in Ids(Loaded(st, Portal, now)) then st.cache[id].tier
                                 else DEFAULT_TIER
  {
    LoadsSomeone(st, now, now');
    var first, second := Loaded(st, Portal, now), Loaded(st, Scheduled, now');
    LoadedIds(st, Portal, now);
    LoadedIds(st, Scheduled, now');
    UninterruptedRefresh(st, j, Portal, now, outcomes);
    var between := Run(st, Whole(st, j, Portal, now, outcomes));
    UninterruptedRefresh(between, j, Scheduled, now', outcomes');
    RefreshedRows(st.cache, first, outcomes, id);
    RefreshedRows(between.cache, second, outcomes', id);
  }
}
