/** What every saved store satisfies, however scans and API calls interleave, and what a scan does to it. */
module AssetTheorems {
  import opened Options
  import opened AssetLifecycle
  import Text

  datatype Op =
    | Scan(primary: string, subdomains: seq<string>, now: int)
    | Transition(id: string, to: AssetState, comment: string, now: int)
    | SetBaseline(hosts: seq<string>, comment: string, now: int)
    | RemoveFromBaseline(id: string, now: int)

  function Detected(op: Op): set<string>
    requires op.Scan?
  {
    {op.primary} + Elements(op.subdomains)
  }

  /** The operation gets as far as saving. */
  predicate Accepted(store: Store, op: Op) {
    match op
    case Transition(id, to, _, _) => Allowed(if id in store.assets then store.assets[id].state else New, to)
    case RemoveFromBaseline(id, _) => id in store.baseline
    case _ => true
  }

  function After(store: Store, op: Op): Store
    requires Accepted(store, op)
  {
    match op
    case Scan(_, _, now) => Scanned(store, Detected(op), now)
    case Transition(id, to, comment, now) => Transitioned(store, id, to, comment, now)
    case SetBaseline(hosts, comment, now) => Rebaselined(store, hosts, comment, now)
    case RemoveFromBaseline(id, now) => Unlisted(store, id, now)
  }

  /******* The audit chain *******/

  /** The log tells the whole story of the entry: from New, move by move, to its present state. */
  predicate Chained(e: Entry) {
    && (e.log == [] ==> e.state == New)
    && (e.log != [] ==> e.log[0].from == New && e.log[|e.log| - 1].to == e.state)
    && forall i | 0 < i < |e.log| :: e.log[i].from == e.log[i - 1].to
  }

  /** The moves that can be logged: the table's, and three more. */
  predicate Legitimate(l: LogEntry) {
    match l.action
    case AutoBaselined => l.from == New && l.to == Baseline
    case AutoDropped => l.from == Baseline && l.to == Dropped
    case StateChange => Allowed(l.from, l.to) || (l.to == New && l.from in {Baseline, New})
  }

  predicate GoodEntry(e: Entry) {
    Chained(e) && forall l | l in e.log :: Legitimate(l)
  }

  predicate Listed(store: Store) {
    forall h | h in store.baseline :: h in store.assets
  }

  predicate Distinct(xs: seq<string>) {
    forall i, j | 0 <= i < j < |xs| :: xs[i] != xs[j]
  }

  predicate Sound(store: Store) {
    Distinct(store.baseline) && Listed(store) && forall h | h in store.assets :: GoodEntry(store.assets[h])
  }

  lemma MovedIsGood(e: Entry, action: Action, to: AssetState, comment: string, now: int)
    requires GoodEntry(e) && Legitimate(LogEntry(action, e.state, to, comment, now))
    ensures GoodEntry(Moved(e, action, to, comment, now))
  {
  }

  lemma ScannedIsSound(store: Store, detected: set<string>, now: int)
    requires Sound(store)
    ensures Sound(Scanned(store, detected, now))
  {
    var after := Scanned(store, detected, now);
    forall h | h in after.assets ensures GoodEntry(after.assets[h]) {
      if h !in detected && Drops(store, detected, h) {
        MovedIsGood(store.assets[h], AutoDropped, Dropped, NOT_DETECTED, now);
      }
    }
  }

  lemma TransitionedIsSound(store: Store, id: string, to: AssetState, comment: string, now: int)
    requires Sound(store) && Accepted(store, Transition(id, to, comment, now))
    ensures Sound(Transitioned(store, id, to, comment, now))
  {
  }

  /** Here the baseline list must be contained in the records: the default entry would break the chain. */
  lemma DemotedIsGood(store: Store, host: string, comment: string, now: int)
    requires Sound(store) && host in store.baseline
    ensures GoodEntry(Demoted(store.assets, host, comment, now))
  {
  }

  lemma RebaselinedIsSound(store: Store, hosts: seq<string>, comment: string, now: int)
    requires Sound(store)
    ensures Sound(Rebaselined(store, hosts, comment, now))
  {
    var after := Rebaselined(store, hosts, comment, now);
    Text.SortedSetIsAscending(hosts);
    forall i, j | 0 <= i < j < |after.baseline| ensures after.baseline[i] != after.baseline[j] {
      Text.BelowIsTotal(after.baseline[i], after.baseline[i]);
    }
    forall h | h in after.assets ensures GoodEntry(after.assets[h]) {
      if h in hosts {
        var e := if h in store.assets then store.assets[h] else Entry(New, Some(now), None, []);
        if e.state != Baseline {
          MovedIsGood(e, StateChange, Baseline, comment, now);
        }
      } else if h in store.baseline {
        DemotedIsGood(store, h, REMOVED + ": " + comment, now);
      }
    }
  }

  lemma {:induction false} RemoveFirstContents(xs: seq<string>, x: string)
    requires Distinct(xs)
    ensures Distinct(RemoveFirst(xs, x))
    ensures forall y :: y in RemoveFirst(xs, x) <==> y in xs && y != x
  {
    if xs != [] {
      var rest := xs[1..];
      assert forall y :: y in xs <==> y == xs[0] || y in rest;
      assert xs[0] !in rest;
      if xs[0] != x {
        RemoveFirstContents(rest, x);
        var more := RemoveFirst(rest, x);
        forall j | 0 <= j < |more| ensures xs[0] != more[j] { assert more[j] in more; }
      }
    }
  }

  lemma UnlistedIsSound(store: Store, id: string, now: int)
    requires Sound(store) && id in store.baseline
    ensures Sound(Unlisted(store, id, now))
  {
    RemoveFirstContents(store.baseline, id);
    DemotedIsGood(store, id, REMOVED, now);
  }

  lemma AfterIsSound(store: Store, op: Op)
    requires Sound(store) && Accepted(store, op)
    ensures Sound(After(store, op))
  {
    match op
    case Scan(_, _, now) => ScannedIsSound(store, Detected(op), now);
    case Transition(id, to, comment, now) => TransitionedIsSound(store, id, to, comment, now);
    case SetBaseline(hosts, comment, now) => RebaselinedIsSound(store, hosts, comment, now);
    case RemoveFromBaseline(id, now) => UnlistedIsSound(store, id, now);
  }

  /******* Interleaved loads and saves *******/

  /** The saved store, and the copies that running scans and requests have loaded. */
  datatype World = World(disk: Store, copies: map<nat, Store>)

  datatype Event =
    | Load(session: nat)
    | LoadFails(session: nat) // an unreadable file reads as a fresh store
    | Save(session: nat, op: Op)

  function Next(w: World, e: Event): World {
    match e
    case Load(p) => w.(copies := w.copies[p := w.disk])
    case LoadFails(p) => w.(copies := w.copies[p := FRESH_STORE])
    case Save(p, op) =>
      if p in w.copies && Accepted(w.copies[p], op) then
        World(After(w.copies[p], op), w.copies - {p})
      else w
  }

  function Run(w: World, events: seq<Event>): World {
    if events == [] then w else Next(Run(w, events[..|events| - 1]), events[|events| - 1])
  }

  /** Every store ever saved is sound, also when one save overwrites another or a load fails. */
  lemma {:induction false} EverySavedStoreIsSound(w: World, events: seq<Event>)
    requires Sound(w.disk) && forall p | p in w.copies :: Sound(w.copies[p])
    ensures var w' := Run(w, events); Sound(w'.disk) && forall p | p in w'.copies :: Sound(w'.copies[p])
  {
    if events != [] {
      var before, e := Run(w, events[..|events| - 1]), events[|events| - 1];
      EverySavedStoreIsSound(w, events[..|events| - 1]);
      if e.Save? && e.session in before.copies && Accepted(before.copies[e.session], e.op) {
        AfterIsSound(before.copies[e.session], e.op);
      }
    }
  }

  /** In any run from a first use, an asset is in state Dropped only because a scan last moved it there. */
  lemma DroppedByScansOnly(events: seq<Event>, h: string)
    requires var disk := Run(World(FRESH_STORE, map[]), events).disk;
             h in disk.assets && disk.assets[h].state == Dropped
    ensures var log := Run(World(FRESH_STORE, map[]), events).disk.assets[h].log;
            log != [] && log[|log| - 1].action == AutoDropped && log[|log| - 1].from == Baseline
  {
    EverySavedStoreIsSound(World(FRESH_STORE, map[]), events);
    var e := Run(World(FRESH_STORE, map[]), events).disk.assets[h];
    assert e.log[|e.log| - 1] in e.log;
  }

  /** Were a listed host without its record, removing it would break the chain; with the record it never does. */
  lemma ChainNeedsTheRecord(store: Store, id: string, now: int)
    requires forall h | h in store.assets :: GoodEntry(store.assets[h])
    ensures Chained(Unlisted(store, id, now).assets[id]) <==> id in store.assets
  {
  }

  /******* Runs without overlap *******/

  ghost predicate Grows(s: Store, t: Store) {
    forall h | h in s.assets :: h in t.assets && s.assets[h].log <= t.assets[h].log
  }

  function RunOps(s: Store, ops: seq<Op>): Store {
    if ops == [] then s
    else
      var t := RunOps(s, ops[..|ops| - 1]);
      if Accepted(t, ops[|ops| - 1]) then After(t, ops[|ops| - 1]) else t
  }

  /** No operation on the store itself removes a record or cuts a log. */
  lemma {:induction false} OpsGrow(s: Store, ops: seq<Op>)
    ensures Grows(s, RunOps(s, ops))
  {
    if ops != [] {
      var t, op := RunOps(s, ops[..|ops| - 1]), ops[|ops| - 1];
      OpsGrow(s, ops[..|ops| - 1]);
      if Accepted(t, op) {
        assert Grows(t, After(t, op));
      }
    }
  }

  // The save at `k` works on a copy that its session loaded at `j`, with no save since.
  predicate LoadedAt(events: seq<Event>, k: nat, j: nat)
    requires k < |events| && events[k].Save?
  {
    && j < k && events[j] == Load(events[k].session)
    && forall i | j < i < k :: !events[i].Save? && events[i] != LoadFails(events[k].session)
  }

  /** Loads and saves do not overlap: every save follows a successful load of its session with no save in between. */
  ghost predicate NoOverlap(events: seq<Event>) {
    forall k | 0 <= k < |events| && events[k].Save? :: exists j: nat :: LoadedAt(events, k, j)
  }

  function SavedOps(events: seq<Event>): seq<Op> {
    if events == [] then []
    else
      var init, e := events[..|events| - 1], events[|events| - 1];
      if e.Save? then SavedOps(init) + [e.op] else SavedOps(init)
  }

  lemma {:induction false} CopyIsCurrent(w: World, events: seq<Event>, p: nat, j: nat)
    requires j < |events| && events[j] == Load(p)
    requires forall i | j < i < |events| :: !events[i].Save? && events[i] != LoadFails(p)
    ensures p in Run(w, events).copies && Run(w, events).copies[p] == Run(w, events).disk
  {
    if j < |events| - 1 {
      CopyIsCurrent(w, events[..|events| - 1], p, j);
    }
  }

  lemma NoOverlapBefore(events: seq<Event>)
    requires events != [] && NoOverlap(events)
    ensures NoOverlap(events[..|events| - 1])
  {
    var init := events[..|events| - 1];
    forall k | 0 <= k < |init| && init[k].Save? ensures exists j: nat :: LoadedAt(init, k, j) {
      var j: nat :| LoadedAt(events, k, j);
      assert LoadedAt(init, k, j);
    }
  }

  lemma RunOpsNext(s: Store, ops: seq<Op>, op: Op)
    ensures RunOps(s, ops + [op]) == if Accepted(RunOps(s, ops), op) then After(RunOps(s, ops), op) else RunOps(s, ops)
  {
    assert (ops + [op])[..|ops|] == ops;
  }

  /** Without overlap the saves compose: each operation works on the store that the one before it left. */
  lemma {:induction false} SavesCompose(w: World, events: seq<Event>)
    requires NoOverlap(events)
    ensures Run(w, events).disk == RunOps(w.disk, SavedOps(events))
  {
    if events != [] {
      var n := |events| - 1;
      var init, e := events[..n], events[n];
      NoOverlapBefore(events);
      SavesCompose(w, init);
      if e.Save? {
        var j: nat :| LoadedAt(events, n, j);
        CopyIsCurrent(w, init, e.session, j);
        RunOpsNext(w.disk, SavedOps(init), e.op);
      }
    }
  }

  /** So when loads and saves do not overlap, no record is ever removed and no log is ever cut. */
  lemma RecordsAndLogsGrow(w: World, events: seq<Event>)
    requires NoOverlap(events)
    ensures Grows(w.disk, Run(w, events).disk)
  {
    SavesCompose(w, events);
    OpsGrow(w.disk, SavedOps(events));
  }

  /******* One stale save *******/

  // The hosts that an operation gives a record if they have none.
  function Named(op: Op): set<string> {
    match op
    case Scan(_, _, _) => Detected(op)
    case Transition(id, _, _, _) => {id}
    case SetBaseline(hosts, _, _) => Elements(hosts)
    case RemoveFromBaseline(_, _) => {}
  }

  function LogIn(s: Store, h: string): seq<LogEntry> {
    if h in s.assets then s.assets[h].log else []
  }

  /** Whatever is on disk by then, a save drops a record exactly if neither the copy nor the operation has the host. */
  lemma SaveDropsRecordIff(disk: Store, copy: Store, op: Op, h: string)
    requires Sound(copy) && Accepted(copy, op) && h in disk.assets
    ensures h !in After(copy, op).assets <==> h !in copy.assets && h !in Named(op)
  {
  }

  lemma SaveAppends(copy: Store, op: Op, h: string)
    requires Accepted(copy, op) && h in After(copy, op).assets
    ensures LogIn(copy, h) <= LogIn(After(copy, op), h) && |LogIn(After(copy, op), h)| <= |LogIn(copy, h)| + 1
  {
  }

  /** And it cuts a log that has only grown since the load exactly if it has grown, and not by the very same entry. */
  lemma SaveCutsLogIff(disk: Store, copy: Store, op: Op, h: string)
    requires Accepted(copy, op) && h in After(copy, op).assets && LogIn(copy, h) <= LogIn(disk, h)
    ensures !(LogIn(disk, h) <= LogIn(After(copy, op), h)) <==>
            |LogIn(copy, h)| < |LogIn(disk, h)| && LogIn(disk, h) != LogIn(After(copy, op), h)
  {
    SaveAppends(copy, op, h);
  }

  lemma RunOfFour(w: World, e: seq<Event>)
    requires |e| == 4
    ensures Run(w, e[..2]) == Next(Next(w, e[0]), e[1])
    ensures Run(w, e[..3]) == Next(Next(Next(w, e[0]), e[1]), e[2])
    ensures Run(w, e) == Next(Next(Next(Next(w, e[0]), e[1]), e[2]), e[3])
  {
    assert e[..4] == e && e[..0] == [];
    forall i | 0 <= i < 4 ensures Run(w, e[..i + 1]) == Next(Run(w, e[..i]), e[i]) {
      assert e[..i + 1][..i] == e[..i];
    }
  }

  /** A load that fails reads a fresh store, and saving it wipes out every record, with no overlap at all. */
  lemma FailedLoadWipesRecords(a: string, b: string, comment: string, now: int)
    requires a != b
    ensures var events := [Load(0), Save(0, SetBaseline([a], comment, now)),
                          LoadFails(1), Save(1, SetBaseline([b], comment, now))];
            && a in Run(World(FRESH_STORE, map[]), events[..2]).disk.assets
            && a !in Run(World(FRESH_STORE, map[]), events).disk.assets
  {
    var w := World(FRESH_STORE, map[]);
    var events := [Load(0), Save(0, SetBaseline([a], comment, now)),
                          LoadFails(1), Save(1, SetBaseline([b], comment, now))];
    RunOfFour(w, events);
    assert Next(w, events[0]).copies[0] == FRESH_STORE;
    assert a in Next(Next(w, events[0]), events[1]).disk.assets;
    assert Next(Next(Next(w, events[0]), events[1]), events[2]).copies[1] == FRESH_STORE;
  }

  /** When they overlap, the later save wipes out the records of the earlier one. */
  lemma OverlapLosesRecords(a: string, b: string, comment: string, now: int)
    requires a != b
    ensures var events := [Load(0), Load(1),
                          Save(0, SetBaseline([a], comment, now)), Save(1, SetBaseline([b], comment, now))];
            && a in Run(World(FRESH_STORE, map[]), events[..3]).disk.assets
            && a !in Run(World(FRESH_STORE, map[]), events).disk.assets
  {
    var w := World(FRESH_STORE, map[]);
    var events := [Load(0), Load(1),
                          Save(0, SetBaseline([a], comment, now)), Save(1, SetBaseline([b], comment, now))];
    RunOfFour(w, events);
    var loaded := Next(Next(w, events[0]), events[1]);
    assert loaded.copies[0] == loaded.copies[1] == FRESH_STORE;
    assert Next(loaded, events[2]).copies[1] == FRESH_STORE;
  }

  lemma RunOpsTwo(s: Store, op1: Op, op2: Op)
    requires Accepted(s, op1) && Accepted(After(s, op1), op2)
    ensures RunOps(s, [op1, op2]) == After(After(s, op1), op2)
  {
    assert [op1, op2][..1] == [op1] && [op1][..0] == [];
    assert RunOps(s, [op1]) == After(s, op1);
  }

  /** Removing a listed host from the baseline logs a move outside the table exactly if its state is Baseline or New. */
  lemma RemovalLeavesTheTableIff(s: Store, h: string, now: int)
    requires h in s.baseline && h in s.assets
    ensures var log := After(s, RemoveFromBaseline(h, now)).assets[h].log;
            && log != [] && log[|log| - 1] == LogEntry(StateChange, s.assets[h].state, New, REMOVED, now)
            && (!Allowed(log[|log| - 1].from, log[|log| - 1].to) <==> s.assets[h].state in {Baseline, New})
  {
  }

  /** A listed host is in state Baseline at first, and back at New two transitions later. */
  lemma ListedHostBackAtNew(h: string, comment: string, now: int)
    ensures var t := RunOps(After(FRESH_STORE, SetBaseline([h], comment, now)),
                            [Transition(h, UnderReview, comment, now), Transition(h, New, comment, now)]);
            h in t.baseline && h in t.assets && t.assets[h].state == New
  {
    var s := After(FRESH_STORE, SetBaseline([h], comment, now));
    assert Text.SortedSet([h]) == [h];
    assert s.baseline == [h] && s.assets[h].state == Baseline;
    RunOpsTwo(s, Transition(h, UnderReview, comment, now), Transition(h, New, comment, now));
  }

  /******* Scans *******/

  /** A scan drops the absent listed hosts that are in state Baseline, and nothing else changes state. */
  lemma ScanDropsExactly(store: Store, detected: set<string>, now: int, h: string)
    requires h in store.assets
    ensures h in Scanned(store, detected, now).assets
    ensures Scanned(store, detected, now).assets[h].state ==
            if h in store.baseline && h !in detected && store.assets[h].state == Baseline then Dropped
            else store.assets[h].state
    ensures h in store.baseline && h !in detected ==> Scanned(store, detected, now).assets[h].state != Baseline
  {
  }

  function Touched(store: Store, detected: set<string>, now: int): Store {
    store.(assets := map h | h in store.assets ::
      if h in detected then store.assets[h].(lastSeen := Some(now)) else store.assets[h])
  }

  /** Repeating a scan changes nothing but the time its hosts were last seen. */
  lemma RepeatedScanOnlyTouches(store: Store, detected: set<string>, t1: int, t2: int)
    requires detected != {}
    ensures var once := Scanned(store, detected, t1); Scanned(once, detected, t2) == Touched(once, detected, t2)
  {
  }

  function Scans(store: Store, scans: seq<(set<string>, int)>): Store {
    if scans == [] then store
    else Scanned(Scans(store, scans[..|scans| - 1]), scans[|scans| - 1].0, scans[|scans| - 1].1)
  }

  /**
   The first scan puts its hosts in state Baseline but not on the baseline list, so however many scans
   miss them later, they are never dropped.
   */
  lemma {:induction false} FirstScanHostsAreNeverDropped(
      first: set<string>, t: int, scans: seq<(set<string>, int)>, h: string)
    requires h in first
    ensures var s := Scans(Scanned(FRESH_STORE, first, t), scans);
            s.baseline == [] && h in s.assets && s.assets[h].state == Baseline
  {
    if scans != [] {
      FirstScanHostsAreNeverDropped(first, t, scans[..|scans| - 1], h);
      var last := scans[|scans| - 1];
      ScanDropsExactly(Scans(Scanned(FRESH_STORE, first, t), scans[..|scans| - 1]), last.0, last.1, h);
    }
  }
}
