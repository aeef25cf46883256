/** Where the agents of a refresh come from, said of the rows of the three tables. */
module HostSources {
  import opened Options
  import opened HostDedup

  predicate LastLive(rows: seq<RegistryRow>, k: nat) {
    && k < |rows| && !rows[k].removed
    && forall j | k < j < |rows| :: rows[j].id != rows[k].id || rows[j].removed
  }

  predicate LastAlert(rows: seq<AlertRow>, k: nat) {
    k < |rows| && forall j | k < j < |rows| :: rows[j].id != rows[k].id
  }

  /** A registered agent: five minutes without a report make it disconnected. */
  predicate FromRegistry(a: Agent, r: RegistryRow, now: int) {
    && a.id == r.id && a.ip == r.ip && a.platform == r.osType && a.keepalive == r.lastSeen
    && a.name == (if r.hostname.None? || r.hostname.value == "" then r.id else r.hostname.value)
    && a.status == (if r.lastSeen.None? then NeverConnected
                    else if now < r.lastSeen.value + 300 then Active else Disconnected)
  }

  /** An agent known from alerts only. */
  predicate FromAlert(a: Agent, r: AlertRow) {
    && a.id == r.id && a.ip == r.ip && a.platform.None? && a.keepalive.None? && a.status == Unknown
    && a.name == (if r.name.None? || r.name.value == "" then r.id else r.name.value)
  }

  lemma EntryIs(a: Agent, r: RegistryRow, now: int)
    ensures FromRegistry(a, r, now) <==> a == RegistryEntry(r, now)
  {
  }

  lemma AlertIs(a: Agent, r: AlertRow)
    ensures FromAlert(a, r) <==> a == GhostEntry(r)
  {
  }

  lemma EnrolledMore(rows: seq<RegistryRow>, r: RegistryRow)
    ensures Enrolled(rows + [r]) == if r.removed then Enrolled(rows) else Enrolled(rows) + [r]
  {
    assert (rows + [r])[..|rows|] == rows;
  }

  lemma Regrouped(xs: seq<RegistryRow>, ys: seq<RegistryRow>)
    requires ys != []
    ensures var init, r := ys[..|ys| - 1], ys[|ys| - 1]; ys == init + [r] && xs + ys == xs + init + [r]
  {
  }

  lemma {:induction false} EnrolledConcat(xs: seq<RegistryRow>, ys: seq<RegistryRow>)
    ensures Enrolled(xs + ys) == Enrolled(xs) + Enrolled(ys)
  {
    if ys == [] {
      assert xs + ys == xs;
    } else {
      var init, r := ys[..|ys| - 1], ys[|ys| - 1];
      Regrouped(xs, ys);
      EnrolledConcat(xs, init);
      EnrolledMore(xs + init, r);
      EnrolledMore(init, r);
      Associate(Enrolled(xs), Enrolled(init), r);
    }
  }

  lemma Associate(x: seq<RegistryRow>, y: seq<RegistryRow>, r: RegistryRow)
    ensures x + y + [r] == x + (y + [r])
  {
  }

  lemma EntriesMore(rows: seq<RegistryRow>, r: RegistryRow, now: int)
    ensures RegistryEntries(rows + [r], now) == RegistryEntries(rows, now) + [RegistryEntry(r, now)]
  {
    assert (rows + [r])[..|rows|] == rows;
  }

  lemma LatestMore(xs: seq<Agent>, x: Agent, id: string)
    ensures Latest(xs + [x], id) == if x.id == id then Some(x) else Latest(xs, id)
  {
    assert (xs + [x])[..|xs|] == xs;
  }

  predicate NoLive(rows: seq<RegistryRow>, id: string) {
    forall j | 0 <= j < |rows| :: rows[j].id != id || rows[j].removed
  }

  // The entry of an id is that of its last live row.
  lemma {:induction false} LatestRow(rows: seq<RegistryRow>, now: int, id: string) returns (k: nat)
    ensures var r := Latest(RegistryEntries(Enrolled(rows), now), id);
            if NoLive(rows, id) then r.None?
            else LastLive(rows, k) && rows[k].id == id && r == Some(RegistryEntry(rows[k], now))
  {
    k := 0;
    if rows != [] {
      var n := |rows| - 1;
      var init, r := rows[..n], rows[n];
      assert rows == init + [r];
      k := LatestRow(init, now, id);
      EnrolledMore(init, r);
      if !r.removed {
        EntriesMore(Enrolled(init), r, now);
        LatestMore(RegistryEntries(Enrolled(init), now), RegistryEntry(r, now), id);
        if r.id == id { k := n; }
      }
      NoLiveMore(init, r, id);
      if k < n { LastLiveMore(init, r, k, id); }
    }
  }

  lemma NoLiveMore(rows: seq<RegistryRow>, r: RegistryRow, id: string)
    ensures NoLive(rows + [r], id) <==> NoLive(rows, id) && (r.id != id || r.removed)
  {
    assert (rows + [r])[|rows|] == r;
    if NoLive(rows + [r], id) {
      forall j | 0 <= j < |rows| ensures rows[j].id != id || rows[j].removed { assert (rows + [r])[j] == rows[j]; }
    }
  }

  lemma LastLiveMore(rows: seq<RegistryRow>, r: RegistryRow, k: nat, id: string)
    requires k < |rows|
    ensures LastLive(rows, k) && rows[k].id == id && (r.id != id || r.removed) ==> LastLive(rows + [r], k)
  {
  }

  lemma LastLiveIsUnique(rows: seq<RegistryRow>, k: nat, k': nat)
    requires LastLive(rows, k) && LastLive(rows, k') && rows[k].id == rows[k'].id
    ensures k == k'
  {
  }

  lemma LiveRowIff(rows: seq<RegistryRow>, now: int, a: Agent)
    ensures var r := Latest(RegistryEntries(Enrolled(rows), now), a.id);
            && (r == Some(a) <==> exists k: nat :: LastLive(rows, k) && FromRegistry(a, rows[k], now))
            && (r.None? <==> NoLive(rows, a.id))
  {
    var k := LatestRow(rows, now, a.id);
    if !NoLive(rows, a.id) { EntryIs(a, rows[k], now); }
    if k': nat :| LastLive(rows, k') && FromRegistry(a, rows[k'], now) {
      LastLiveIsUnique(rows, k, k');
    }
  }

  predicate NoAlert(rows: seq<AlertRow>, id: string) {
    forall j | 0 <= j < |rows| :: rows[j].id != id
  }

  lemma GhostsMore(rows: seq<AlertRow>, r: AlertRow)
    ensures GhostEntries(rows + [r]) == GhostEntries(rows) + [GhostEntry(r)]
  {
    assert (rows + [r])[..|rows|] == rows;
  }

  lemma LastAlertMore(rows: seq<AlertRow>, r: AlertRow, k: nat, id: string)
    ensures NoAlert(rows + [r], id) <==> NoAlert(rows, id) && r.id != id
    ensures k < |rows| && LastAlert(rows, k) && rows[k].id == id && r.id != id ==> LastAlert(rows + [r], k)
    ensures LastAlert(rows + [r], |rows|)
  {
    assert (rows + [r])[|rows|] == r;
    if NoAlert(rows + [r], id) {
      forall j | 0 <= j < |rows| ensures rows[j].id != id { assert (rows + [r])[j] == rows[j]; }
    }
  }

  lemma {:induction false} LatestAlert(rows: seq<AlertRow>, id: string) returns (k: nat)
    ensures var r := Latest(GhostEntries(rows), id);
            if NoAlert(rows, id) then r.None?
            else LastAlert(rows, k) && rows[k].id == id && r == Some(GhostEntry(rows[k]))
  {
    k := 0;
    if rows != [] {
      var n := |rows| - 1;
      var init, r := rows[..n], rows[n];
      assert rows == init + [r];
      k := LatestAlert(init, id);
      GhostsMore(init, r);
      LatestMore(GhostEntries(init), GhostEntry(r), id);
      LastAlertMore(init, r, k, id);
      if r.id == id { k := n; }
    }
  }

  lemma AlertRowIff(rows: seq<AlertRow>, a: Agent)
    ensures Latest(GhostEntries(rows), a.id) == Some(a) <==>
            exists k: nat :: LastAlert(rows, k) && FromAlert(a, rows[k])
  {
    var k := LatestAlert(rows, a.id);
    if Latest(GhostEntries(rows), a.id).Some? { AlertIs(a, rows[k]); }
    if k': nat :| LastAlert(rows, k') && FromAlert(a, rows[k']) {
      assert k == k';
    }
  }

  /**
   The merged dictionary: for each id with a row that is not removed in a registry, the last one, collectors behind
   EDR agents; for any other id with an alert, the last alert.
   */
  lemma MergedIs(alerts: seq<AlertRow>, edr: seq<RegistryRow>, collectors: seq<RegistryRow>, now: int, a: Agent)
    ensures var rows := edr + collectors;
            a in Merged(alerts, edr, collectors, now) <==>
            || (exists k: nat :: LastLive(rows, k) && FromRegistry(a, rows[k], now))
            || (NoLive(rows, a.id) && exists k: nat :: LastAlert(alerts, k) && FromAlert(a, alerts[k]))
  {
    PutAllContents([], GhostEntries(alerts));
    EnrolledConcat(edr, collectors);
    PutAllContents(PutAll([], GhostEntries(alerts)), RegistryEntries(Enrolled(edr + collectors), now));
    LiveRowIff(edr + collectors, now, a);
    AlertRowIff(alerts, a);
  }
}
