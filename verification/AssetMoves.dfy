/** What each accepted operation does to every host, entry by entry and log by log. */
module AssetMoves {
  import opened Options
  import opened AssetLifecycle
  import opened AssetTheorems
  import Text

  /** Moved from its state to another, with one more log entry that says so, and seen when it was. */
  predicate MovedOnce(e: Entry, e': Entry, action: Action, to: AssetState, comment: string, now: int) {
    e' == Entry(to, e.firstSeen, e.lastSeen, e.log + [LogEntry(action, e.state, to, comment, now)])
  }

  predicate Unchanged(s: Store, t: Store, h: string) {
    (h in s.assets <==> h in t.assets) && (h in s.assets ==> s.assets[h] == t.assets[h])
  }

  /******* Replacing the baseline *******/

  /** Wanted hosts enter state Baseline, with one log entry unless they are there already. */
  lemma WantedMoves(store: Store, hosts: seq<string>, comment: string, now: int, h: string)
    requires h in hosts
    ensures var after := After(store, SetBaseline(hosts, comment, now)).assets;
            && h in after
            && (h !in store.assets ==>
                  after[h] == Entry(Baseline, Some(now), None, [LogEntry(StateChange, New, Baseline, comment, now)]))
            && (h in store.assets && store.assets[h].state == Baseline ==> after[h] == store.assets[h])
            && (h in store.assets && store.assets[h].state != Baseline ==>
                  MovedOnce(store.assets[h], after[h], StateChange, Baseline, comment, now))
  {
  }

  /** Listed hosts that are not wanted go to state New with one log entry, whatever their state; others stay. */
  lemma UnwantedMoves(store: Store, hosts: seq<string>, comment: string, now: int, h: string)
    requires Sound(store) && h !in hosts
    ensures var after := After(store, SetBaseline(hosts, comment, now));
            if h in store.baseline then
              && h in store.assets && h in after.assets
              && MovedOnce(store.assets[h], after.assets[h], StateChange, New, "Removed from baseline: " + comment, now)
            else Unchanged(store, after, h)
  {
    assert REMOVED + ": " + comment == "Removed from baseline: " + comment;
  }

  /** Were a listed host without its record, it would get one that starts from Baseline. */
  lemma UnrecordedMoves(store: Store, hosts: seq<string>, comment: string, now: int, h: string)
    requires h in store.baseline && h !in store.assets
    ensures h !in hosts ==>
              var after := After(store, SetBaseline(hosts, comment, now)).assets;
              h in after && after[h] == Entry(New, Some(now), None,
                [LogEntry(StateChange, Baseline, New, "Removed from baseline: " + comment, now)])
    ensures var after := After(store, RemoveFromBaseline(h, now)).assets;
            h in after && after[h] == Entry(New, Some(now), None,
              [LogEntry(StateChange, Baseline, New, "Removed from baseline", now)])
  {
    assert REMOVED + ": " + comment == "Removed from baseline: " + comment;
  }

  /** The new list holds the wanted hosts, each once and in order. */
  lemma ListIsReplaced(store: Store, hosts: seq<string>, comment: string, now: int)
    ensures var list := After(store, SetBaseline(hosts, comment, now)).baseline;
            Text.Ascending(list) && Distinct(list) && forall h :: h in list <==> h in hosts
  {
    Text.SortedSetIsAscending(hosts);
    var list := Text.SortedSet(hosts);
    forall i, j | 0 <= i < j < |list| ensures list[i] != list[j] { Text.BelowIsTotal(list[i], list[i]); }
  }

  /** So after it the hosts in state Baseline are the wanted ones and those that had that state without being listed. */
  lemma BaselineStateIff(store: Store, hosts: seq<string>, comment: string, now: int, h: string)
    requires Sound(store)
    ensures var after := After(store, SetBaseline(hosts, comment, now)).assets;
            h in after && after[h].state == Baseline <==>
            h in hosts || (h in store.assets && store.assets[h].state == Baseline && h !in store.baseline)
  {
    if h in hosts {
      WantedMoves(store, hosts, comment, now, h);
    } else {
      UnwantedMoves(store, hosts, comment, now, h);
    }
  }

  /******* Removing one host from it *******/

  lemma {:induction false} RemoveFirstSplits(xs: seq<string>, x: string) returns (p: seq<string>, q: seq<string>)
    requires x in xs
    ensures xs == p + [x] + q && x !in p && RemoveFirst(xs, x) == p + q
  {
    if xs[0] == x {
      p, q := [], xs[1..];
    } else {
      var p', q' := RemoveFirstSplits(xs[1..], x);
      p, q := [xs[0]] + p', q';
      BehindFirst(xs, p', x, q');
    }
  }

  lemma BehindFirst(xs: seq<string>, p: seq<string>, x: string, q: seq<string>)
    requires xs != [] && xs[1..] == p + [x] + q
    ensures xs == [xs[0]] + p + [x] + q && [xs[0]] + (p + q) == [xs[0]] + p + q
  {
    assert xs == [xs[0]] + xs[1..];
  }

  /** The host leaves the list, the others keep their order, and it alone moves, to New with one log entry. */
  lemma RemovalMoves(store: Store, id: string, now: int, h: string) returns (p: seq<string>, q: seq<string>)
    requires Sound(store) && id in store.baseline
    ensures var after := After(store, RemoveFromBaseline(id, now));
            && store.baseline == p + [id] + q && after.baseline == p + q && id !in p + q
            && id in store.assets && id in after.assets
            && MovedOnce(store.assets[id], after.assets[id], StateChange, New, "Removed from baseline", now)
            && (h != id ==> Unchanged(store, after, h))
  {
    p, q := RemoveFirstSplits(store.baseline, id);
    RemoveFirstContents(store.baseline, id);
  }

  /******* Transitions *******/

  /** The moves that the API accepts, as a request names them. */
  predicate InTable(from: AssetState, to: string) {
    (from, to) in {
      (New, "baseline"), (New, "under_review"), (New, "ignored"),
      (Baseline, "under_review"), (Baseline, "ignored"),
      (UnderReview, "baseline"), (UnderReview, "ignored"), (UnderReview, "new"),
      (Ignored, "new"), (Ignored, "baseline"),
      (Dropped, "new"), (Dropped, "baseline")}
  }

  predicate Names(to: string, s: AssetState) {
    (to, s) in {("new", New), ("baseline", Baseline), ("under_review", UnderReview), ("ignored", Ignored),
                ("dropped", Dropped)}
  }

  lemma NamesAre(to: string, s: AssetState)
    ensures StateNamed(to) == Some(s) <==> Names(to, s)
  {
  }

  /** A request names a state and an allowed move exactly if the table has the pair; so none leads to Dropped. */
  lemma TableIs(from: AssetState, to: string)
    ensures StateNamed(to).Some? && Allowed(from, StateNamed(to).value) <==> InTable(from, to)
  {
    if StateNamed(to).Some? { NamesAre(to, StateNamed(to).value); }
  }

  /** An accepted transition moves its host with one log entry, from New if it had no record, and no other. */
  lemma TransitionMoves(store: Store, id: string, to: AssetState, comment: string, now: int, h: string)
    requires Accepted(store, Transition(id, to, comment, now))
    ensures var after := After(store, Transition(id, to, comment, now));
            && after.baseline == store.baseline && id in after.assets
            && (id in store.assets ==> MovedOnce(store.assets[id], after.assets[id], StateChange, to, comment, now))
            && (id !in store.assets ==>
                  after.assets[id] == Entry(to, None, None, [LogEntry(StateChange, New, to, comment, now)]))
            && (h != id ==> Unchanged(store, after, h))
  {
  }

  /******* Scans *******/

  /** Every host after a scan: found for the first time, found again, dropped, or left as it is. */
  lemma ScanMoves(store: Store, primary: string, subdomains: seq<string>, now: int, h: string)
    ensures var after := After(store, Scan(primary, subdomains, now));
            var found := h == primary || h in subdomains;
            && after.baseline == store.baseline
            && (found && store.assets == map[] ==>
                  h in after.assets && after.assets[h] == Entry(Baseline, Some(now), Some(now),
                    [LogEntry(AutoBaselined, New, Baseline, "First scan baseline", now)]))
            && (found && store.assets != map[] && h !in store.assets ==>
                  h in after.assets && after.assets[h] == Entry(New, Some(now), Some(now), []))
            && (found && h in store.assets ==>
                  h in after.assets && after.assets[h] == store.assets[h].(lastSeen := Some(now)))
            && (!found && h in store.assets && h in store.baseline && store.assets[h].state == Baseline ==>
                  h in after.assets && MovedOnce(store.assets[h], after.assets[h], AutoDropped, Dropped,
                                                 "Asset not detected in latest scan", now))
            && (!found && !(h in store.assets && h in store.baseline && store.assets[h].state == Baseline) ==>
                  Unchanged(store, after, h))
  {
    assert h in Detected(Scan(primary, subdomains, now)) <==> h == primary || h in subdomains;
  }

  /** The hosts that a scan reports dropped are those whose state it changes. */
  lemma ReportedIsDropped(store: Store, primary: string, subdomains: seq<string>, now: int, h: string)
    ensures var scan := Scan(primary, subdomains, now);
            Drops(store, Detected(scan), h) <==>
            h in store.assets && After(store, scan).assets[h].state != store.assets[h].state
  {
  }

  /** And what the scan reports of a host that it found. */
  lemma ChangesAre(store: Store, h: string)
    ensures ChangeOf(store.assets, h) == Persisted <==> h in store.assets
    ensures ChangeOf(store.assets, h) == FirstScan <==> store.assets == map[]
    ensures ChangeOf(store.assets, h) == NewAsset <==> store.assets != map[] && h !in store.assets
  {
  }
}
