/**
 The lifecycle of the assets of one user: the scan engine and the user API both load the whole state
 store, change it, and save it again.
 */
module AssetLifecycle {
  import opened Options
  import Text

  datatype AssetState = New | Baseline | UnderReview | Ignored | Dropped

  datatype Action = AutoBaselined | AutoDropped | StateChange

  datatype LogEntry = LogEntry(action: Action, from: AssetState, to: AssetState, comment: string, at: int)

  datatype Entry = Entry(state: AssetState, firstSeen: Option<int>, lastSeen: Option<int>, log: seq<LogEntry>)

  datatype Store = Store(baseline: seq<string>, assets: map<string, Entry>)

  const FRESH_STORE := Store([], map[])

  predicate Allowed(from: AssetState, to: AssetState) {
    match from
    case New => to in {Baseline, UnderReview, Ignored}
    case Baseline => to in {UnderReview, Ignored}
    case UnderReview => to in {Baseline, Ignored, New}
    case Ignored => to in {New, Baseline}
    case Dropped => to in {New, Baseline}
  }

  function StateNamed(name: string): Option<AssetState> {
    match name
    case "new" => Some(New)
    case "baseline" => Some(Baseline)
    case "under_review" => Some(UnderReview)
    case "ignored" => Some(Ignored)
    case "dropped" => Some(Dropped)
    case _ => None
  }

  function Elements(xs: seq<string>): set<string> {
    set x | x in xs
  }

  /** An entry moved to another state, with the move on its log. */
  function Moved(e: Entry, action: Action, to: AssetState, comment: string, now: int): Entry {
    e.(state := to, log := e.log + [LogEntry(action, e.state, to, comment, now)])
  }

  /******* What each operation does to one asset *******/

  const FIRST_SCAN := "First scan baseline"
  const NOT_DETECTED := "Asset not detected in latest scan"

  function DetectedEntry(assets: map<string, Entry>, firstScan: bool, host: string, now: int): Entry {
    if host in assets then assets[host].(lastSeen := Some(now))
    else if firstScan then
      Entry(Baseline, Some(now), Some(now), [LogEntry(AutoBaselined, New, Baseline, FIRST_SCAN, now)])
    else Entry(New, Some(now), Some(now), [])
  }

  predicate Drops(store: Store, detected: set<string>, host: string) {
    host in store.baseline && host !in detected && host in store.assets && store.assets[host].state == Baseline
  }

  function DropEntry(store: Store, detected: set<string>, host: string, now: int): Entry
    requires host in store.assets
  {
    if Drops(store, detected, host) then Moved(store.assets[host], AutoDropped, Dropped, NOT_DETECTED, now)
    else store.assets[host]
  }

  /** The store after a scan that detected the given hosts. */
  function Scanned(store: Store, detected: set<string>, now: int): Store {
    Store(store.baseline, map host | host in store.assets.Keys + detected ::
      if host in detected then DetectedEntry(store.assets, store.assets == map[], host, now)
      else DropEntry(store, detected, host, now))
  }

  function Transitioned(store: Store, id: string, to: AssetState, comment: string, now: int): Store {
    var e := if id in store.assets then store.assets[id] else Entry(New, None, None, []);
    store.(assets := store.assets[id := Moved(e, StateChange, to, comment, now)])
  }

  function Promoted(assets: map<string, Entry>, host: string, comment: string, now: int): Entry {
    var e := if host in assets then assets[host] else Entry(New, Some(now), None, []);
    if e.state == Baseline then e else Moved(e, StateChange, Baseline, comment, now)
  }

  function Demoted(assets: map<string, Entry>, host: string, comment: string, now: int): Entry {
    var e := if host in assets then assets[host] else Entry(Baseline, Some(now), None, []);
    Moved(e, StateChange, New, comment, now)
  }

  const REMOVED := "Removed from baseline"

  /** The store after the baseline has been replaced by the given hosts. */
  function Rebaselined(store: Store, hosts: seq<string>, comment: string, now: int): Store {
    var (listed, wanted) := (Elements(store.baseline), Elements(hosts));
    Store(Text.SortedSet(hosts), map host | host in store.assets.Keys + listed + wanted ::
      if host in wanted then Promoted(store.assets, host, comment, now)
      else if host in listed then Demoted(store.assets, host, REMOVED + ": " + comment, now)
      else store.assets[host])
  }

  /** `xs.remove(x)` */
  function RemoveFirst(xs: seq<string>, x: string): seq<string> {
    if xs == [] then [] else if xs[0] == x then xs[1..] else [xs[0]] + RemoveFirst(xs[1..], x)
  }

  function Unlisted(store: Store, id: string, now: int): Store {
    Store(RemoveFirst(store.baseline, id),
          store.assets[id := Demoted(store.assets, id, REMOVED, now)])
  }

  /******* The operations *******/

  datatype Reply = Saved | Unprocessable | NotInBaseline

  datatype Change = FirstScan | NewAsset | Persisted

  function ChangeOf(assets: map<string, Entry>, host: string): Change {
    if host in assets then Persisted else if assets == map[] then FirstScan else NewAsset
  }

  /** A copy of the store in memory, edited in place between its load and its save. */
  class StoreCopy {
    var baseline: seq<string>
    var assets: map<string, Entry>

    ghost function Value(): Store
      reads this
    {
      Store(baseline, assets)
    }

    constructor (store: Store)
      ensures Value() == store
    {
      baseline, assets := store.baseline, store.assets;
    }

    /** A scan by a signed-in user; `dropped` are the hosts it dropped, with the time each was last seen. */
    method ApplyScan(primary: string, subdomains: seq<string>, now: int)
      returns (states: map<string, AssetState>, changes: map<string, Change>, dropped: map<string, int>)
      modifies this`assets
      ensures Value() == Scanned(old(Value()), {primary} + Elements(subdomains), now)
      ensures states.Keys == changes.Keys == {primary} + Elements(subdomains)
      ensures forall h | h in states :: h in assets && states[h] == assets[h].state
      ensures forall h | h in changes :: changes[h] == ChangeOf(old(assets), h)
      ensures forall h :: h in dropped <==> Drops(old(Value()), states.Keys, h)
      ensures forall h | h in dropped :: h in old(assets) && dropped[h] == old(assets)[h].lastSeen.GetOr(now)
    {
      var detected := {primary} + Elements(subdomains);
      states, changes := RecordDetected(detected, now);
      dropped := DropMissing(detected, now);
    }

    method RecordDetected(detected: set<string>, now: int)
      returns (states: map<string, AssetState>, changes: map<string, Change>)
      modifies this`assets
      ensures assets.Keys == old(assets).Keys + detected
      ensures forall h | h in assets ::
        assets[h] == if h in detected then DetectedEntry(old(assets), old(assets) == map[], h, now) else old(assets)[h]
      ensures states.Keys == changes.Keys == detected
      ensures forall h | h in states :: states[h] == assets[h].state && changes[h] == ChangeOf(old(assets), h)
    {
      var firstScan := assets == map[];
      states, changes := map[], map[];
      var todo := detected;
      while todo != {}
        invariant todo <= detected
        invariant states.Keys == changes.Keys == detected - todo
        invariant assets.Keys == old(assets).Keys + (detected - todo)
        invariant forall h | h in assets ::
          assets[h] == if h in detected - todo then DetectedEntry(old(assets), firstScan, h, now) else old(assets)[h]
        invariant forall h | h in states :: states[h] == assets[h].state && changes[h] == ChangeOf(old(assets), h)
      {
        var host :| host in todo;
        var entry, change;
        if host !in assets {
          if firstScan {
            entry := Entry(Baseline, Some(now), Some(now), [LogEntry(AutoBaselined, New, Baseline, FIRST_SCAN, now)]);
            change := FirstScan;
          } else {
            entry := Entry(New, Some(now), Some(now), []);
            change := NewAsset;
          }
        } else {
          entry := assets[host].(lastSeen := Some(now));
          change := Persisted;
        }
        assert entry == DetectedEntry(old(assets), firstScan, host, now) && change == ChangeOf(old(assets), host);
        assets := assets[host := entry];
        states := states[host := entry.state];
        changes := changes[host := change];
        todo := todo - {host};
      }
    }

    method DropMissing(detected: set<string>, now: int) returns (dropped: map<string, int>)
      modifies this`assets
      ensures assets.Keys == old(assets).Keys
      ensures forall h | h in assets :: assets[h] == DropEntry(old(Value()), detected, h, now)
      ensures forall h :: h in dropped <==> Drops(old(Value()), detected, h)
      ensures forall h | h in dropped :: h in old(assets) && dropped[h] == old(assets)[h].lastSeen.GetOr(now)
    {
      dropped := map[];
      var listed := Elements(baseline);
      while listed != {}
        invariant listed <= Elements(baseline)
        invariant assets.Keys == old(assets).Keys
        invariant forall h | h in assets ::
          assets[h] == if h !in listed then DropEntry(old(Value()), detected, h, now) else old(assets)[h]
        invariant forall h :: h in dropped <==> Drops(old(Value()), detected, h) && h !in listed
        invariant forall h | h in dropped :: h in old(assets) && dropped[h] == old(assets)[h].lastSeen.GetOr(now)
      {
        var host :| host in listed;
        if host !in detected && host in assets && assets[host].state == Baseline {
          dropped := dropped[host := assets[host].lastSeen.GetOr(now)];
          assets := assets[host := Moved(assets[host], AutoDropped, Dropped, NOT_DETECTED, now)];
        }
        listed := listed - {host};
      }
    }

    method Transition(id: string, toState: string, comment: string, now: int) returns (r: Reply)
      modifies this`assets
      ensures r == Saved <==>
              && StateNamed(Text.Trim(toState)).Some? && Text.Trim(comment) != ""
              && Allowed(if id in old(assets) then old(assets)[id].state else New, StateNamed(Text.Trim(toState)).value)
      ensures r == Saved ==>
                Value() == Transitioned(old(Value()), id, StateNamed(Text.Trim(toState)).value, Text.Trim(comment), now)
      ensures r != Saved ==> Value() == old(Value()) && r == Unprocessable
    {
      var to := StateNamed(Text.Trim(toState));
      if to.None? || Text.Trim(comment) == "" {
        return Unprocessable;
      }
      var entry := if id in assets then assets[id] else Entry(New, None, None, []);
      if !Allowed(entry.state, to.value) {
        return Unprocessable;
      }
      assets := assets[id := Moved(entry, StateChange, to.value, Text.Trim(comment), now)];
      return Saved;
    }

    method SetBaseline(hosts: seq<string>, comment: string, now: int) returns (r: Reply)
      modifies this
      ensures r == Saved <==> Text.Trim(comment) != ""
      ensures Value() == if r == Saved then Rebaselined(old(Value()), hosts, Text.Trim(comment), now) else old(Value())
    {
      var text := Text.Trim(comment);
      if text == "" {
        return Unprocessable;
      }
      var before, after := Elements(baseline), Elements(hosts);
      PromoteAll(after, text, now);
      DemoteAll(before - after, text, now);
      assert assets == Rebaselined(old(Value()), hosts, text, now).assets;
      baseline := Text.SortedSet(hosts);
      return Saved;
    }

    method PromoteAll(entering: set<string>, comment: string, now: int)
      modifies this`assets
      ensures assets.Keys == old(assets).Keys + entering
      ensures forall h | h in assets ::
        assets[h] == if h in entering then Promoted(old(assets), h, comment, now) else old(assets)[h]
    {
      var todo := entering;
      while todo != {}
        invariant todo <= entering
        invariant assets.Keys == old(assets).Keys + (entering - todo)
        invariant forall h | h in assets ::
          assets[h] == if h in entering - todo then Promoted(old(assets), h, comment, now) else old(assets)[h]
      {
        var host :| host in todo;
        var entry := if host in assets then assets[host] else Entry(New, Some(now), None, []);
        if entry.state != Baseline {
          entry := Moved(entry, StateChange, Baseline, comment, now);
        }
        assets := assets[host := entry];
        todo := todo - {host};
      }
    }

    method DemoteAll(leaving: set<string>, comment: string, now: int)
      modifies this`assets
      ensures assets.Keys == old(assets).Keys + leaving
      ensures forall h | h in assets ::
        assets[h] == if h in leaving then Demoted(old(assets), h, REMOVED + ": " + comment, now) else old(assets)[h]
    {
      var todo := leaving;
      while todo != {}
        invariant todo <= leaving
        invariant assets.Keys == old(assets).Keys + (leaving - todo)
        invariant forall h | h in assets ::
          assets[h] == if h in leaving - todo then Demoted(old(assets), h, REMOVED + ": " + comment, now)
                        else old(assets)[h]
      {
        var host :| host in todo;
        var entry := if host in assets then assets[host] else Entry(Baseline, Some(now), None, []);
        assets := assets[host := Moved(entry, StateChange, New, REMOVED + ": " + comment, now)];
        todo := todo - {host};
      }
    }

    method RemoveFromBaseline(id: string, now: int) returns (r: Reply)
      modifies this
      ensures r == (if id in old(baseline) then Saved else NotInBaseline)
      ensures Value() == if r == Saved then Unlisted(old(Value()), id, now) else old(Value())
    {
      if id !in baseline {
        return NotInBaseline;
      }
      baseline := RemoveFirst(baseline, id);
      var entry := if id in assets then assets[id] else Entry(Baseline, Some(now), None, []);
      assets := assets[id := Moved(entry, StateChange, New, REMOVED, now)];
      return Saved;
    }
  }
}
