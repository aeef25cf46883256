/** The subdomain history that each scan of a domain compares itself with and then replaces. */
module SubdomainHistory {
  // One enumerated subdomain; an entry that is a bare name is not live and has no addresses.
  datatype Found = Found(name: string, live: bool, ips: seq<string>)

  datatype Record = Record(firstSeen: int, lastSeen: int, lastLive: bool, lastIps: seq<string>)

  type Saved = map<string, Record>

  datatype Change = FirstScan | NewSubdomain | Appeared | Disappeared | Persisted

  datatype Annotated = Annotated(found: Found, isNew: bool, change: Change)

  function RecordOf(previous: Saved, f: Found, now: int): Record {
    Record(if f.name in previous then previous[f.name].firstSeen else now, now, f.live, f.ips)
  }

  function SavedAfter(previous: Saved, found: seq<Found>, now: int): Saved {
    if found == [] then map[]
    else
      var f := found[|found| - 1];
      SavedAfter(previous, found[..|found| - 1], now)[f.name := RecordOf(previous, f, now)]
  }

  function Annotation(previous: Saved, f: Found): Annotated {
    if previous == map[] then Annotated(f, false, FirstScan)
    else if f.name !in previous then Annotated(f, true, NewSubdomain)
    else if f.live && !previous[f.name].lastLive then Annotated(f, false, Appeared)
    else if !f.live && previous[f.name].lastLive then Annotated(f, false, Disappeared)
    else Annotated(f, false, Persisted)
  }

  /** The state file of one domain. */
  class StateFile {
    var subdomains: Saved

    constructor ()
      ensures subdomains == map[]
    {
      subdomains := map[];
    }

    method Annotate(found: seq<Found>) returns (annotated: seq<Annotated>)
      ensures |annotated| == |found|
      ensures forall i | 0 <= i < |found| :: annotated[i] == Annotation(subdomains, found[i])
    {
      var firstScan := subdomains == map[];
      annotated := [];
      for n := 0 to |found|
        invariant |annotated| == n
        invariant forall i | 0 <= i < n :: annotated[i] == Annotation(subdomains, found[i])
      {
        var f := found[n];
        var change, isNew;
        if firstScan {
          change, isNew := FirstScan, false;
        } else if f.name !in subdomains {
          change, isNew := NewSubdomain, true;
        } else if f.live && !subdomains[f.name].lastLive {
          change, isNew := Appeared, false;
        } else if !f.live && subdomains[f.name].lastLive {
          change, isNew := Disappeared, false;
        } else {
          change, isNew := Persisted, false;
        }
        annotated := annotated + [Annotated(f, isNew, change)];
      }
    }

    method Save(found: seq<Found>, now: int)
      modifies this
      ensures subdomains == SavedAfter(old(subdomains), found, now)
    {
      var updated: Saved := map[];
      for n := 0 to |found|
        invariant updated == SavedAfter(subdomains, found[..n], now)
      {
        assert found[..n + 1][..n] == found[..n];
        var f := found[n];
        var first := if f.name in subdomains then subdomains[f.name].firstSeen else now;
        updated := updated[f.name := Record(first, now, f.live, f.ips)];
      }
      assert found[..|found|] == found;
      subdomains := updated;
    }
  }

  /******* The history over any number of scans *******/

  /** A saved scan; one that skips enumeration saves an empty list. */
  datatype Scan = Enumerated(found: seq<Found>, now: int) | Skipped(now: int)
  {
    function Results(): seq<Found> {
      if Enumerated? then found else []
    }
  }

  function StateAfter(scans: seq<Scan>): Saved {
    if scans == [] then map[]
    else
      var s := scans[|scans| - 1];
      SavedAfter(StateAfter(scans[..|scans| - 1]), s.Results(), s.now)
  }

  predicate Appears(s: Scan, name: string) {
    exists f | f in s.Results() :: f.name == name
  }

  /** Scan `k` begins the latest unbroken streak of scans in which the name appears. */
  predicate StreakBegins(scans: seq<Scan>, name: string, k: nat) {
    && k < |scans|
    && (forall j | k <= j < |scans| :: Appears(scans[j], name))
    && (k > 0 ==> !Appears(scans[k - 1], name))
  }

  lemma {:induction false} SavedAfterAt(previous: Saved, found: seq<Found>, now: int, name: string)
    ensures var after := SavedAfter(previous, found, now);
            && (name in after <==> exists f | f in found :: f.name == name)
            && (name in after ==> after[name].firstSeen == (if name in previous then previous[name].firstSeen else now)
                                  && after[name].lastSeen == now)
  {
    if found != [] {
      var init, f := found[..|found| - 1], found[|found| - 1];
      SavedAfterAt(previous, init, now, name);
      assert found == init + [f];
      if g :| g in found && g.name == name && g != f {
        assert g in init;
      }
    }
  }

  // Entry `i` is the last of its name in what was found.
  predicate LastOf(found: seq<Found>, i: nat) {
    i < |found| && forall j | i < j < |found| :: found[j].name != found[i].name
  }

  lemma {:induction false} LastExists(found: seq<Found>, name: string) returns (i: nat)
    requires exists f | f in found :: f.name == name
    ensures LastOf(found, i) && found[i].name == name
  {
    var n := |found| - 1;
    if found[n].name == name {
      i := n;
    } else {
      assert forall f | f in found :: f == found[n] || f in found[..n];
      i := LastExists(found[..n], name);
      assert forall j | i < j < n :: found[..n][j] == found[j];
    }
  }

  /** A saved record has the liveness and the addresses of the last entry of its name, and the time of the scan. */
  lemma {:induction false} SavedRecordIs(previous: Saved, found: seq<Found>, now: int, i: nat)
    requires LastOf(found, i)
    ensures var after, f := SavedAfter(previous, found, now), found[i];
            && f.name in after && after[f.name].lastLive == f.live && after[f.name].lastIps == f.ips
            && after[f.name].lastSeen == now
  {
    if i < |found| - 1 {
      SavedRecordIs(previous, found[..|found| - 1], now, i);
    }
  }

  /** What is stored is exactly what the last scan found. */
  lemma StoredIffInLastScan(scans: seq<Scan>, name: string)
    ensures name in StateAfter(scans) <==> scans != [] && Appears(scans[|scans| - 1], name)
  {
    if scans != [] {
      var s := scans[|scans| - 1];
      SavedAfterAt(StateAfter(scans[..|scans| - 1]), s.Results(), s.now, name);
    }
  }

  lemma {:induction false} StreakExists(scans: seq<Scan>, name: string) returns (k: nat)
    requires scans != [] && Appears(scans[|scans| - 1], name)
    ensures StreakBegins(scans, name, k)
  {
    var n := |scans| - 1;
    if n > 0 && Appears(scans[n - 1], name) {
      k := StreakExists(scans[..n], name);
      assert forall j | 0 <= j < n :: scans[..n][j] == scans[j];
    } else {
      k := n;
    }
  }

  /** The stored first_seen of a subdomain is the time at which its latest unbroken streak began. */
  lemma {:induction false} FirstSeenIsStreakStart(scans: seq<Scan>, name: string, k: nat)
    requires StreakBegins(scans, name, k)
    ensures name in StateAfter(scans) && StateAfter(scans)[name].firstSeen == scans[k].now
  {
    var n := |scans| - 1;
    var init, s := scans[..n], scans[n];
    assert Appears(s, name);
    SavedAfterAt(StateAfter(init), s.Results(), s.now, name);
    if k < n {
      ShortenStreak(scans, name, k);
      FirstSeenIsStreakStart(init, name, k);
    } else {
      StoredIffInLastScan(init, name);
    }
  }

  lemma ShortenStreak(scans: seq<Scan>, name: string, k: nat)
    requires StreakBegins(scans, name, k) && k < |scans| - 1
    ensures StreakBegins(scans[..|scans| - 1], name, k)
  {
  }

  /**
   A subdomain is called new exactly when the previous saved scan found something but not it;
   whether any earlier scan had found it plays no part.
   */
  lemma IsNewIff(scans: seq<Scan>, f: Found)
    ensures Annotation(StateAfter(scans), f).isNew <==>
            && scans != [] && scans[|scans| - 1].Results() != []
            && !Appears(scans[|scans| - 1], f.name)
  {
    StoredIffInLastScan(scans, f.name);
    if scans != [] && scans[|scans| - 1].Results() != [] {
      var g := scans[|scans| - 1].Results()[0];
      assert g in scans[|scans| - 1].Results();
      StoredIffInLastScan(scans, g.name);
    }
    if StateAfter(scans) != map[] {
      var name :| name in StateAfter(scans);
      StoredIffInLastScan(scans, name);
    }
  }

  /**
   What a scan calls a subdomain depends on the last saved scan alone: whether that found anything, whether it found
   this one, and whether this one was live there and is now.
   */
  lemma ChangeIff(scans: seq<Scan>, f: Found)
    requires scans != []
    ensures var last, change := scans[|scans| - 1].Results(), Annotation(StateAfter(scans), f).change;
            && (change == FirstScan <==> last == [])
            && (change == NewSubdomain <==> last != [] && forall g | g in last :: g.name != f.name)
            && forall i: nat | LastOf(last, i) && last[i].name == f.name ::
                 && (change == Appeared <==> f.live && !last[i].live)
                 && (change == Disappeared <==> !f.live && last[i].live)
                 && (change == Persisted <==> f.live == last[i].live)
  {
    var s := scans[|scans| - 1];
    var previous := StateAfter(scans[..|scans| - 1]);
    StoredIffInLastScan(scans, f.name);
    if s.Results() != [] {
      assert s.Results()[0] in s.Results();
      StoredIffInLastScan(scans, s.Results()[0].name);
    }
    forall i: nat | LastOf(s.Results(), i) && s.Results()[i].name == f.name
      ensures f.name in StateAfter(scans) && StateAfter(scans)[f.name].lastLive == s.Results()[i].live
    {
      SavedRecordIs(previous, s.Results(), s.now, i);
    }
  }

  /** The first scan of all calls nothing new. */
  lemma NothingIsNewAtFirst(f: Found)
    ensures Annotation(StateAfter([]), f) == Annotated(f, false, FirstScan)
  {
  }

  /** A subdomain found before is called new again after one scan without it. */
  lemma FoundBeforeIsNewAgain(f: Found, g: Found, t0: int, t1: int, t2: int)
    requires f.name != g.name
    ensures var scans := [Enumerated([f], t0), Enumerated([g], t1)];
            && Appears(scans[0], f.name)
            && Annotation(StateAfter(scans), f).isNew
            && f.name in StateAfter(scans + [Enumerated([f], t2)])
            && StateAfter(scans + [Enumerated([f], t2)])[f.name].firstSeen == t2
  {
    var scans := [Enumerated([f], t0), Enumerated([g], t1)];
    var all := scans + [Enumerated([f], t2)];
    assert f in scans[0].Results();
    IsNewIff(scans, f);
    assert f in all[2].Results();
    assert StreakBegins(all, f.name, 2);
    FirstSeenIsStreakStart(all, f.name, 2);
  }

  /** A scan that skips enumeration forgets every subdomain: the next scan takes itself for the first. */
  lemma SkippedScanForgets(scans: seq<Scan>, now: int, f: Found)
    ensures StateAfter(scans + [Skipped(now)]) == map[]
    ensures Annotation(StateAfter(scans + [Skipped(now)]), f).change == FirstScan
  {
  }
}
