/** Cross-source duplicate suppression: a set-if-absent store with expiry, and the bridge that consults it. */
module DuplicateSuppression {
  import Text

  /** How a call to the store ends: answered, applied but the answer lost, or not applied at all. */
  datatype Link = Up | ReplyLost | Down

  /** One check of a key. */
  datatype Offer = Offer(key: string, now: int, link: Link)

  type Expiries = map<string, int>

  predicate Live(store: Expiries, key: string, now: int) {
    key in store && now < store[key]
  }

  // The store refuses an expiry that is not positive.
  predicate Applied(ttl: int, o: Offer) {
    o.link != Down && ttl > 0
  }

  function StoreAfter(ttl: int, store: Expiries, o: Offer): Expiries {
    if Applied(ttl, o) && !Live(store, o.key, o.now) then store[o.key := o.now + ttl] else store
  }

  /** Whether the caller is told to suppress: every failure lets the event through. */
  predicate IsDuplicate(ttl: int, store: Expiries, o: Offer) {
    o.link == Up && ttl > 0 && Live(store, o.key, o.now)
  }

  function StoreAfterAll(ttl: int, store: Expiries, offers: seq<Offer>): Expiries {
    if offers == [] then store
    else StoreAfter(ttl, StoreAfterAll(ttl, store, offers[..|offers| - 1]), offers[|offers| - 1])
  }

  /******* The history-based specification *******/

  /** Offer `i` leaves a record: it reaches the store, and no record of its key is less than the TTL old. */
  predicate Records(ttl: int, offers: seq<Offer>, i: nat)
    requires i < |offers|
    decreases i
  {
    Applied(ttl, offers[i]) && !RecentlyRecorded(ttl, offers, i)
  }

  predicate RecentlyRecorded(ttl: int, offers: seq<Offer>, i: nat)
    requires i < |offers|
    decreases i, 0
  {
    exists j | 0 <= j < i :: Covers(ttl, offers[j], offers[i]) && Records(ttl, offers, j)
  }

  predicate Covers(ttl: int, earlier: Offer, o: Offer) {
    earlier.key == o.key && o.now - earlier.now < ttl
  }

  predicate Ordered(offers: seq<Offer>) {
    forall i, j | 0 <= i < j < |offers| :: offers[i].now <= offers[j].now
  }

  lemma {:induction false} RecordsInPrefix(ttl: int, offers: seq<Offer>, n: nat, i: nat)
    requires i < n <= |offers|
    ensures Records(ttl, offers[..n], i) <==> Records(ttl, offers, i)
    decreases i
  {
    var prefix := offers[..n];
    assert forall j | 0 <= j < n :: prefix[j] == offers[j];
    forall j | 0 <= j < i ensures Records(ttl, prefix, j) <==> Records(ttl, offers, j) {
      RecordsInPrefix(ttl, offers, n, j);
    }
    assert RecentlyRecorded(ttl, prefix, i) <==> RecentlyRecorded(ttl, offers, i);
  }

  // Some record set the expiry of the key to that time.
  ghost predicate SetBy(ttl: int, offers: seq<Offer>, key: string, expiry: int) {
    exists j | 0 <= j < |offers| :: offers[j].key == key && offers[j].now + ttl == expiry && Records(ttl, offers, j)
  }

  /** What the store knows after some offers: the records, each until its TTL has passed. */
  ghost predicate Remembers(ttl: int, store: Expiries, offers: seq<Offer>) {
    && (forall j {:trigger Records(ttl, offers, j)} | 0 <= j < |offers| && Records(ttl, offers, j) ::
          offers[j].key in store && offers[j].now + ttl <= store[offers[j].key])
    && (forall k | k in store :: SetBy(ttl, offers, k, store[k]))
  }

  lemma LiveIffRecentlyRecorded(ttl: int, store: Expiries, offers: seq<Offer>, i: nat)
    requires i < |offers| && Remembers(ttl, store, offers[..i])
    ensures Live(store, offers[i].key, offers[i].now) <==> RecentlyRecorded(ttl, offers, i)
  {
    var past, o := offers[..i], offers[i];
    if Live(store, o.key, o.now) {
      assert SetBy(ttl, past, o.key, store[o.key]);
      var j :| 0 <= j < |past| && past[j].key == o.key && past[j].now + ttl == store[o.key] && Records(ttl, past, j);
      RecordsInPrefix(ttl, offers, i, j);
      assert Covers(ttl, offers[j], o);
    }
    if RecentlyRecorded(ttl, offers, i) {
      var j :| 0 <= j < i && Covers(ttl, offers[j], o) && Records(ttl, offers, j);
      RecordsInPrefix(ttl, offers, i, j);
      assert past[j] == offers[j];
    }
  }

  lemma SetByGrows(ttl: int, offers: seq<Offer>, n: nat, key: string, expiry: int)
    requires n <= |offers| && SetBy(ttl, offers[..n], key, expiry)
    ensures SetBy(ttl, offers, key, expiry)
  {
    var past := offers[..n];
    var j :| 0 <= j < |past| && past[j].key == key && past[j].now + ttl == expiry && Records(ttl, past, j);
    RecordsInPrefix(ttl, offers, n, j);
    assert offers[j] == past[j];
  }

  lemma {:induction false} StoreRemembers(ttl: int, offers: seq<Offer>)
    requires Ordered(offers)
    ensures Remembers(ttl, StoreAfterAll(ttl, map[], offers), offers)
  {
    if offers != [] {
      var n := |offers| - 1;
      StoreRemembers(ttl, offers[..n]);
      RemembersNext(ttl, StoreAfterAll(ttl, map[], offers[..n]), offers, n);
    }
  }

  lemma RemembersNext(ttl: int, store: Expiries, offers: seq<Offer>, n: nat)
    requires Ordered(offers) && n + 1 == |offers| && Remembers(ttl, store, offers[..n])
    ensures Remembers(ttl, StoreAfter(ttl, store, offers[n]), offers)
  {
    var past, o := offers[..n], offers[n];
    var after := StoreAfter(ttl, store, o);
    LiveIffRecentlyRecorded(ttl, store, offers, n);
    forall j | 0 <= j < |offers| && Records(ttl, offers, j)
      ensures offers[j].key in after && offers[j].now + ttl <= after[offers[j].key]
    {
      if j < n {
        RecordsInPrefix(ttl, offers, n, j);
        assert past[j] == offers[j];
      }
    }
    forall k | k in after ensures SetBy(ttl, offers, k, after[k]) {
      if k in store && after[k] == store[k] {
        SetByGrows(ttl, offers, n, k, store[k]);
      } else {
        assert Records(ttl, offers, n) && k == o.key && after[k] == o.now + ttl;
      }
    }
  }

  /**
   For any times in order and any outages: an event is suppressed exactly when the store answers and an earlier
   record of its key is less than the TTL old, and the store is written exactly when the history says so.
   */
  lemma SuppressedIff(ttl: int, offers: seq<Offer>, i: nat)
    requires Ordered(offers) && i < |offers|
    ensures var store := StoreAfterAll(ttl, map[], offers[..i]);
            && (IsDuplicate(ttl, store, offers[i]) <==> offers[i].link == Up && RecentlyRecorded(ttl, offers, i))
            && (Applied(ttl, offers[i]) && !Live(store, offers[i].key, offers[i].now) <==> Records(ttl, offers, i))
  {
    var past := offers[..i];
    assert Ordered(past) by {
      forall a, b | 0 <= a < b < |past|
        ensures past[a].now <= past[b].now
      {
        assert past[a] == offers[a] && past[b] == offers[b];
      }
    }
    StoreRemembers(ttl, past);
    LiveIffRecentlyRecorded(ttl, StoreAfterAll(ttl, map[], past), offers, i);
    if RecentlyRecorded(ttl, offers, i) {
      var j :| 0 <= j < i && Covers(ttl, offers[j], offers[i]) && Records(ttl, offers, j);
      assert offers[j].now <= offers[i].now;
    }
  }

  /** Two records of one key are at least the TTL apart. */
  lemma RecordsAreSpaced(ttl: int, offers: seq<Offer>, i: nat, j: nat)
    requires i < j < |offers| && offers[i].key == offers[j].key
    requires Records(ttl, offers, i) && Records(ttl, offers, j)
    ensures offers[j].now >= offers[i].now + ttl
  {
  }

  /**
   One check: without a positive TTL or when the call does not arrive nothing happens; a key that has not expired is
   left as it is, and called a duplicate if the answer arrives; any other is recorded until its TTL has passed.
   */
  lemma CheckIs(ttl: int, store: Expiries, o: Offer)
    ensures ttl <= 0 || o.link == Down ==> StoreAfter(ttl, store, o) == store && !IsDuplicate(ttl, store, o)
    ensures ttl > 0 && o.link != Down && o.key in store && o.now < store[o.key] ==>
              StoreAfter(ttl, store, o) == store && (IsDuplicate(ttl, store, o) <==> o.link == Up)
    ensures ttl > 0 && o.link != Down && !(o.key in store && o.now < store[o.key]) ==>
              StoreAfter(ttl, store, o) == store[o.key := o.now + ttl] && !IsDuplicate(ttl, store, o)
  {
  }

  /******* The connector bridge *******/

  datatype Envelope = Envelope(agent: string, description: string, timestamp: string, body: string)

  function Prefix(s: string, n: nat): string {
    if |s| <= n then s else s[..n]
  }

  function EnvelopeKey(vendor: string, e: Envelope): string {
    vendor + "|" + e.agent + "|" + e.description + "|" + Prefix(e.timestamp, 16)
  }

  /** While neither names nor times hold the separator, a key stands for one vendor, entity, description and minute. */
  lemma KeySeparates(vendor: string, e: Envelope, vendor': string, e': Envelope)
    requires '|' !in vendor && '|' !in vendor' && '|' !in e.agent && '|' !in e'.agent
    requires '|' !in Prefix(e.timestamp, 16) && '|' !in Prefix(e'.timestamp, 16)
    ensures EnvelopeKey(vendor, e) == EnvelopeKey(vendor', e') <==>
            && vendor == vendor' && e.agent == e'.agent && e.description == e'.description
            && Prefix(e.timestamp, 16) == Prefix(e'.timestamp, 16)
  {
    var t, t' := Prefix(e.timestamp, 16), Prefix(e'.timestamp, 16);
    var front, front' := vendor + "|" + e.agent + "|" + e.description, vendor' + "|" + e'.agent + "|" + e'.description;
    var named, named' := e.agent + "|" + e.description, e'.agent + "|" + e'.description;
    Text.SplitAtLastBar(front, t, front', t');
    assert front == vendor + "|" + named && front' == vendor' + "|" + named';
    Text.SplitAtFirstBar(vendor, named, vendor', named');
    Text.SplitAtFirstBar(e.agent, e.description, e'.agent, e'.description);
  }

  /** For times as they are written, to the minute or finer, exactly if their first sixteen characters agree. */
  lemma SameMinuteIff(vendor: string, e: Envelope, vendor': string, e': Envelope)
    requires '|' !in vendor && '|' !in vendor' && '|' !in e.agent && '|' !in e'.agent
    requires |e.timestamp| >= 16 && |e'.timestamp| >= 16 && '|' !in e.timestamp && '|' !in e'.timestamp
    ensures EnvelopeKey(vendor, e) == EnvelopeKey(vendor', e') <==>
            && vendor == vendor' && e.agent == e'.agent && e.description == e'.description
            && e.timestamp[..16] == e'.timestamp[..16]
  {
    var t, t' := e.timestamp, e'.timestamp;
    assert t[..|t|] == t && t'[..|t'|] == t';
    assert Prefix(t, 16) == t[..16] && Prefix(t', 16) == t'[..16];
    KeySeparates(vendor, e, vendor', e');
  }

  /** With a separator in an entity's name, different events can share a key. */
  lemma KeyCollides(vendor: string, x: string, y: string, z: string, timestamp: string, body: string)
    ensures var e, e' := Envelope(x + "|" + y, z, timestamp, body), Envelope(x, y + "|" + z, timestamp, body);
            e != e' && EnvelopeKey(vendor, e) == EnvelopeKey(vendor, e')
  {
  }

  /** An envelope, and how its check in the store goes. */
  datatype Arrival = Arrival(envelope: Envelope, now: int, link: Link)

  function OfferOf(vendor: string, a: Arrival): Offer {
    Offer(EnvelopeKey(vendor, a.envelope), a.now, a.link)
  }

  function Offers(vendor: string, batch: seq<Arrival>): (r: seq<Offer>)
    ensures |r| == |batch| && forall i | 0 <= i < |batch| :: r[i] == OfferOf(vendor, batch[i])
  {
    seq(|batch|, i requires 0 <= i < |batch| => OfferOf(vendor, batch[i]))
  }

  /** Which envelopes of a batch are duplicates, each checked against the store its predecessors left. */
  function Verdicts(ttl: int, store: Expiries, vendor: string, batch: seq<Arrival>): (r: seq<bool>)
    ensures |r| == |batch|
  {
    if batch == [] then []
    else
      var init, a := batch[..|batch| - 1], batch[|batch| - 1];
      Verdicts(ttl, store, vendor, init)
      + [IsDuplicate(ttl, StoreAfterAll(ttl, store, Offers(vendor, init)), OfferOf(vendor, a))]
  }

  /** The envelopes that got the given verdict, in order. */
  function WithVerdict(batch: seq<Arrival>, verdicts: seq<bool>, duplicate: bool): seq<Envelope>
    requires |verdicts| == |batch|
  {
    if batch == [] then []
    else
      var n := |batch| - 1;
      var more := WithVerdict(batch[..n], verdicts[..n], duplicate);
      if verdicts[n] == duplicate then more + [batch[n].envelope] else more
  }

  function Passed(ttl: int, store: Expiries, vendor: string, batch: seq<Arrival>): seq<Envelope> {
    WithVerdict(batch, Verdicts(ttl, store, vendor, batch), false)
  }

  function Envelopes(batch: seq<Arrival>): seq<Envelope> {
    if batch == [] then [] else Envelopes(batch[..|batch| - 1]) + [batch[|batch| - 1].envelope]
  }

  predicate Sublist(xs: seq<Envelope>, ys: seq<Envelope>) {
    xs == [] || (ys != [] &&
      ((xs[|xs| - 1] == ys[|ys| - 1] && Sublist(xs[..|xs| - 1], ys[..|ys| - 1])) || Sublist(xs, ys[..|ys| - 1])))
  }

  // The places in a list, in order, from which a sublist of it is taken.
  predicate Places(places: seq<nat>, n: nat) {
    && (forall k | 0 <= k < |places| :: places[k] < n)
    && forall j, k | 0 <= j < k < |places| :: places[j] < places[k]
  }

  predicate TakenFrom(xs: seq<Envelope>, ys: seq<Envelope>, places: seq<nat>) {
    |places| == |xs| && Places(places, |ys|) && forall k | 0 <= k < |xs| :: xs[k] == ys[places[k]]
  }

  /** A sublist has its elements from places in order. */
  lemma {:induction false} SublistIsTaken(xs: seq<Envelope>, ys: seq<Envelope>) returns (places: seq<nat>)
    requires Sublist(xs, ys)
    ensures TakenFrom(xs, ys, places)
    decreases |ys|
  {
    if xs == [] {
      places := [];
    } else {
      var m, n := |xs| - 1, |ys| - 1;
      if xs[m] == ys[n] && Sublist(xs[..m], ys[..n]) {
        places := SublistIsTaken(xs[..m], ys[..n]);
        places := places + [n];
      } else {
        places := SublistIsTaken(xs, ys[..n]);
      }
    }
  }

  lemma {:induction false} WithVerdictInOrder(batch: seq<Arrival>, verdicts: seq<bool>, duplicate: bool)
    requires |verdicts| == |batch|
    ensures Sublist(WithVerdict(batch, verdicts, duplicate), Envelopes(batch))
  {
    if batch != [] {
      var n := |batch| - 1;
      WithVerdictInOrder(batch[..n], verdicts[..n], duplicate);
      SublistOfMore(WithVerdict(batch[..n], verdicts[..n], duplicate), Envelopes(batch[..n]), batch[n].envelope);
    }
  }

  lemma {:induction false} VerdictsPartition(batch: seq<Arrival>, verdicts: seq<bool>)
    requires |verdicts| == |batch|
    ensures multiset(WithVerdict(batch, verdicts, false)) + multiset(WithVerdict(batch, verdicts, true))
            == multiset(Envelopes(batch))
    ensures |WithVerdict(batch, verdicts, false)| + |WithVerdict(batch, verdicts, true)| == |batch|
  {
    if batch != [] {
      var n := |batch| - 1;
      var e := batch[n].envelope;
      VerdictsPartition(batch[..n], verdicts[..n]);
      AddedTo(WithVerdict(batch[..n], verdicts[..n], verdicts[n]), e);
      AddedTo(Envelopes(batch[..n]), e);
    }
  }

  /** Per batch, what passes and what is suppressed are in-order sublists of what was offered, together all of it. */
  lemma BatchIsSplit(batch: seq<Arrival>, verdicts: seq<bool>)
    requires |verdicts| == |batch|
    ensures Sublist(WithVerdict(batch, verdicts, false), Envelopes(batch))
    ensures Sublist(WithVerdict(batch, verdicts, true), Envelopes(batch))
    ensures multiset(WithVerdict(batch, verdicts, false)) + multiset(WithVerdict(batch, verdicts, true))
            == multiset(Envelopes(batch))
    ensures |WithVerdict(batch, verdicts, false)| + |WithVerdict(batch, verdicts, true)| == |batch|
  {
    WithVerdictInOrder(batch, verdicts, false);
    WithVerdictInOrder(batch, verdicts, true);
    VerdictsPartition(batch, verdicts);
  }

  /** Each verdict is the history's: what passes is what no record of its key covers, or the store did not answer. */
  lemma VerdictsFollowHistory(ttl: int, past: seq<Offer>, vendor: string, batch: seq<Arrival>, i: nat)
    requires Ordered(past + Offers(vendor, batch)) && i < |batch|
    ensures Verdicts(ttl, StoreAfterAll(ttl, map[], past), vendor, batch)[i] <==>
            batch[i].link == Up && RecentlyRecorded(ttl, past + Offers(vendor, batch), |past| + i)
  {
    var coming := Offers(vendor, batch);
    VerdictAt(ttl, StoreAfterAll(ttl, map[], past), vendor, batch, i);
    OffersPrefix(vendor, batch, i);
    ConcatPrefix(past, coming, i);
    StoreAfterBoth(ttl, map[], past, coming[..i]);
    SuppressedAt(ttl, past + coming, |past| + i, past + coming[..i], coming[i]);
  }

  lemma SuppressedAt(ttl: int, offers: seq<Offer>, k: nat, before: seq<Offer>, o: Offer)
    requires Ordered(offers) && k < |offers| && offers[..k] == before && offers[k] == o
    ensures IsDuplicate(ttl, StoreAfterAll(ttl, map[], before), o) <==> o.link == Up && RecentlyRecorded(ttl, offers, k)
  {
    SuppressedIff(ttl, offers, k);
  }

  lemma OffersPrefix(vendor: string, batch: seq<Arrival>, i: nat)
    requires i <= |batch|
    ensures Offers(vendor, batch[..i]) == Offers(vendor, batch)[..i]
  {
  }

  lemma ConcatPrefix(past: seq<Offer>, coming: seq<Offer>, i: nat)
    requires i < |coming|
    ensures (past + coming)[..|past| + i] == past + coming[..i] && (past + coming)[|past| + i] == coming[i]
  {
  }

  lemma {:induction false} VerdictAt(ttl: int, store: Expiries, vendor: string, batch: seq<Arrival>, i: nat)
    requires i < |batch|
    ensures Verdicts(ttl, store, vendor, batch)[i] ==
            IsDuplicate(ttl, StoreAfterAll(ttl, store, Offers(vendor, batch[..i])), OfferOf(vendor, batch[i]))
  {
    if i < |batch| - 1 {
      VerdictAt(ttl, store, vendor, batch[..|batch| - 1], i);
      assert batch[..|batch| - 1][..i] == batch[..i];
    }
  }

  lemma {:induction false} StoreAfterBoth(ttl: int, store: Expiries, xs: seq<Offer>, ys: seq<Offer>)
    ensures StoreAfterAll(ttl, store, xs + ys) == StoreAfterAll(ttl, StoreAfterAll(ttl, store, xs), ys)
  {
    if ys == [] {
      assert xs + ys == xs;
    } else {
      StoreAfterBoth(ttl, store, xs, ys[..|ys| - 1]);
      assert (xs + ys)[..|xs + ys| - 1] == xs + ys[..|ys| - 1];
    }
  }

  lemma AddedTo(xs: seq<Envelope>, x: Envelope)
    ensures multiset(xs + [x]) == multiset(xs) + multiset{x}
  {
  }

  lemma SublistOfMore(xs: seq<Envelope>, ys: seq<Envelope>, y: Envelope)
    requires Sublist(xs, ys)
    ensures Sublist(xs, ys + [y]) && Sublist(xs + [y], ys + [y])
  {
  }

  lemma OneMoreVerdict(batch: seq<Arrival>, verdicts: seq<bool>, n: nat, duplicate: bool)
    requires |verdicts| == |batch| && n < |batch|
    ensures WithVerdict(batch[..n + 1], verdicts[..n + 1], duplicate) ==
            WithVerdict(batch[..n], verdicts[..n], duplicate)
            + if verdicts[n] == duplicate then [batch[n].envelope] else []
  {
    assert batch[..n + 1][..n] == batch[..n] && verdicts[..n + 1][..n] == verdicts[..n];
  }

  lemma StoreAfterNext(ttl: int, store: Expiries, offers: seq<Offer>, n: nat)
    requires n < |offers|
    ensures StoreAfterAll(ttl, store, offers[..n + 1])
            == StoreAfter(ttl, StoreAfterAll(ttl, store, offers[..n]), offers[n])
  {
    assert offers[..n + 1][..n] == offers[..n];
  }

  /** The next check of a batch gives the next verdict. */
  lemma VerdictNext(ttl: int, store: Expiries, vendor: string, batch: seq<Arrival>, n: nat)
    requires n < |batch|
    ensures Verdicts(ttl, store, vendor, batch)[n] ==
            IsDuplicate(ttl, StoreAfterAll(ttl, store, Offers(vendor, batch)[..n]), OfferOf(vendor, batch[n]))
  {
    OffersPrefix(vendor, batch, n);
    VerdictAt(ttl, store, vendor, batch, n);
  }

  /** How a single push ends. */
  datatype Single = Pushed | Lost | PushedUnseen

  /** How the queue takes a batch: not at all, in one pipeline, or, that having raised, one by one. */
  datatype Outcome = NoClient | Pipelined | OneByOne(pipelineApplied: bool, singles: seq<Single>)

  function SingleAt(singles: seq<Single>, i: nat): Single {
    if i < |singles| then singles[i] else Lost
  }

  function Delivered(xs: seq<Envelope>, singles: seq<Single>): seq<Envelope> {
    if xs == [] then []
    else
      var more := Delivered(xs[..|xs| - 1], singles);
      if SingleAt(singles, |xs| - 1) == Lost then more else more + [xs[|xs| - 1]]
  }

  function Acknowledged(n: nat, singles: seq<Single>): nat {
    if n == 0 then 0 else Acknowledged(n - 1, singles) + if SingleAt(singles, n - 1) == Pushed then 1 else 0
  }

  function Queued(passed: seq<Envelope>, outcome: Outcome): seq<Envelope> {
    match outcome
    case NoClient => []
    case Pipelined => passed
    case OneByOne(applied, singles) => (if applied then passed else []) + Delivered(passed, singles)
  }

  function Counted(passed: seq<Envelope>, outcome: Outcome): nat {
    match outcome
    case NoClient => 0
    case Pipelined => |passed|
    case OneByOne(_, singles) => Acknowledged(|passed|, singles)
  }

  class Bridge {
    const ttl: int
    var store: Expiries
    var queue: seq<Envelope>

    constructor (ttl: int)
      ensures this.ttl == ttl && store == map[] && queue == []
    {
      this.ttl, store, queue := ttl, map[], [];
    }

    method CheckDuplicate(o: Offer) returns (duplicate: bool)
      modifies this`store
      ensures duplicate == IsDuplicate(ttl, old(store), o)
      ensures store == StoreAfter(ttl, old(store), o)
    {
      if o.link == Down || ttl <= 0 {
        return false;
      }
      var wasNew := o.key !in store || store[o.key] <= o.now;
      if wasNew {
        store := store[o.key := o.now + ttl];
      }
      return !wasNew && o.link == Up;
    }

    method PushEvents(vendor: string, known: bool, batch: seq<Arrival>, outcome: Outcome) returns (pushed: nat)
      modifies this`store, this`queue
      ensures !known ==> pushed == 0 && store == old(store) && queue == old(queue)
      ensures known ==>
                var passed := Passed(ttl, old(store), vendor, batch);
                && store == StoreAfterAll(ttl, old(store), Offers(vendor, batch))
                && queue == old(queue) + Queued(passed, outcome)
                && pushed == Counted(passed, outcome)
    {
      if !known {
        return 0;
      }
      var deduped := Deduplicate(vendor, batch);
      match outcome
      case NoClient =>
        pushed := 0;
        assert queue == old(queue) + Queued(deduped, outcome);
      case Pipelined =>
        queue := queue + deduped;
        pushed := |deduped|;
      case OneByOne(applied, singles) =>
        if applied {
          queue := queue + deduped;
        }
        pushed := PushOneByOne(deduped, singles);
        assert queue == old(queue) + Queued(deduped, outcome);
    }

    method PushOneByOne(envelopes: seq<Envelope>, singles: seq<Single>) returns (pushed: nat)
      modifies this`queue
      ensures queue == old(queue) + Delivered(envelopes, singles)
      ensures pushed == Acknowledged(|envelopes|, singles)
    {
      pushed := 0;
      for n := 0 to |envelopes|
        invariant queue == old(queue) + Delivered(envelopes[..n], singles)
        invariant pushed == Acknowledged(n, singles)
      {
        assert envelopes[..n + 1][..n] == envelopes[..n];
        var single := SingleAt(singles, n);
        if single != Lost {
          queue := queue + [envelopes[n]];
        }
        if single == Pushed {
          pushed := pushed + 1;
        }
      }
      assert envelopes[..|envelopes|] == envelopes;
    }

    method Deduplicate(vendor: string, batch: seq<Arrival>) returns (deduped: seq<Envelope>)
      modifies this`store
      ensures deduped == Passed(ttl, old(store), vendor, batch)
      ensures store == StoreAfterAll(ttl, old(store), Offers(vendor, batch))
    {
      deduped := [];
      ghost var verdicts, coming := Verdicts(ttl, store, vendor, batch), Offers(vendor, batch);
      for n := 0 to |batch|
        invariant deduped == WithVerdict(batch[..n], verdicts[..n], false)
        invariant store == StoreAfterAll(ttl, old(store), coming[..n])
      {
        VerdictNext(ttl, old(store), vendor, batch, n);
        StoreAfterNext(ttl, old(store), coming, n);
        OneMoreVerdict(batch, verdicts, n, false);
        var duplicate := CheckDuplicate(OfferOf(vendor, batch[n]));
        deduped := if duplicate then deduped else deduped + [batch[n].envelope];
      }
      assert batch[..|batch|] == batch && verdicts[..|batch|] == verdicts && coming[..|batch|] == coming;
    }
  }

  lemma {:induction false} DeliveredInOrder(xs: seq<Envelope>, singles: seq<Single>)
    ensures Sublist(Delivered(xs, singles), xs)
  {
    if xs != [] {
      var init, x := xs[..|xs| - 1], xs[|xs| - 1];
      DeliveredInOrder(init, singles);
      SublistOfMore(Delivered(init, singles), init, x);
      assert xs == init + [x];
    }
  }

  lemma {:induction false} AcknowledgedAreDelivered(xs: seq<Envelope>, singles: seq<Single>)
    ensures Acknowledged(|xs|, singles) <= |Delivered(xs, singles)|
    ensures PushedUnseen !in singles ==> Acknowledged(|xs|, singles) == |Delivered(xs, singles)|
  {
    if xs != [] {
      AcknowledgedAreDelivered(xs[..|xs| - 1], singles);
    }
  }

  // The single push of envelope `i` reaches the queue; one that is not described is lost.
  predicate Arrives(singles: seq<Single>, i: nat) {
    i < |singles| && (singles[i] == Pushed || singles[i] == PushedUnseen)
  }

  lemma DeliveredLast(xs: seq<Envelope>, singles: seq<Single>)
    requires xs != []
    ensures var n := |xs| - 1;
            Delivered(xs, singles) ==
            if Arrives(singles, n) then Delivered(xs[..n], singles) + [xs[n]] else Delivered(xs[..n], singles)
  {
  }

  lemma TakenFromMore(taken: seq<Envelope>, xs: seq<Envelope>, places: seq<nat>)
    requires xs != [] && TakenFrom(taken, xs[..|xs| - 1], places)
    ensures var n := |xs| - 1; TakenFrom(taken, xs, places) && TakenFrom(taken + [xs[n]], xs, places + [n])
  {
  }

  lemma InPlaces(places: seq<nat>, n: nat, i: nat)
    ensures i in places + [n] <==> i in places || i == n
  {
  }

  /** What arrives one by one: the envelopes in order whose push did, whether its answer was seen or not. */
  lemma {:induction false} DeliveredIs(xs: seq<Envelope>, singles: seq<Single>) returns (places: seq<nat>)
    ensures TakenFrom(Delivered(xs, singles), xs, places)
    ensures forall i: nat :: i in places <==> i < |xs| && Arrives(singles, i)
  {
    places := [];
    if xs != [] {
      var n := |xs| - 1;
      var before := DeliveredIs(xs[..n], singles);
      DeliveredLast(xs, singles);
      TakenFromMore(Delivered(xs[..n], singles), xs, before);
      places := if Arrives(singles, n) then before + [n] else before;
      forall i: nat { InPlaces(before, n, i); }
    }
  }

  function AnswersSeen(n: nat, singles: seq<Single>): set<nat> {
    set i: nat | i < n && i < |singles| && singles[i] == Pushed
  }

  lemma OneMoreAnswer(n: nat, singles: seq<Single>)
    ensures |AnswersSeen(n + 1, singles)| ==
            |AnswersSeen(n, singles)| + if n < |singles| && singles[n] == Pushed then 1 else 0
  {
    var before := AnswersSeen(n, singles);
    if n < |singles| && singles[n] == Pushed {
      assert AnswersSeen(n + 1, singles) == before + {n};
    } else {
      assert AnswersSeen(n + 1, singles) == before;
    }
  }

  lemma NoAnswer(singles: seq<Single>)
    ensures AnswersSeen(0, singles) == {}
  {
  }

  /** And what is counted: the answers seen. */
  lemma {:induction false} AcknowledgedIs(n: nat, singles: seq<Single>)
    ensures Acknowledged(n, singles) == |AnswersSeen(n, singles)|
  {
    if n == 0 {
      NoAnswer(singles);
    } else {
      AcknowledgedIs(n - 1, singles);
      OneMoreAnswer(n - 1, singles);
    }
  }

  /** What each way the queue can take a batch leaves in it, and returns. */
  lemma OutcomeIs(passed: seq<Envelope>, applied: bool, singles: seq<Single>)
    returns (places: seq<nat>, delivered: seq<Envelope>)
    ensures Queued(passed, NoClient) == [] && Counted(passed, NoClient) == 0
    ensures Queued(passed, Pipelined) == passed && Counted(passed, Pipelined) == |passed|
    ensures Queued(passed, OneByOne(applied, singles)) == (if applied then passed else []) + delivered
    ensures TakenFrom(delivered, passed, places)
    ensures forall i: nat :: i in places <==> i < |passed| && Arrives(singles, i)
    ensures Counted(passed, OneByOne(applied, singles))
            == |AnswersSeen(|passed|, singles)|
  {
    places := DeliveredIs(passed, singles);
    delivered := Delivered(passed, singles);
    AcknowledgedIs(|passed|, singles);
  }

  /** The count returned never exceeds what reached the queue, and equals it when no reply was lost. */
  lemma CountedIsQueued(passed: seq<Envelope>, outcome: Outcome)
    ensures Counted(passed, outcome) <= |Queued(passed, outcome)|
    ensures outcome.OneByOne? && !outcome.pipelineApplied && PushedUnseen !in outcome.singles ==>
              Counted(passed, outcome) == |Queued(passed, outcome)|
    ensures outcome.OneByOne? ==> Sublist(Delivered(passed, outcome.singles), passed)
  {
    if outcome.OneByOne? {
      AcknowledgedAreDelivered(passed, outcome.singles);
      DeliveredInOrder(passed, outcome.singles);
    }
  }

  /**
   The record is made before the push. An event whose push is lost, offered again to a queue that works, reaches it
   exactly if its record has reached the TTL by then or the store does not answer; else it is gone both times.
   */
  lemma RetryAfterLostPush(ttl: int, vendor: string, e: Envelope, t0: int, t1: int, link: Link,
                           lost: Outcome, later: Outcome)
    requires ttl > 0 && Queued([e], lost) == [] && Queued([e], later) == [e]
    ensures var first, again := [Arrival(e, t0, Up)], [Arrival(e, t1, link)];
            var store := StoreAfterAll(ttl, map[], Offers(vendor, first));
            Queued(Passed(ttl, map[], vendor, first), lost) + Queued(Passed(ttl, store, vendor, again), later)
            == if t1 - t0 < ttl && link == Up then [] else [e]
  {
    SingleArrival(ttl, map[], vendor, Arrival(e, t0, Up));
    var store := StoreAfterAll(ttl, map[], Offers(vendor, [Arrival(e, t0, Up)]));
    SingleArrival(ttl, store, vendor, Arrival(e, t1, link));
    RepeatedOffer(ttl, EnvelopeKey(vendor, e), t0, t1, link);
  }

  lemma RepeatedOffer(ttl: int, key: string, t0: int, t1: int, link: Link)
    requires ttl > 0
    ensures !IsDuplicate(ttl, map[], Offer(key, t0, Up))
    ensures IsDuplicate(ttl, StoreAfter(ttl, map[], Offer(key, t0, Up)), Offer(key, t1, link)) <==>
            t1 - t0 < ttl && link == Up
  {
  }

  lemma SingleArrival(ttl: int, store: Expiries, vendor: string, a: Arrival)
    ensures Passed(ttl, store, vendor, [a]) == if IsDuplicate(ttl, store, OfferOf(vendor, a)) then [] else [a.envelope]
    ensures StoreAfterAll(ttl, store, Offers(vendor, [a])) == StoreAfter(ttl, store, OfferOf(vendor, a))
  {
    var o, d := OfferOf(vendor, a), IsDuplicate(ttl, store, OfferOf(vendor, a));
    assert [a][..0] == [] && [o][..0] == [] && [d][..0] == [];
    assert Offers(vendor, []) == [] && Offers(vendor, [a]) == [o];
    assert StoreAfterAll(ttl, store, [o]) == StoreAfter(ttl, StoreAfterAll(ttl, store, []), o);
    assert Verdicts(ttl, store, vendor, []) == [];
    assert Verdicts(ttl, store, vendor, [a]) == [] + [d] == [d];
    assert WithVerdict([], [], false) == [];
    assert WithVerdict([a], [d], false) == if d then [] else [] + [a.envelope];
  }
}
