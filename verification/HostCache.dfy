/**
 The host posture cache: a refresh loads the agent list, upserts one row per agent and then evicts every other
 row. There are two refreshers, the portal's and the scheduled one. Removing a host and setting its tier go to
 the same tables.
 */
module HostCache {
  import opened Options
  import opened HostDedup

  datatype Row = Row(agent: Agent, score: real, tier: int)

  type Cache = map<string, Row>

  const DEFAULT_TIER := 3
  const RESERVED_ID := "000"

  function Ids(agents: seq<Agent>): set<string> {
    set a | a in agents :: a.id
  }

  /** Insert, or update everything but the tier. */
  function Upserted(cache: Cache, a: Agent, score: Option<real>): Cache {
    if score.None? then cache
    else cache[a.id := Row(a, score.value, if a.id in cache then cache[a.id].tier else DEFAULT_TIER)]
  }

  function Outcome(outcomes: map<string, real>, id: string): Option<real> {
    if id in outcomes then Some(outcomes[id]) else None
  }

  function UpsertedAll(cache: Cache, agents: seq<Agent>, outcomes: map<string, real>): Cache {
    if agents == [] then cache
    else
      var a := agents[|agents| - 1];
      Upserted(UpsertedAll(cache, agents[..|agents| - 1], outcomes), a, Outcome(outcomes, a.id))
  }

  function CountComputed(agents: seq<Agent>, outcomes: map<string, real>): nat {
    if agents == [] then 0
    else CountComputed(agents[..|agents| - 1], outcomes) + if agents[|agents| - 1].id in outcomes then 1 else 0
  }

  function Evicted(cache: Cache, agents: seq<Agent>): Cache {
    map id | id in cache && id in Ids(agents) :: cache[id]
  }

  function MarkRemoved(rows: seq<RegistryRow>, id: string): (r: seq<RegistryRow>)
    ensures |r| == |rows|
    ensures forall i | 0 <= i < |rows| :: r[i] == if rows[i].id == id then rows[i].(removed := true) else rows[i]
  {
    seq(|rows|, i requires 0 <= i < |rows| => if rows[i].id == id then rows[i].(removed := true) else rows[i])
  }

  predicate HasRow(rows: seq<RegistryRow>, id: string) {
    exists r | r in rows :: r.id == id
  }

  datatype Refresher = Portal | Scheduled

  /** The agents that a refresh keeps of the merged ones: only the portal's has the IP pass. */
  ghost function Listed(kind: Refresher, merged: seq<Agent>): seq<Agent> {
    if kind.Portal? then Deduplicated(merged) else Champions(merged, StemKey)
  }

  /** The cache after a whole refresh; one that finds no agents changes nothing. */
  ghost function Refreshed(kind: Refresher, alerts: seq<AlertRow>, edr: seq<RegistryRow>, collectors: seq<RegistryRow>,
                           cache: Cache, now: int, outcomes: map<string, real>): Cache {
    var agents := Listed(kind, Merged(alerts, edr, collectors, now));
    if agents == [] then cache else Evicted(UpsertedAll(cache, agents, outcomes), agents)
  }

  datatype Response = Deleted | Refused | NotFound | Invalid | Updated

  /** The tables, and the operations on them as they run when nothing interleaves. */
  class Database {
    var edr: seq<RegistryRow>
    var collectors: seq<RegistryRow>
    var alerts: seq<AlertRow>
    var cache: Cache

    constructor ()
      ensures edr == [] && collectors == [] && alerts == [] && cache == map[]
    {
      edr, collectors, alerts, cache := [], [], [], map[];
    }

    /** The portal's refresh. `outcomes` holds the posture of every agent whose computation succeeds. */
    method Refresh(now: int, outcomes: map<string, real>) returns (refreshed: nat)
      modifies this`cache
      ensures cache == Refreshed(Portal, alerts, edr, collectors, old(cache), now, outcomes)
      ensures refreshed == CountComputed(Listed(Portal, Merged(alerts, edr, collectors, now)), outcomes)
    {
      refreshed := 0;
      var agents := CollectAgents(alerts, edr, collectors, now);
      if agents == [] {
        return;
      }
      refreshed := UpsertAll(agents, outcomes);
      cache := Evicted(cache, agents);
    }

    /** The scheduled refresh. */
    method RefreshScheduled(now: int, outcomes: map<string, real>) returns (refreshed: nat)
      modifies this`cache
      ensures cache == Refreshed(Scheduled, alerts, edr, collectors, old(cache), now, outcomes)
      ensures refreshed == CountComputed(Listed(Scheduled, Merged(alerts, edr, collectors, now)), outcomes)
    {
      var agents := CollectAllHosts(alerts, edr, collectors, now);
      refreshed := UpsertAll(agents, outcomes);
      if agents != [] {
        cache := Evicted(cache, agents);
      }
    }

    method UpsertAll(agents: seq<Agent>, outcomes: map<string, real>) returns (refreshed: nat)
      modifies this`cache
      ensures cache == UpsertedAll(old(cache), agents, outcomes)
      ensures refreshed == CountComputed(agents, outcomes)
    {
      refreshed := 0;
      for n := 0 to |agents|
        invariant cache == UpsertedAll(old(cache), agents[..n], outcomes)
        invariant refreshed == CountComputed(agents[..n], outcomes)
      {
        assert agents[..n + 1][..n] == agents[..n];
        var a := agents[n];
        if a.id in outcomes {
          cache := Upserted(cache, a, Some(outcomes[a.id]));
          refreshed := refreshed + 1;
        }
      }
      assert agents[..|agents|] == agents;
    }

    method SetTier(id: string, tier: int) returns (r: Response)
      modifies this`cache
      ensures r == Updated <==> tier in {1, 2, 3} && id in old(cache)
      ensures r == Invalid <==> tier !in {1, 2, 3}
      ensures cache == if r == Updated then old(cache)[id := old(cache)[id].(tier := tier)] else old(cache)
    {
      if tier !in {1, 2, 3} {
        return Invalid;
      }
      if id !in cache {
        return NotFound;
      }
      cache := cache[id := cache[id].(tier := tier)];
      return Updated;
    }

    method Delete(id: string) returns (r: Response)
      modifies this`edr, this`collectors, this`cache
      ensures r == Refused <==> id == RESERVED_ID
      ensures r == NotFound <==>
                id != RESERVED_ID && !HasRow(old(edr), id) && !HasRow(old(collectors), id) && id !in old(cache)
      ensures r == Refused ==> edr == old(edr) && collectors == old(collectors) && cache == old(cache)
      ensures r != Refused ==>
                && edr == MarkRemoved(old(edr), id) && collectors == MarkRemoved(old(collectors), id)
                && cache == old(cache) - {id}
    {
      if id == RESERVED_ID {
        return Refused;
      }
      var hit := HasRow(edr, id) || HasRow(collectors, id) || id in cache;
      edr := MarkRemoved(edr, id);
      collectors := MarkRemoved(collectors, id);
      cache := cache - {id};
      r := if hit then Deleted else NotFound;
    }
  }

  lemma IdsOfLast(agents: seq<Agent>)
    requires DistinctIds(agents) && agents != []
    ensures var init, a := agents[..|agents| - 1], agents[|agents| - 1];
            DistinctIds(init) && a.id !in Ids(init) && Ids(agents) == Ids(init) + {a.id}
  {
  }

  lemma ComputedOfLast(ids: set<string>, id: string, keys: set<string>)
    requires id !in ids
    ensures |(ids + {id}) * keys| == |ids * keys| + if id in keys then 1 else 0
  {
    if id in keys {
      assert (ids + {id}) * keys == ids * keys + {id};
    } else {
      assert (ids + {id}) * keys == ids * keys;
    }
  }

  /** The agents counted are those computed. */
  lemma {:induction false} CountIs(agents: seq<Agent>, outcomes: map<string, real>)
    requires DistinctIds(agents)
    ensures CountComputed(agents, outcomes) == |Ids(agents) * outcomes.Keys|
  {
    if agents == [] {
      assert Ids(agents) * outcomes.Keys == {};
    } else {
      IdsOfLast(agents);
      CountIs(agents[..|agents| - 1], outcomes);
      ComputedOfLast(Ids(agents[..|agents| - 1]), agents[|agents| - 1].id, outcomes.Keys);
    }
  }

  /******* What a refresh does to each row *******/

  lemma {:induction false} UpsertedAllAt(cache: Cache, agents: seq<Agent>, outcomes: map<string, real>, id: string)
    requires DistinctIds(agents)
    ensures var after := UpsertedAll(cache, agents, outcomes);
            && (id in after <==> id in cache || (id in Ids(agents) && id in outcomes))
            && (id in after ==> after[id].tier == if id in cache then cache[id].tier else DEFAULT_TIER)
            && (id in cache && !(id in Ids(agents) && id in outcomes) ==> after[id] == cache[id])
  {
    if agents != [] {
      IdsOfLast(agents);
      UpsertedAllAt(cache, agents[..|agents| - 1], outcomes, id);
    }
  }

  lemma {:induction false} UpsertedAgent(cache: Cache, agents: seq<Agent>, outcomes: map<string, real>, a: Agent)
    requires DistinctIds(agents) && a in agents && a.id in outcomes
    ensures var after := UpsertedAll(cache, agents, outcomes);
            a.id in after && after[a.id].agent == a && after[a.id].score == outcomes[a.id]
  {
    var init, last := agents[..|agents| - 1], agents[|agents| - 1];
    IdsOfLast(agents);
    if a != last {
      assert agents == init + [last];
      assert a in init && a.id in Ids(init);
      UpsertedAgent(cache, init, outcomes, a);
    }
  }

  /** A host that was not in the cache starts in tier 3. */
  lemma NewHostsAreOfTierThree(cache: Cache, agents: seq<Agent>, outcomes: map<string, real>, id: string)
    requires DistinctIds(agents) && id !in cache && id in UpsertedAll(cache, agents, outcomes)
    ensures UpsertedAll(cache, agents, outcomes)[id].tier == 3
  {
    UpsertedAllAt(cache, agents, outcomes, id);
  }

  /**
   After a refresh that found agents, every row belongs to a survivor, every survivor whose posture was computed
   has a fresh row, a failed one keeps the row it had, and no surviving row changes its tier.
   */
  lemma RefreshedRows(cache: Cache, agents: seq<Agent>, outcomes: map<string, real>, id: string)
    requires DistinctIds(agents)
    ensures var after := Evicted(UpsertedAll(cache, agents, outcomes), agents);
            && (id in after <==> id in Ids(agents) && (id in cache || id in outcomes))
            && (id in after && id in cache ==> after[id].tier == cache[id].tier)
            && (id in after && id !in cache ==> after[id].tier == DEFAULT_TIER)
            && (id in after && id !in outcomes ==> after[id] == cache[id])
            && forall a | a in agents && a.id == id && id in outcomes ::
                 after[id].agent == a && after[id].score == outcomes[id]
  {
    var upserted := UpsertedAll(cache, agents, outcomes);
    UpsertedAllAt(cache, agents, outcomes, id);
    forall a | a in agents && a.id == id && id in outcomes
      ensures upserted[id].agent == a && upserted[id].score == outcomes[id]
    {
      UpsertedAgent(cache, agents, outcomes, a);
    }
  }
}
