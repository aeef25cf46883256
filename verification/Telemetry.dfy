/** The bounded event queue between the agent's collectors and the thread that posts telemetry. */
module Telemetry {

  datatype Event = Event(id: int, payload: string)

  // Batches are taken and put back event by event; what is posted is settled, accepted or rejected by status.
  datatype Config = Config(capacity: nat, batchSize: nat)

  datatype Mode = Draining | Posting | PuttingBack

  datatype Settled = Settled(event: Event, accepted: bool)

  /** `held` is the sender's batch, or what is left of it while it is put back. */
  datatype State = State(queue: seq<Event>, mode: Mode, held: seq<Event>, settled: seq<Settled>, produced: seq<Event>)

  const START := State([], Draining, [], [], [])

  function Settle(batch: seq<Event>, accepted: bool): (r: seq<Settled>)
    ensures |r| == |batch| && forall i | 0 <= i < |batch| :: r[i] == Settled(batch[i], accepted)
  {
    if batch == [] then [] else Settle(batch[..|batch| - 1], accepted) + [Settled(batch[|batch| - 1], accepted)]
  }

  /** What was settled with the given status, in order. */
  function WithStatus(settled: seq<Settled>, accepted: bool): seq<Event> {
    if settled == [] then []
    else
      var s := settled[|settled| - 1];
      if s.accepted == accepted then WithStatus(settled[..|settled| - 1], accepted) + [s.event]
      else WithStatus(settled[..|settled| - 1], accepted)
  }

  datatype Step =
    | Produce(event: Event) // a collector's put
    | Take                  // the sender's get
    | Timeout               // the get gives up on an empty queue
    | Post(accepted: bool)
    | PostRaises
    | PutBack

  predicate Enabled(c: Config, st: State, s: Step) {
    match s
    case Produce(_) => |st.queue| < c.capacity
    case Take => st.mode == Draining && |st.held| < c.batchSize && st.queue != []
    case Timeout => st.mode == Draining && |st.held| < c.batchSize && st.queue == []
    case Post(_) => st.mode == Posting
    case PostRaises => st.mode == Posting
    case PutBack => st.mode == PuttingBack && st.held != [] && |st.queue| < c.capacity
  }

  function Next(c: Config, st: State, s: Step): State {
    if !Enabled(c, st, s) then st
    else
      match s
      case Produce(e) => st.(queue := st.queue + [e], produced := st.produced + [e])
      case Take =>
        st.(queue := st.queue[1..], held := st.held + [st.queue[0]],
            mode := if |st.held| + 1 == c.batchSize then Posting else Draining)
      case Timeout => st.(mode := if st.held == [] then Draining else Posting)
      case Post(accepted) => st.(mode := Draining, held := [], settled := st.settled + Settle(st.held, accepted))
      case PostRaises => st.(mode := PuttingBack)
      case PutBack =>
        st.(queue := st.queue + [st.held[0]], held := st.held[1..],
            mode := if |st.held| == 1 then Draining else PuttingBack)
  }

  function Run(c: Config, st: State, steps: seq<Step>): State {
    if steps == [] then st else Next(c, Run(c, st, steps[..|steps| - 1]), steps[|steps| - 1])
  }

  lemma RunAppend(c: Config, st: State, steps: seq<Step>, s: Step)
    ensures Run(c, st, steps + [s]) == Next(c, Run(c, st, steps), s)
  {
  }

  /******* Conservation *******/

  ghost predicate Conserved(st: State) {
    multiset(st.produced) ==
      multiset(st.queue) + multiset(st.held)
      + multiset(WithStatus(st.settled, true)) + multiset(WithStatus(st.settled, false))
  }

  predicate Bounded(c: Config, st: State) {
    && |st.queue| <= c.capacity
    && |st.held| <= c.batchSize
    && (st.mode == Draining ==> |st.held| < c.batchSize || c.batchSize == 0)
    && (st.mode != Draining ==> st.held != [])
  }

  lemma {:induction false} SettleSplits(settled: seq<Settled>, batch: seq<Event>, accepted: bool)
    ensures WithStatus(settled + Settle(batch, accepted), accepted) == WithStatus(settled, accepted) + batch
    ensures WithStatus(settled + Settle(batch, accepted), !accepted) == WithStatus(settled, !accepted)
  {
    if batch == [] {
      assert settled + Settle(batch, accepted) == settled;
    } else {
      var init, e := batch[..|batch| - 1], batch[|batch| - 1];
      SettleSplits(settled, init, accepted);
      var some := settled + Settle(init, accepted);
      assert settled + Settle(batch, accepted) == some + [Settled(e, accepted)];
      OneMoreSettled(some, Settled(e, accepted));
      assert WithStatus(settled, accepted) + batch == WithStatus(settled, accepted) + init + [e];
    }
  }

  lemma OneMoreSettled(settled: seq<Settled>, s: Settled)
    ensures WithStatus(settled + [s], s.accepted) == WithStatus(settled, s.accepted) + [s.event]
    ensures WithStatus(settled + [s], !s.accepted) == WithStatus(settled, !s.accepted)
  {
  }

  lemma FirstOf(xs: seq<Event>)
    requires xs != []
    ensures multiset(xs) == multiset{xs[0]} + multiset(xs[1..])
  {
    assert xs == [xs[0]] + xs[1..];
  }

  lemma AddedTo(xs: seq<Event>, e: Event)
    ensures multiset(xs + [e]) == multiset(xs) + multiset{e}
  {
  }

  lemma TakeConserves(c: Config, st: State)
    requires Conserved(st) && Enabled(c, st, Take)
    ensures Conserved(Next(c, st, Take))
  {
    FirstOf(st.queue);
    AddedTo(st.held, st.queue[0]);
  }

  lemma PutBackConserves(c: Config, st: State)
    requires Conserved(st) && Enabled(c, st, PutBack)
    ensures Conserved(Next(c, st, PutBack))
  {
    FirstOf(st.held);
    AddedTo(st.queue, st.held[0]);
  }

  lemma PostConserves(c: Config, st: State, accepted: bool)
    requires Conserved(st) && Enabled(c, st, Post(accepted))
    ensures Conserved(Next(c, st, Post(accepted)))
  {
    SettleSplits(st.settled, st.held, accepted);
    Joined(WithStatus(st.settled, accepted), st.held);
  }

  lemma Joined(xs: seq<Event>, ys: seq<Event>)
    ensures multiset(xs + ys) == multiset(xs) + multiset(ys)
  {
  }

  /** No step loses, invents or copies an event. */
  lemma NextConserves(c: Config, st: State, s: Step)
    requires Conserved(st)
    ensures Conserved(Next(c, st, s))
  {
    if Enabled(c, st, s) {
      match s
      case Produce(e) =>
        AddedTo(st.produced, e);
        AddedTo(st.queue, e);
      case Take => TakeConserves(c, st);
      case PutBack => PutBackConserves(c, st);
      case Post(accepted) => PostConserves(c, st, accepted);
      case _ =>
    }
  }

  lemma NextIsBounded(c: Config, st: State, s: Step)
    requires Bounded(c, st)
    ensures Bounded(c, Next(c, st, s))
  {
  }

  /** Whatever the interleaving, every event produced is queued, held by the sender, accepted or rejected. */
  lemma {:induction false} NothingIsLost(c: Config, steps: seq<Step>)
    ensures Conserved(Run(c, START, steps)) && Bounded(c, Run(c, START, steps))
  {
    if steps != [] {
      NothingIsLost(c, steps[..|steps| - 1]);
      NextConserves(c, Run(c, START, steps[..|steps| - 1]), steps[|steps| - 1]);
      NextIsBounded(c, Run(c, START, steps[..|steps| - 1]), steps[|steps| - 1]);
    }
  }

  /** Until a post raises, events are settled in the order they were produced. */
  lemma {:induction false} FirstInFirstOut(c: Config, steps: seq<Step>)
    requires PostRaises !in steps
    ensures var st := Run(c, START, steps);
            && st.mode != PuttingBack
            && |st.settled| + |st.held| + |st.queue| == |st.produced|
            && forall i | 0 <= i < |st.produced| :: st.produced[i] == Unsettled(st)[i]
  {
    if steps != [] {
      var init, s := steps[..|steps| - 1], steps[|steps| - 1];
      assert s in steps;
      FirstInFirstOut(c, init);
      var st := Run(c, START, init);
      assert st.produced == Unsettled(st);
      OrderKept(c, st, s);
    }
  }

  function Names(settled: seq<Settled>): (r: seq<Event>)
    ensures |r| == |settled|
  {
    seq(|settled|, i requires 0 <= i < |settled| => settled[i].event)
  }

  // Everything produced, as it would be ordered if nothing had overtaken anything.
  function Unsettled(st: State): (r: seq<Event>)
    ensures |r| == |st.settled| + |st.held| + |st.queue|
  {
    Names(st.settled) + st.held + st.queue
  }

  lemma OrderKept(c: Config, st: State, s: Step)
    requires st.produced == Unsettled(st) && st.mode != PuttingBack && s != PostRaises
    ensures Next(c, st, s).produced == Unsettled(Next(c, st, s)) && Next(c, st, s).mode != PuttingBack
  {
  }

  /******* Getting stuck *******/

  ghost predicate Stuck(c: Config, st: State) {
    forall s :: !Enabled(c, st, s)
  }

  /** The system is stuck exactly when the sender is putting events back into a full queue. */
  lemma StuckIff(c: Config, steps: seq<Step>)
    requires c.batchSize > 0
    ensures var st := Run(c, START, steps);
            Stuck(c, st) <==> st.mode == PuttingBack && |st.queue| == c.capacity
  {
    NothingIsLost(c, steps);
    var st := Run(c, START, steps);
    assert Stuck(c, st) ==>
        !Enabled(c, st, Take) && !Enabled(c, st, Timeout) && !Enabled(c, st, PostRaises) && !Enabled(c, st, PutBack);
  }

  /** It cannot be while the events not settled yet fit into the queue. */
  lemma NotStuckWithinCapacity(c: Config, steps: seq<Step>)
    requires c.batchSize > 0
    requires var st := Run(c, START, steps); |st.queue| + |st.held| <= c.capacity
    ensures !Stuck(c, Run(c, START, steps))
  {
    NothingIsLost(c, steps);
    StuckIff(c, steps);
  }

  /** Once stuck, always stuck: no later step changes anything. */
  lemma {:induction false} StuckForever(c: Config, st: State, steps: seq<Step>)
    requires Stuck(c, st)
    ensures Run(c, st, steps) == st
  {
    if steps != [] {
      StuckForever(c, st, steps[..|steps| - 1]);
    }
  }

  function Produces(e: Event, n: nat): seq<Step> {
    if n == 0 then [] else Produces(e, n - 1) + [Produce(e)]
  }

  lemma {:induction false} ProducesFill(c: Config, st: State, e: Event, n: nat)
    requires |st.queue| + n <= c.capacity
    ensures var st' := Run(c, st, Produces(e, n));
            |st'.queue| == |st.queue| + n && st'.mode == st.mode && st'.held == st.held
  {
    if n > 0 {
      ProducesFill(c, st, e, n - 1);
      RunAppend(c, st, Produces(e, n - 1), Produce(e));
    }
  }

  lemma {:induction false} RunConcat(c: Config, st: State, xs: seq<Step>, ys: seq<Step>)
    ensures Run(c, st, xs + ys) == Run(c, Run(c, st, xs), ys)
  {
    if ys == [] {
      assert xs + ys == xs;
    } else {
      var init, s := ys[..|ys| - 1], ys[|ys| - 1];
      RunConcat(c, st, xs, init);
      assert xs + ys == xs + init + [s];
      RunAppend(c, st, xs + init, s);
    }
  }

  lemma SendingOne(c: Config, e: Event) returns (steps: seq<Step>)
    requires c.capacity > 0 && c.batchSize > 0
    ensures Run(c, START, steps) == State([], Posting, [e], [], [e])
  {
    var s1 := Next(c, START, Produce(e));
    assert [Produce(e), Take][..1] == [Produce(e)] && [Produce(e)][..0] == [];
    assert Run(c, START, [Produce(e)]) == s1;
    assert Run(c, START, [Produce(e), Take]) == Next(c, s1, Take);
    steps := [Produce(e), Take];
    if c.batchSize > 1 {
      RunAppend(c, START, steps, Timeout);
      steps := steps + [Timeout];
    }
  }

  lemma FillWhilePosting(c: Config, e: Event, sending: seq<Step>)
    requires Run(c, START, sending) == State([], Posting, [e], [], [e])
    ensures var st := Run(c, START, sending + Produces(e, c.capacity));
            |st.queue| == c.capacity && st.mode == Posting && st.held == [e]
  {
    ProducesFill(c, Run(c, START, sending), e, c.capacity);
    RunConcat(c, START, sending, Produces(e, c.capacity));
  }

  /** For every capacity and batch size there is a run that gets stuck, with one event more than the queue holds. */
  lemma StuckIsReachable(c: Config, e: Event) returns (steps: seq<Step>)
    requires c.capacity > 0 && c.batchSize > 0
    ensures Stuck(c, Run(c, START, steps))
    ensures var st := Run(c, START, steps); |st.queue| + |st.held| == c.capacity + 1
  {
    var sending := SendingOne(c, e);
    FillWhilePosting(c, e, sending);
    RunAppend(c, START, sending + Produces(e, c.capacity), PostRaises);
    steps := sending + Produces(e, c.capacity) + [PostRaises];
    StuckIff(c, steps);
  }

  /******* The sender's own loops *******/

  datatype Reply = Status(ok: bool) | Raised

  function Least(a: nat, b: nat): nat {
    if a < b then a else b
  }

  /** The sender with the queue it shares; here nobody else touches the queue while a method runs. */
  class TelemetrySender {
    const config: Config
    var queue: seq<Event>

    constructor (config: Config)
      ensures this.config == config && queue == []
    {
      this.config, queue := config, [];
    }

    method Drain() returns (batch: seq<Event>)
      modifies this
      ensures var n := Least(config.batchSize, |old(queue)|);
              batch == old(queue)[..n] && queue == old(queue)[n..]
    {
      batch := [];
      while |batch| < config.batchSize && queue != []
        invariant |batch| <= config.batchSize && |batch| <= |old(queue)|
        invariant batch == old(queue)[..|batch|] && queue == old(queue)[|batch|..]
      {
        batch, queue := batch + [queue[0]], queue[1..];
      }
    }

    /** Posts a batch; `blocked` is what could not be put back before the queue was full. */
    method Send(batch: seq<Event>, reply: Reply) returns (settled: seq<Settled>, blocked: seq<Event>)
      requires |queue| <= config.capacity
      modifies this
      ensures reply.Status? ==> settled == Settle(batch, reply.ok) && queue == old(queue) && blocked == []
      ensures reply.Raised? ==>
                var n := Least(|batch|, config.capacity - |old(queue)|);
                settled == [] && queue == old(queue) + batch[..n] && blocked == batch[n..]
    {
      if reply.Status? {
        return Settle(batch, reply.ok), [];
      }
      settled := [];
      var n := 0;
      while n < |batch| && |queue| < config.capacity
        invariant n <= |batch| && |queue| == |old(queue)| + n <= config.capacity
        invariant queue == old(queue) + batch[..n]
      {
        assert batch[..n + 1] == batch[..n] + [batch[n]];
        queue := queue + [batch[n]];
        n := n + 1;
      }
      blocked := batch[n..];
    }
  }

  function Times(s: Step, n: nat): seq<Step> {
    if n == 0 then [] else Times(s, n - 1) + [s]
  }

  lemma Shift(xs: seq<Event>, n: nat)
    requires n < |xs|
    ensures xs[n..] != [] && xs[n..][0] == xs[n] && xs[n..][1..] == xs[n + 1..] && xs[..n + 1] == xs[..n] + [xs[n]]
  {
  }

  // The state after taking the first `n` events of the queue.
  function TakeSome(c: Config, st: State, n: nat): State
    requires n <= |st.queue|
  {
    st.(queue := st.queue[n..], held := st.queue[..n],
        mode := if n > 0 && n == c.batchSize then Posting else Draining)
  }

  lemma TakeNone(c: Config, st: State)
    requires st.mode == Draining && st.held == []
    ensures TakeSome(c, st, 0) == st
  {
    assert st.queue[0..] == st.queue && st.queue[..0] == [];
  }

  lemma TakeNext(c: Config, st: State, n: nat)
    requires st.mode == Draining && n < |st.queue| && n < c.batchSize
    ensures Next(c, TakeSome(c, st, n), Take) == TakeSome(c, st, n + 1)
  {
    Shift(st.queue, n);
  }

  /** Draining undisturbed is a run of the sender's steps. */
  lemma {:induction false} DrainIsARun(c: Config, st: State, n: nat)
    requires st.mode == Draining && st.held == [] && n <= |st.queue| && n <= c.batchSize
    ensures Run(c, st, Times(Take, n)) == TakeSome(c, st, n)
  {
    if n == 0 {
      TakeNone(c, st);
    } else {
      DrainIsARun(c, st, n - 1);
      RunAppend(c, st, Times(Take, n - 1), Take);
      TakeNext(c, st, n - 1);
    }
  }

  // The state after putting back the first `n` events it holds.
  function PutBackSome(st: State, n: nat): State
    requires n <= |st.held|
  {
    st.(queue := st.queue + st.held[..n], held := st.held[n..],
        mode := if n > 0 && n == |st.held| then Draining else PuttingBack)
  }

  lemma PutBackNone(st: State)
    requires st.mode == PuttingBack
    ensures PutBackSome(st, 0) == st
  {
    assert st.queue + st.held[..0] == st.queue && st.held[0..] == st.held;
  }

  /** Putting back undisturbed is a run of the sender's steps, and it blocks as soon as the queue is full. */
  lemma {:induction false} PutBackIsARun(c: Config, st: State, n: nat)
    requires st.mode == PuttingBack && n <= |st.held| && |st.queue| + n <= c.capacity
    ensures Run(c, st, Times(PutBack, n)) == PutBackSome(st, n)
  {
    if n == 0 {
      PutBackNone(st);
    } else {
      PutBackIsARun(c, st, n - 1);
      RunAppend(c, st, Times(PutBack, n - 1), PutBack);
      PutBackNext(c, st, n - 1);
    }
  }

  lemma PutBackNext(c: Config, st: State, n: nat)
    requires n < |st.held| && |st.queue| + n < c.capacity
    ensures Next(c, PutBackSome(st, n), PutBack) == PutBackSome(st, n + 1)
  {
    Shift(st.held, n);
    assert st.queue + st.held[..n] + [st.held[n]] == st.queue + (st.held[..n] + [st.held[n]]);
  }

  /******* A whole round of the sender, undisturbed *******/

  /** Gets until the batch is full or the queue is empty, when one more get times out. */
  function Gets(c: Config, queue: seq<Event>): seq<Step> {
    var n := Least(c.batchSize, |queue|);
    Times(Take, n) + if n < c.batchSize then [Timeout] else []
  }

  lemma GetsRun(c: Config, st: State)
    requires st.mode == Draining && st.held == [] && st.queue != [] && c.batchSize > 0
    ensures var n := if |st.queue| < c.batchSize then |st.queue| else c.batchSize;
            Run(c, st, Gets(c, st.queue)) == st.(queue := st.queue[n..], held := st.queue[..n], mode := Posting)
  {
    var n := if |st.queue| < c.batchSize then |st.queue| else c.batchSize;
    DrainIsARun(c, st, n);
    if n < c.batchSize {
      RunAppend(c, st, Times(Take, n), Timeout);
    } else {
      assert Times(Take, n) + [] == Times(Take, n);
    }
  }

  /** A round whose post is answered settles the oldest events, a batch of them or all there are, in order. */
  lemma AnsweredRoundIs(c: Config, st: State, accepted: bool)
    requires st.mode == Draining && st.held == [] && st.queue != [] && c.batchSize > 0
    ensures var n := if |st.queue| < c.batchSize then |st.queue| else c.batchSize;
            var next := Run(c, st, Gets(c, st.queue) + [Post(accepted)]);
            && next == st.(queue := st.queue[n..], settled := next.settled)
            && |next.settled| == |st.settled| + n && next.settled[..|st.settled|] == st.settled
            && forall i | 0 <= i < n :: next.settled[|st.settled| + i] == Settled(st.queue[i], accepted)
  {
    GetsRun(c, st);
    RunAppend(c, st, Gets(c, st.queue), Post(accepted));
  }

  /** A round whose post raises puts the same events behind the others, in order, and settles none. */
  lemma RaisedRoundIs(c: Config, st: State)
    requires st.mode == Draining && st.held == [] && st.queue != [] && c.batchSize > 0 && |st.queue| <= c.capacity
    ensures var n := if |st.queue| < c.batchSize then |st.queue| else c.batchSize;
            Run(c, st, Gets(c, st.queue) + [PostRaises] + Times(PutBack, Least(n, c.capacity - (|st.queue| - n))))
            == st.(queue := st.queue[n..] + st.queue[..n])
  {
    var n := if |st.queue| < c.batchSize then |st.queue| else c.batchSize;
    var posting := st.(queue := st.queue[n..], held := st.queue[..n], mode := Posting);
    var raised := posting.(mode := PuttingBack);
    GetsRun(c, st);
    RunAppend(c, st, Gets(c, st.queue), PostRaises);
    RunConcat(c, st, Gets(c, st.queue) + [PostRaises], Times(PutBack, n));
    PutBackIsARun(c, raised, n);
    assert raised.held[..n] == st.queue[..n] && raised.held[n..] == [];
  }

  /** A round that finds the queue empty does nothing. */
  lemma EmptyRoundIs(c: Config, st: State)
    requires st.mode == Draining && st.held == [] && st.queue == [] && c.batchSize > 0
    ensures Run(c, st, Gets(c, st.queue)) == st
  {
    assert Times(Take, 0) + [Timeout] == [Timeout];
    RunAppend(c, st, [], Timeout);
    assert [] + [Timeout] == [Timeout];
  }

  /** Outside its turn a step does nothing: one get too many, a timeout with an event there, a post without a batch. */
  lemma OutOfTurn(c: Config, st: State, accepted: bool)
    ensures st.mode != Draining ==> Next(c, st, Take) == st && Next(c, st, Timeout) == st
    ensures st.queue != [] ==> Next(c, st, Timeout) == st
    ensures |st.held| >= c.batchSize ==> Next(c, st, Take) == st && Next(c, st, Timeout) == st
    ensures st.mode != Posting ==> Next(c, st, Post(accepted)) == st && Next(c, st, PostRaises) == st
    ensures st.mode != PuttingBack || |st.queue| >= c.capacity ==> Next(c, st, PutBack) == st
  {
  }
}
