/**
 Aging rows out of the hot event store: selected, exported to a file, and deleted. The database reads its clock anew
 for the select and for the delete, in whole seconds; the file is named by the clock of the host that writes it.
 */
module ColdStorage {

  datatype Row = Row(id: int, ingested: int)

  /** An export under way: what it selected, the cutoff it used, and whether its file is written. */
  datatype Job = NoExport | Selected(rows: set<Row>, cutoff: int) | Written(rows: set<Row>, cutoff: int)

  type Archives = map<int, set<Row>>

  /**
   `seconds` is the second of the database's clock in which each file was last written. Rows that a delete removed
   without their being selected before are collected in `gap`, and rows of a file that was written over by one
   without them in `replaced`.
   */
  datatype State = State(
    clock: int, inserted: set<Row>, hot: set<Row>, archives: Archives, seconds: map<int, int>,
    job: Job, gap: set<Row>, replaced: set<Row>)

  function Start(clock: int): State {
    State(clock, {}, {}, map[], map[], NoExport, {}, {})
  }

  function Older(rows: set<Row>, cutoff: int): set<Row> {
    set r | r in rows && r.ingested < cutoff
  }

  /**
   Every step but a failure comes at a time of the database's clock, which may have moved on since the last step.
   Rows are stamped to the millisecond. `host` is what the clock of the writing host shows, which is another one.
   */
  datatype Step =
    | Insert(now: int, ids: set<int>)
    | Select(now: int)
    | Write(now: int, host: int)
    | Delete(now: int)
    | Fail // an exception between any two steps of an export

  function Stamped(ids: set<int>, now: int): set<Row> {
    set i | i in ids :: Row(i, now)
  }

  // An id names one row only, so a batch that would reuse one is not a step.
  predicate NewIds(st: State, ids: set<int>) {
    forall r | r in st.inserted :: r.id !in ids
  }

  predicate Enabled(st: State, s: Step) {
    match s
    case Insert(now, ids) => now >= st.clock && NewIds(st, ids)
    case Select(now) => now >= st.clock && st.job.NoExport?
    case Write(now, _) => now >= st.clock && st.job.Selected?
    case Delete(now) => now >= st.clock && st.job.Written?
    case Fail => !st.job.NoExport?
  }

  // Times are in milliseconds.
  function Second(time: int): int {
    time / 1000
  }

  /** `now() - INTERVAL age`: the database counts back from the whole second. */
  function Cutoff(age: nat, now: int): int {
    1000 * Second(now) - age
  }

  /** One step; `age` is how old a row must be to leave the hot store. */
  function Next(age: nat, st: State, s: Step): State {
    if !Enabled(st, s) then st
    else
      match s
      case Insert(now, ids) =>
        st.(clock := now, inserted := st.inserted + Stamped(ids, now), hot := st.hot + Stamped(ids, now))
      case Select(now) =>
        var cutoff := Cutoff(age, now);
        var rows := Older(st.hot, cutoff);
        st.(clock := now, job := if rows == {} then NoExport else Selected(rows, cutoff))
      case Write(now, host) =>
        var f := Second(host);
        st.(clock := now, archives := st.archives[f := st.job.rows], seconds := st.seconds[f := Second(now)],
            job := Written(st.job.rows, st.job.cutoff),
            replaced := st.replaced + if f in st.archives then st.archives[f] - st.job.rows else {})
      case Delete(now) =>
        var rows := Older(st.hot, Cutoff(age, now));
        st.(clock := now, hot := st.hot - rows, job := NoExport, gap := st.gap + (rows - Older(rows, st.job.cutoff)))
      case Fail => st.(job := NoExport)
  }

  function Run(age: nat, st: State, steps: seq<Step>): State {
    if steps == [] then st else Next(age, Run(age, st, steps[..|steps| - 1]), steps[|steps| - 1])
  }

  ghost predicate Archived(archives: Archives, r: Row) {
    exists f | f in archives :: r in archives[f]
  }

  /******* Where every row is *******/

  /** Archived rows are older than this. */
  function Horizon(age: nat, st: State): int {
    if st.job.NoExport? then Cutoff(age, st.clock) else st.job.cutoff
  }

  ghost predicate Rows(age: nat, st: State) {
    && st.hot <= st.inserted && st.gap <= st.inserted && st.gap !! st.hot
    && (forall r | r in st.inserted :: r.ingested <= st.clock)
    && (forall f, r | f in st.archives && r in st.archives[f] :: r in st.inserted && r.ingested < Horizon(age, st))
    && (forall r | r in st.gap :: !Archived(st.archives, r))
  }

  ghost predicate Exporting(age: nat, st: State) {
    && Horizon(age, st) <= Cutoff(age, st.clock)
    && (!st.job.NoExport? ==> st.job.rows == Older(st.hot, st.job.cutoff))
    && (st.job.Written? ==> forall r | r in st.job.rows :: Archived(st.archives, r))
  }

  ghost predicate Accounted(st: State, r: Row) {
    r in st.hot || Archived(st.archives, r) || r in st.gap || r in st.replaced
  }

  ghost predicate Consistent(age: nat, st: State) {
    Rows(age, st) && Exporting(age, st) && forall r | r in st.inserted :: Accounted(st, r)
  }

  lemma InsertKeeps(age: nat, st: State, now: int, ids: set<int>)
    requires Consistent(age, st) && Enabled(st, Insert(now, ids))
    ensures Consistent(age, Next(age, st, Insert(now, ids)))
  {
  }

  lemma WriteKeeps(age: nat, st: State, now: int, host: int)
    requires Consistent(age, st) && Enabled(st, Write(now, host))
    ensures Consistent(age, Next(age, st, Write(now, host)))
  {
    var st' := Next(age, st, Write(now, host));
    var f := Second(host);
    assert st'.archives[f] == st.job.rows;
    forall r | r in st'.inserted ensures Accounted(st', r) {
      assert Accounted(st, r);
      if Archived(st.archives, r) {
        var g :| g in st.archives && r in st.archives[g];
        assert g != f ==> r in st'.archives[g];
      }
    }
    forall r | r in st'.gap ensures !Archived(st'.archives, r) {
      forall g | g in st'.archives ensures r !in st'.archives[g] {
        assert g != f ==> g in st.archives;
      }
    }
    forall r | r in st.job.rows ensures Archived(st'.archives, r) {
      assert r in st'.archives[f];
    }
  }

  lemma DeleteKeeps(age: nat, st: State, now: int)
    requires Consistent(age, st) && Enabled(st, Delete(now))
    ensures Consistent(age, Next(age, st, Delete(now)))
  {
  }

  lemma {:induction false} RunIsConsistent(age: nat, clock: int, steps: seq<Step>)
    ensures Consistent(age, Run(age, Start(clock), steps))
  {
    if steps != [] {
      var init, s := steps[..|steps| - 1], steps[|steps| - 1];
      RunIsConsistent(age, clock, init);
      var st := Run(age, Start(clock), init);
      if Enabled(st, s) {
        match s
        case Insert(now, ids) => InsertKeeps(age, st, now, ids);
        case Write(now, host) => WriteKeeps(age, st, now, host);
        case Delete(now) => DeleteKeeps(age, st, now);
        case _ => assert forall r | r in st.inserted :: Accounted(st, r);
      }
    }
  }

  /******* What is lost *******/

  predicate Lost(st: State, r: Row) {
    r in st.inserted && r !in st.hot && forall f | f in st.archives :: r !in st.archives[f]
  }

  /******* Writing over a file *******/

  // Nothing is left to select in the present second.
  predicate Swept(age: nat, st: State) {
    st.job.NoExport? && Older(st.hot, Cutoff(age, st.clock)) == {}
  }

  /** What a file written in the present second holds is still hot, or nothing is left to select in it. */
  ghost predicate Timely(age: nat, st: State) {
    && st.seconds.Keys == st.archives.Keys
    && (forall f | f in st.seconds :: st.seconds[f] <= Second(st.clock))
    && (forall f | f in st.archives && st.seconds[f] == Second(st.clock) ::
          && (st.archives[f] <= st.hot || Swept(age, st))
          && (st.job.Selected? ==> st.job.cutoff == Cutoff(age, st.clock)))
  }

  lemma NextIsTimely(age: nat, st: State, s: Step)
    requires Consistent(age, st) && Timely(age, st)
    ensures Timely(age, Next(age, st, s))
  {
    var st' := Next(age, st, s);
    if Enabled(st, s) && s.Insert? {
      assert Older(st'.hot, Cutoff(age, st'.clock)) == Older(st.hot, Cutoff(age, st'.clock));
    }
  }

  lemma {:induction false} RunIsTimely(age: nat, clock: int, steps: seq<Step>)
    ensures Timely(age, Run(age, Start(clock), steps))
  {
    if steps != [] {
      var init := steps[..|steps| - 1];
      RunIsConsistent(age, clock, init);
      RunIsTimely(age, clock, init);
      NextIsTimely(age, Run(age, Start(clock), init), steps[|steps| - 1]);
    }
  }

  /** An export that writes over a file of the same second of the database selected all its rows again. */
  lemma RewriteSelectsAgain(age: nat, st: State, s: Step)
    requires Consistent(age, st) && Timely(age, st) && s.Write? && Enabled(st, s)
    requires Second(s.host) in st.archives && st.seconds[Second(s.host)] == Second(s.now)
    ensures st.archives[Second(s.host)] <= st.job.rows
  {
    assert st.seconds[Second(s.host)] == Second(st.clock);
  }

  /** Files of one name are written in one second of the database's clock. */
  predicate NamesTellSeconds(steps: seq<Step>) {
    forall i, j | 0 <= i < j < |steps| && steps[i].Write? && steps[j].Write? ::
      Second(steps[i].host) == Second(steps[j].host) ==> Second(steps[i].now) == Second(steps[j].now)
  }

  // Step `i` writes the file in that second of the database.
  predicate WroteFile(steps: seq<Step>, i: nat, f: int, second: int) {
    i < |steps| && steps[i].Write? && Second(steps[i].host) == f && Second(steps[i].now) == second
  }

  lemma {:induction false} FilesAreWritten(age: nat, clock: int, steps: seq<Step>, f: int)
    requires f in Run(age, Start(clock), steps).seconds
    ensures exists i: nat :: WroteFile(steps, i, f, Run(age, Start(clock), steps).seconds[f])
  {
    if steps != [] {
      var n := |steps| - 1;
      var init := steps[..n];
      var st, st' := Run(age, Start(clock), init), Run(age, Start(clock), steps);
      if f in st.seconds && st'.seconds[f] == st.seconds[f] {
        FilesAreWritten(age, clock, init, f);
        var i: nat :| WroteFile(init, i, f, st.seconds[f]);
        assert WroteFile(steps, i, f, st.seconds[f]);
      } else {
        assert WroteFile(steps, n, f, st'.seconds[f]);
      }
    }
  }

  lemma {:induction false} NothingReplaced(age: nat, clock: int, steps: seq<Step>)
    requires NamesTellSeconds(steps)
    ensures Run(age, Start(clock), steps).replaced == {}
  {
    if steps != [] {
      var n := |steps| - 1;
      var init, s := steps[..n], steps[n];
      var st := Run(age, Start(clock), init);
      NothingReplaced(age, clock, init);
      RunIsConsistent(age, clock, init);
      RunIsTimely(age, clock, init);
      if s.Write? && Enabled(st, s) && Second(s.host) in st.archives {
        FilesAreWritten(age, clock, init, Second(s.host));
        var i: nat :| WroteFile(init, i, Second(s.host), st.seconds[Second(s.host)]);
        assert steps[i] == init[i];
        RewriteSelectsAgain(age, st, s);
      }
    }
  }

  /**
   Inserting, exporting, deleting and failing in any order: while file names tell seconds of the database's clock
   apart, the rows in no archive and not in the hot store are exactly those a delete removed unselected.
   */
  lemma LostIsTheGap(age: nat, clock: int, steps: seq<Step>, r: Row)
    requires NamesTellSeconds(steps)
    ensures Lost(Run(age, Start(clock), steps), r) <==> r in Run(age, Start(clock), steps).gap
  {
    RunIsConsistent(age, clock, steps);
    NothingReplaced(age, clock, steps);
    var st := Run(age, Start(clock), steps);
    if Lost(st, r) {
      assert Accounted(st, r);
    }
  }

  // Step `k` deletes the row although its export had not selected it.
  predicate DeletesUnselected(age: nat, clock: int, steps: seq<Step>, k: nat, r: Row) {
    && k < |steps| && steps[k].Delete?
    && var st := Run(age, Start(clock), steps[..k]);
       && Enabled(st, steps[k]) && r in st.hot && st.job.cutoff <= r.ingested < Cutoff(age, steps[k].now)
  }

  /** The gap holds exactly the rows whose ingest time fell between the cutoffs of a select and of its delete. */
  lemma {:induction false} GapIff(age: nat, clock: int, steps: seq<Step>, r: Row)
    ensures r in Run(age, Start(clock), steps).gap <==> exists k: nat :: DeletesUnselected(age, clock, steps, k, r)
  {
    if steps != [] {
      var n := |steps| - 1;
      var init := steps[..n];
      GapIff(age, clock, init, r);
      forall k: nat | k < n
        ensures DeletesUnselected(age, clock, init, k, r) <==> DeletesUnselected(age, clock, steps, k, r)
      {
        assert init[..k] == steps[..k];
      }
      if r in Run(age, Start(clock), steps).gap {
        if r in Run(age, Start(clock), init).gap {
          var k: nat :| DeletesUnselected(age, clock, init, k, r);
          assert DeletesUnselected(age, clock, steps, k, r);
        } else {
          assert DeletesUnselected(age, clock, steps, n, r);
        }
      }
    }
  }

  // Every delete comes in the second of its select, as far as the cutoff goes.
  predicate CutoffsAgree(age: nat, clock: int, steps: seq<Step>) {
    forall k | 0 <= k < |steps| && steps[k].Delete? ::
      var st := Run(age, Start(clock), steps[..k]); Enabled(st, steps[k]) ==> Cutoff(age, steps[k].now) == st.job.cutoff
  }

  /** With equal cutoffs nothing is lost, whatever fails. */
  lemma EqualCutoffsLoseNothing(age: nat, clock: int, steps: seq<Step>, r: Row)
    requires NamesTellSeconds(steps) && CutoffsAgree(age, clock, steps)
    ensures !Lost(Run(age, Start(clock), steps), r)
  {
    LostIsTheGap(age, clock, steps, r);
    GapIff(age, clock, steps, r);
    forall k: nat ensures !DeletesUnselected(age, clock, steps, k, r) { }
  }

  /** With no failure each row is in one place only, whenever no export is under way. */
  ghost predicate InOnePlace(st: State) {
    && (forall f, g | f in st.archives && g in st.archives && f != g :: st.archives[f] !! st.archives[g])
    && (forall r | r in st.hot && Archived(st.archives, r) :: st.job.Written? && r in st.job.rows)
  }

  lemma {:induction false} NoFailureNoCopies(age: nat, clock: int, steps: seq<Step>)
    requires Fail !in steps
    ensures InOnePlace(Run(age, Start(clock), steps))
  {
    if steps != [] {
      var n := |steps| - 1;
      var init, s := steps[..n], steps[n];
      NoFailureNoCopies(age, clock, init);
      RunIsConsistent(age, clock, init);
      var st := Run(age, Start(clock), init);
      if Enabled(st, s) {
        StepMakesNoCopies(age, st, s);
      }
    }
  }

  lemma StepMakesNoCopies(age: nat, st: State, s: Step)
    requires Consistent(age, st) && InOnePlace(st) && Enabled(st, s) && s != Fail
    ensures InOnePlace(Next(age, st, s))
  {
  }

  /** The step writes a file over the only one that holds the row, which it does not hold itself. */
  predicate OverwritesOnlyCopy(st: State, s: Step, r: Row) {
    && s.Write? && Enabled(st, s)
    && Second(s.host) in st.archives && r in st.archives[Second(s.host)] && r !in st.job.rows
    && forall g | g in st.archives && g != Second(s.host) :: r !in st.archives[g]
  }

  predicate Loses(age: nat, clock: int, steps: seq<Step>, k: nat, r: Row) {
    || DeletesUnselected(age, clock, steps, k, r)
    || (k < |steps| && OverwritesOnlyCopy(Run(age, Start(clock), steps[..k]), steps[k], r))
  }

  lemma WriteLosesIff(age: nat, st: State, s: Step, r: Row)
    requires Consistent(age, st) && Enabled(st, s) && s.Write?
    ensures Lost(Next(age, st, s), r) <==> Lost(st, r) || OverwritesOnlyCopy(st, s, r)
  {
    var st', f := Next(age, st, s), Second(s.host);
    assert f in st'.archives && st'.archives[f] == st.job.rows;
    assert forall g | g in st.archives && g != f :: g in st'.archives && st'.archives[g] == st.archives[g];
    if OverwritesOnlyCopy(st, s, r) {
      assert r in st.inserted && r !in st.hot;
    }
  }

  lemma DeleteLosesIff(age: nat, st: State, s: Step, r: Row)
    requires Consistent(age, st) && Enabled(st, s) && s.Delete?
    ensures Lost(Next(age, st, s), r) <==>
            Lost(st, r) || (r in st.hot && st.job.cutoff <= r.ingested < Cutoff(age, s.now))
  {
    if r in st.hot && r.ingested < st.job.cutoff {
      assert r in st.job.rows && Archived(st.archives, r);
    }
  }

  lemma OtherStepsLoseNothing(age: nat, st: State, s: Step, r: Row)
    requires Consistent(age, st) && Enabled(st, s) && !s.Write? && !s.Delete?
    ensures Lost(Next(age, st, s), r) <==> Lost(st, r)
  {
  }

  lemma LosesInPrefix(age: nat, clock: int, steps: seq<Step>, k: nat, r: Row)
    requires k + 1 < |steps|
    ensures Loses(age, clock, steps[..|steps| - 1], k, r) <==> Loses(age, clock, steps, k, r)
  {
    assert steps[..|steps| - 1][..k] == steps[..k];
  }

  lemma LastStepLosesIff(age: nat, clock: int, steps: seq<Step>, r: Row)
    requires steps != []
    ensures Lost(Run(age, Start(clock), steps), r) <==>
            Lost(Run(age, Start(clock), steps[..|steps| - 1]), r) || Loses(age, clock, steps, |steps| - 1, r)
  {
    var init, s := steps[..|steps| - 1], steps[|steps| - 1];
    var st := Run(age, Start(clock), init);
    RunIsConsistent(age, clock, init);
    if Enabled(st, s) {
      if s.Write? { WriteLosesIff(age, st, s, r); }
      else if s.Delete? { DeleteLosesIff(age, st, s, r); }
      else { OtherStepsLoseNothing(age, st, s, r); }
    }
  }

  /**
   Whatever the run: a row is lost exactly if some delete removed it beyond the cutoff of its select, or some export
   wrote its file over the only one that held the row.
   */
  lemma {:induction false} LostIff(age: nat, clock: int, steps: seq<Step>, r: Row)
    ensures Lost(Run(age, Start(clock), steps), r) <==> exists k: nat :: Loses(age, clock, steps, k, r)
  {
    if steps != [] {
      var n := |steps| - 1;
      LostIff(age, clock, steps[..n], r);
      LastStepLosesIff(age, clock, steps, r);
      if k: nat :| Loses(age, clock, steps[..n], k, r) { LosesInPrefix(age, clock, steps, k, r); }
      if k: nat :| Loses(age, clock, steps, k, r) && k < n { LosesInPrefix(age, clock, steps, k, r); }
      assert forall k: nat :: Loses(age, clock, steps, k, r) ==> k <= n;
    }
  }

  /******* Two clocks *******/

  /** The clock of the writing host is ahead of the database's by a fixed time. */
  predicate Skewed(steps: seq<Step>, skew: int) {
    forall i | 0 <= i < |steps| && steps[i].Write? :: steps[i].host == steps[i].now + skew
  }

  ghost predicate OnlyGapLost(age: nat, clock: int, steps: seq<Step>) {
    forall r :: Lost(Run(age, Start(clock), steps), r) <==> r in Run(age, Start(clock), steps).gap
  }

  ghost predicate SkewIsSafe(age: nat, skew: int) {
    forall clock, steps {:trigger OnlyGapLost(age, clock, steps)} | Skewed(steps, skew) ::
      OnlyGapLost(age, clock, steps)
  }

  /** With clocks that are whole seconds apart, or with one clock, names do tell seconds. */
  lemma WholeSkewTellsSeconds(steps: seq<Step>, skew: int)
    requires Skewed(steps, skew) && skew % 1000 == 0
    ensures NamesTellSeconds(steps)
  {
    forall i, j | 0 <= i < j < |steps| && steps[i].Write? && steps[j].Write?
      ensures Second(steps[i].host) == Second(steps[j].host) ==> Second(steps[i].now) == Second(steps[j].now)
    {
      ShiftedSecond(steps[i].now, skew);
      ShiftedSecond(steps[j].now, skew);
    }
  }

  lemma ShiftedSecond(time: int, skew: int)
    requires skew % 1000 == 0
    ensures Second(time + skew) == Second(time) + skew / 1000
  {
  }

  /** On one clock only the gap is ever lost, whatever the run. */
  lemma OneClockLosesTheGapOnly(age: nat, clock: int, steps: seq<Step>, r: Row)
    requires Skewed(steps, 0)
    ensures Lost(Run(age, Start(clock), steps), r) <==> r in Run(age, Start(clock), steps).gap
  {
    WholeSkewTellsSeconds(steps, 0);
    LostIsTheGap(age, clock, steps, r);
  }

  /** Two exports on either side of a second of the database, in one second of the host. */
  function ApartSteps(age: nat, skew: int, a: int, b: int): seq<Step> {
    [Insert(-1001 - age, {a}), Insert(-1000 - age, {b}),
     Select(-1), Write(-1, skew - 1), Delete(-1), Select(0), Write(0, skew)]
  }

  /** Otherwise the second file replaces the first, and rows no longer hot are lost outside the gap. */
  lemma ClocksApartLoseRows(age: nat, skew: int, a: int, b: int)
    requires a != b && skew % 1000 != 0
    ensures Skewed(ApartSteps(age, skew, a, b), skew)
    ensures var st := Run(age, Start(-1001 - age), ApartSteps(age, skew, a, b));
            Lost(st, Row(a, -1001 - age)) && Row(a, -1001 - age) !in st.gap
  {
    var steps := ApartSteps(age, skew, a, b);
    var x, y := Row(a, -1001 - age), Row(b, -1000 - age);
    var s2 := Next(age, Next(age, Start(-1001 - age), steps[0]), steps[1]);
    assert s2.hot == {x, y} by { assert Stamped({a}, -1001 - age) == {x} && Stamped({b}, -1000 - age) == {y}; }
    FirstExport(age, s2, skew - 1, x, y);
    var s5 := Next(age, Next(age, Next(age, s2, steps[2]), steps[3]), steps[4]);
    SecondExport(age, s5, skew, y);
    RunOfSeven(age, Start(-1001 - age), steps);
    SameHostSecond(skew);
  }

  lemma SameHostSecond(skew: int)
    requires skew % 1000 != 0
    ensures Second(skew - 1) == Second(skew)
  {
  }

  lemma FirstExport(age: nat, st: State, host: int, x: Row, y: Row)
    requires st.hot == {x, y} && x.ingested == -1001 - age && y.ingested == -1000 - age
    requires st.job.NoExport? && st.archives == map[] && st.clock <= -1 && st.gap == {}
    ensures var st' := Next(age, Next(age, Next(age, st, Select(-1)), Write(-1, host)), Delete(-1));
            && st'.hot == {y} && st'.archives == map[Second(host) := {x}] && st'.gap == {} && st'.job.NoExport?
            && st'.clock == -1 && st'.inserted == st.inserted
  {
    assert Cutoff(age, -1) == -1000 - age;
    assert Older(st.hot, -1000 - age) == {x};
  }

  lemma SecondExport(age: nat, st: State, host: int, y: Row)
    requires st.hot == {y} && y.ingested == -1000 - age && st.job.NoExport? && st.clock <= 0
    ensures var st' := Next(age, Next(age, st, Select(0)), Write(0, host));
            && st'.hot == {y} && st'.archives == st.archives[Second(host) := {y}]
            && st'.gap == st.gap && st'.inserted == st.inserted
  {
    assert Cutoff(age, 0) == 0 - age;
    assert Older(st.hot, 0 - age) == {y};
  }

  /** A fixed skew between the clocks is safe for every run exactly if it is a whole number of seconds. */
  lemma SkewIsSafeIff(age: nat, skew: int)
    ensures SkewIsSafe(age, skew) <==> skew % 1000 == 0
  {
    if skew % 1000 == 0 {
      forall clock, steps | Skewed(steps, skew) ensures OnlyGapLost(age, clock, steps) {
        WholeSkewTellsSeconds(steps, skew);
        forall r { LostIsTheGap(age, clock, steps, r); }
      }
    } else {
      ClocksApartLoseRows(age, skew, 0, 1);
      assert !OnlyGapLost(age, -1001 - age, ApartSteps(age, skew, 0, 1));
    }
  }

  lemma RunOfSeven(age: nat, st: State, s: seq<Step>)
    requires |s| == 7
    ensures var st' := Next(age, Next(age, Next(age, st, s[0]), s[1]), s[2]);
            Run(age, st, s) == Next(age, Next(age, Next(age, Next(age, st', s[3]), s[4]), s[5]), s[6])
  {
    assert s[..7] == s && s[..0] == [];
    forall i | 0 <= i < 7 ensures Run(age, st, s[..i + 1]) == Next(age, Run(age, st, s[..i]), s[i]) {
      assert s[..i + 1][..i] == s[..i];
    }
  }

  /******* The export as it is written *******/

  /** Where an exception strikes. */
  datatype Failure = Never | BeforeWrite | BeforeDelete

  function ExportSteps(select: int, write: int, host: int, delete: int, failure: Failure): seq<Step> {
    match failure
    case Never => [Select(select), Write(write, host), Delete(delete)]
    case BeforeWrite => [Select(select), Fail]
    case BeforeDelete => [Select(select), Write(write, host), Fail]
  }

  class EventStore {
    var hot: set<Row>
    var archives: Archives

    constructor ()
      ensures hot == {} && archives == map[]
    {
      hot, archives := {}, map[];
    }

    /** The clock readings are given; `st` is the state of the whole system that this store is part of. */
    method ExportAndPurge(ghost st: State, age: nat,
                          select: int, ghost write: int, host: int, delete: int, failure: Failure)
      returns (exported: nat)
      requires st.hot == hot && st.archives == archives && st.job.NoExport? && st.clock <= select <= write <= delete
      modifies this
      ensures var st' := Run(age, st, ExportSteps(select, write, host, delete, failure));
              hot == st'.hot && archives == st'.archives && st'.job.NoExport?
      ensures exported == if failure == Never then |Older(old(hot), Cutoff(age, select))| else 0
    {
      ghost var steps := ExportSteps(select, write, host, delete, failure);
      RunOfFew(age, st, steps);
      var rows := Older(hot, Cutoff(age, select));
      if rows == {} {
        return 0;
      }
      if failure == BeforeWrite {
        return 0;
      }
      archives := archives[Second(host) := rows];
      if failure == BeforeDelete {
        return 0;
      }
      hot := hot - Older(hot, Cutoff(age, delete));
      return |rows|;
    }
  }

  lemma RunOfFew(age: nat, st: State, s: seq<Step>)
    requires 2 <= |s| <= 3
    ensures |s| == 2 ==> Run(age, st, s) == Next(age, Next(age, st, s[0]), s[1])
    ensures |s| == 3 ==> Run(age, st, s) == Next(age, Next(age, Next(age, st, s[0]), s[1]), s[2])
  {
    assert s[..|s|] == s && s[..0] == [];
    forall i | 0 <= i < |s| ensures Run(age, st, s[..i + 1]) == Next(age, Run(age, st, s[..i]), s[i]) {
      assert s[..i + 1][..i] == s[..i];
    }
  }
}
