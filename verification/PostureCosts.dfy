/** What each finding costs a host, and what each tier weighs, in points and not in terms of the formula. */
module PostureCosts {
  import opened Options
  import opened Posture

  function Least(x: int, y: int): int {
    if x < y then x else y
  }

  function Less(x: int, y: int): int {
    if y < x then x - y else 0
  }

  /******* One host *******/

  /** Three points for each critical, 1.5 for each high and half a one for each medium vulnerability, up to bounds. */
  function VulnerabilityCost(v: Vulnerabilities): int {
    Least(250, 30 * Least(5, v[Critical]) + 15 * Least(6, v[High]) + 5 * Least(10, v[Medium]))
  }

  /** The checks of the agent count, or else those of recent alerts. */
  function Counted(f: Findings): Checks {
    if f.checks[Passed] + f.checks[Failed] > 0 then f.checks else f.recent
  }

  /** With `k` failed ones acknowledged, if there are as many, the checks have a pass rate `5 * a` tenths below full. */
  predicate FallsShort(c: Checks, k: nat, a: nat) {
    (c[Passed] + Least(c[Failed], k)) * 1000 == (1000 - 5 * a) * (c[Passed] + c[Failed])
  }

  /** Unknown checks cost 15 points, known ones 0.4 for each point they fall short. */
  function CheckCost(c: Checks, a: nat): int {
    if c[Passed] + c[Failed] == 0 then 150 else 2 * a
  }

  lemma RateIs(round: Rounding, f: Findings, acks: Acks, a: nat)
    requires IsRounding(round) && FallsShort(Counted(f), acks[Check], a)
    ensures PassRate(round, ChecksPart(f, acks)) ==
            if Counted(f)[Passed] + Counted(f)[Failed] == 0 then None else Some(1000 - 5 * a)
  {
    var total := Counted(f)[Passed] + Counted(f)[Failed];
    if total > 0 { Exact(round, 1000 - 5 * a, total); }
  }

  /** The checks of the score: each acknowledged failure has passed. */
  lemma ChecksAre(round: Rounding, f: Findings, acks: Acks)
    ensures var c, s := Counted(f), HostScores(round, f, acks);
            && s.checks[Passed] == c[Passed] + Least(c[Failed], acks[Check])
            && s.checks[Failed] == c[Failed] - Least(c[Failed], acks[Check])
  {
  }

  lemma RiskIs(round: Rounding, risk: Quotient, r: nat)
    requires IsRounding(round) && risk.den > 0 && risk.num == 4 * r * risk.den
    ensures RiskComponent(round, risk) == 1000 - 4 * Least(250, r)
  {
    ShortOf(1000, 4 * r, risk.den);
    Exact(round, 1000 - 4 * r, risk.den);
  }

  lemma MalwareIs(round: Rounding, malware: Quotient, m: nat)
    requires IsRounding(round) && malware.den > 0 && malware.num == 10 * m * malware.den
    ensures MalwareComponent(round, malware) == 1000 - 10 * Least(100, m)
  {
    var n := Least(100, m);
    LeastScaled(1000, 10 * m, malware.den);
    ShortOf(1000, 10 * n, malware.den);
    Exact(round, 1000 - 10 * n, malware.den);
  }

  lemma ShortOf(x: int, y: int, den: int)
    ensures x * den - y * den == (x - y) * den
  {
  }

  lemma LeastScaled(x: int, y: int, den: int)
    requires den > 0
    ensures AtMost(x * den, y * den) == Least(x, y) * den
  {
    if x < y { Ordered(x, y, den); } else { Ordered(y, x, den); }
  }

  lemma Ordered(x: int, y: int, den: int)
    requires x <= y && den > 0
    ensures x * den <= y * den && (x < y ==> x * den < y * den)
  {
  }

  predicate NoVulnerability(v: Vulnerabilities) {
    v[Critical] == 0 && v[High] == 0 && v[Medium] == 0 && v[Low] == 0
  }

  /** Unknown vulnerabilities cost 12.5 points; each one acknowledged takes one point off the cost of known ones. */
  function AckedVulnerabilityCost(v: Vulnerabilities, n: nat): int {
    if NoVulnerability(v) then 125 else Less(VulnerabilityCost(v), 10 * n)
  }

  lemma VulnerabilitiesAre(round: Rounding, f: Findings, acks: Acks)
    requires IsRounding(round)
    ensures VulnerabilityPart(round, f, acks) ==
            if NoVulnerability(f.vulnerabilities) then None
            else Some(1000 - 4 * AckedVulnerabilityCost(f.vulnerabilities, acks[Vulnerability]))
  {
    var v, n := f.vulnerabilities, acks[Vulnerability];
    if !NoneKnown(v) {
      ScoreOfPenalty(round, v);
      assert Clamp(1000 - Penalty(v)) == 1000 - 4 * VulnerabilityCost(v);
      Exact(round, 1000 - 4 * VulnerabilityCost(v) + n * 40, 1);
    }
  }

  /**
   All components at once, in tenths of a point: the checks and the vulnerabilities cost what is said above, the risk
   score costs a quarter of itself and malware a tenth, up to 25 and 10 points.
   */
  lemma CompositeIs(round: Rounding, f: Findings, acks: Acks, a: nat, r: nat, m: nat)
    requires IsRounding(round) && FallsShort(Counted(f), acks[Check], a)
    requires f.risk.den > 0 && f.risk.num == 4 * r * f.risk.den
    requires f.malware.den > 0 && f.malware.num == 10 * m * f.malware.den
    ensures HostScores(round, f, acks).composite ==
            1000 - CheckCost(Counted(f), a) - AckedVulnerabilityCost(f.vulnerabilities, acks[Vulnerability])
            - Least(250, r) - Least(100, m)
  {
    var composite := 1000 - CheckCost(Counted(f), a) - AckedVulnerabilityCost(f.vulnerabilities, acks[Vulnerability])
                     - Least(250, r) - Least(100, m);
    RateIs(round, f, acks, a);
    VulnerabilitiesAre(round, f, acks);
    RiskIs(round, f.risk, r);
    MalwareIs(round, f.malware, m);
    Exact(round, composite, 100);
  }

  /** The component scores that go with it. */
  lemma ComponentsAre(round: Rounding, f: Findings, acks: Acks, a: nat)
    requires IsRounding(round) && FallsShort(Counted(f), acks[Check], a)
    ensures var s, known := HostScores(round, f, acks), Counted(f)[Passed] + Counted(f)[Failed] > 0;
            && s.sca == (if known then Some(1000 - 5 * a) else None)
            && s.vulnerability ==
               if NoVulnerability(f.vulnerabilities) then None
               else Some(1000 - 4 * AckedVulnerabilityCost(f.vulnerabilities, acks[Vulnerability]))
  {
    RateIs(round, f, acks, a);
    VulnerabilitiesAre(round, f, acks);
  }

  /******* Grades *******/

  /** The thresholds of the two refreshers, from D to A+. */
  lemma GradesAre(score: int, n: nat)
    requires 1 <= n <= 5
    ensures Rank(ScoreToGrade(score)) >= n <==> score >= [350, 550, 700, 800, 900][n - 1]
    ensures Rank(GradeSync(score)) >= n <==> score >= [400, 550, 700, 850, 950][n - 1]
  {
  }

  /******* All hosts *******/

  predicate Plain(tier: Option<int>) {
    tier != Some(1) && tier != Some(2)
  }

  lemma OneMore(hosts: seq<Host>, h: Host)
    ensures ScoreSum(hosts + [h]) == ScoreSum(hosts) + h.score.GetOr(0) * Weight(h)
    ensures ScoredWeight(hosts + [h]) == ScoredWeight(hosts) + if h.score.Some? then Weight(h) else 0
    ensures AllWeight(hosts + [h]) == AllWeight(hosts) + Weight(h)
  {
    assert (hosts + [h])[..|hosts|] == hosts;
  }

  lemma Several(hosts: seq<Host>, score: Option<nat>, tier: Option<int>)
    requires Plain(tier)
    ensures var h, x, w := Host(score, tier), score.GetOr(0), if score.Some? then 1 else 0;
            && ScoreSum(hosts + [h] + [h]) == ScoreSum(hosts) + 2 * x
            && ScoredWeight(hosts + [h] + [h]) == ScoredWeight(hosts) + 2 * w
            && AllWeight(hosts + [h] + [h]) == AllWeight(hosts) + 2
            && ScoreSum(hosts + [h] + [h] + [h]) == ScoreSum(hosts) + 3 * x
            && ScoredWeight(hosts + [h] + [h] + [h]) == ScoredWeight(hosts) + 3 * w
            && AllWeight(hosts + [h] + [h] + [h]) == AllWeight(hosts) + 3
  {
    var h := Host(score, tier);
    OneMore(hosts, h);
    OneMore(hosts + [h], h);
    OneMore(hosts + [h] + [h], h);
  }

  lemma OfTier(hosts: seq<Host>, score: Option<nat>, tier: int)
    requires tier == 1 || tier == 2
    ensures var h, n := Host(score, Some(tier)), 4 - tier;
            && ScoreSum(hosts + [h]) == ScoreSum(hosts) + n * score.GetOr(0)
            && ScoredWeight(hosts + [h]) == ScoredWeight(hosts) + n * (if score.Some? then 1 else 0)
            && AllWeight(hosts + [h]) == AllWeight(hosts) + n
  {
    OneMore(hosts, Host(score, Some(tier)));
  }

  /** A host of tier 1 counts as three of another tier than 1 and 2, and one of tier 2 as two, in both scores. */
  lemma TiersCountAs(hosts: seq<Host>, score: Option<nat>, tier: Option<int>)
    requires Plain(tier)
    ensures var h := Host(score, tier);
            && Mean(hosts + [Host(score, Some(1))]) == Mean(hosts + [h] + [h] + [h])
            && Aggregate(hosts + [Host(score, Some(1))]) == Aggregate(hosts + [h] + [h] + [h])
            && Mean(hosts + [Host(score, Some(2))]) == Mean(hosts + [h] + [h])
            && Aggregate(hosts + [Host(score, Some(2))]) == Aggregate(hosts + [h] + [h])
  {
    OfTier(hosts, score, 1);
    OfTier(hosts, score, 2);
    Several(hosts, score, tier);
  }

  function Sum(hosts: seq<Host>): nat {
    if hosts == [] then 0 else Sum(hosts[1..]) + hosts[0].score.GetOr(0)
  }

  function Scored(hosts: seq<Host>): nat {
    if hosts == [] then 0 else Scored(hosts[1..]) + if hosts[0].score.Some? then 1 else 0
  }

  lemma {:induction false} SumOfOneMore(hosts: seq<Host>, h: Host)
    ensures Sum(hosts + [h]) == Sum(hosts) + h.score.GetOr(0)
    ensures Scored(hosts + [h]) == Scored(hosts) + if h.score.Some? then 1 else 0
  {
    if hosts == [] {
      assert [h][1..] == [];
      assert hosts + [h] == [h];
    } else {
      SumOfOneMore(hosts[1..], h);
      assert (hosts + [h])[1..] == hosts[1..] + [h];
    }
  }

  /** Without tiers 1 and 2 the mean is that of the scores there are, and the aggregate divides by all hosts. */
  lemma {:induction false} PlainMean(hosts: seq<Host>)
    requires forall h | h in hosts :: Plain(h.tier)
    ensures Mean(hosts) == Quotient(Sum(hosts), Scored(hosts))
    ensures Aggregate(hosts) == Quotient(Sum(hosts), |hosts|)
  {
    if hosts != [] {
      var init, h := hosts[..|hosts| - 1], hosts[|hosts| - 1];
      PlainMean(init);
      assert hosts == init + [h];
      SumOfOneMore(init, h);
      OneMore(init, h);
    }
  }

  lemma {:induction false} NothingScored(hosts: seq<Host>)
    requires forall h | h in hosts :: h.score.None?
    ensures ScoredWeight(hosts) == 0
  {
    if hosts != [] {
      NothingScored(hosts[..|hosts| - 1]);
      assert hosts[|hosts| - 1] in hosts;
    }
  }

  /** When no host has a score, or there is no host, the portal returns zero. */
  lemma PortalOfNone(round: Rounding, hosts: seq<Host>)
    requires forall h | h in hosts :: h.score.None?
    ensures PortalScore(round, hosts) == 0
  {
    NothingScored(hosts);
  }
}
