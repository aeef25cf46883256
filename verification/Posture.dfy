/**
 The security posture of one host, computed by two refreshers that write the same cache, and the tier-weighted
 posture over all hosts. Scores are whole tenths of a point, so 1000 is the best; rounding a quotient to tenths is
 any function that `IsRounding` admits.
 */
module Posture {
  import opened Options
  import opened Quotients

  /** Rounds `num / den` tenths. */
  type Rounding = (int, int) -> int

  // The pairs of quotients, over one denominator, to which monotonicity is applied.
  predicate Ordered(a: int, b: int, den: int) {
    den > 0 && a <= b
  }

  predicate Whole(k: int, den: int) {
    den > 0
  }

  /** Monotone, and exact on whole tenths. */
  ghost predicate IsRounding(round: Rounding) {
    && (forall a, b, den {:trigger Ordered(a, b, den)} :: Ordered(a, b, den) ==> round(a, den) <= round(b, den))
    && (forall k, den {:trigger Whole(k, den)} :: Whole(k, den) ==> round(k * den, den) == k)
  }

  /** Rounding down, for one, is a rounding. */
  lemma FloorIsRounding()
    ensures IsRounding((num, den) => if den > 0 then num / den else 0)
  {
    var floor: Rounding := (num, den) => if den > 0 then num / den else 0;
    forall a, b, den | Ordered(a, b, den) ensures floor(a, den) <= floor(b, den) {
      if a / den > b / den {
        Multiples(den, b / den, a / den);
      }
    }
    forall k, den | Whole(k, den) ensures floor(k * den, den) == k {
      if k * den / den > k {
        Multiples(den, k, k * den / den);
      } else if k * den / den < k {
        Multiples(den, k * den / den, k);
      }
    }
  }

  function Clamp(x: int): int {
    if x < 0 then 0 else if x > 1000 then 1000 else x
  }

  predicate InRange(x: int) {
    0 <= x <= 1000
  }

  datatype Outcome = Passed | Failed | NotApplicable

  /** The outcomes of the checks of one host, each as often as it occurred. */
  type Checks = multiset<Outcome>

  function Total(c: Checks): nat {
    c[Passed] + c[Failed]
  }

  datatype Severity = Critical | High | Medium | Low | Unrated

  /** The severities of the vulnerabilities known, each as often as it was found. */
  type Vulnerabilities = multiset<Severity>

  /** A score in tenths that is not rounded yet. */
  datatype Quotient = Quotient(num: int, den: int)

  /** What the queries of one host return; `recent` are the checks of older alerts, `risk` is 0 if there is none. */
  datatype Findings = Findings(
    checks: Checks, recent: Checks, vulnerabilities: Vulnerabilities, risk: Quotient, malware: Quotient)

  /** How many checks and vulnerabilities an analyst has acknowledged. */
  type Acks = multiset<Item>

  datatype Item = Check | Vulnerability

  const NO_ACKS: Acks := multiset{}

  datatype Scores = Scores(checks: Checks, sca: Option<int>, vulnerability: Option<int>, composite: int)

  /******* The parts of a score *******/

  function ChecksOf(f: Findings): Checks {
    if Total(f.checks) == 0 && Total(f.recent) > 0 then f.recent else f.checks
  }

  /** Each acknowledged check counts as passed, up to the number that failed. */
  function Acknowledged(c: Checks, n: nat): Checks {
    var shifted := AtMost(c[Failed], n);
    c[Passed := c[Passed] + shifted][Failed := c[Failed] - shifted]
  }

  function PassRate(round: Rounding, c: Checks): Option<int> {
    if Total(c) == 0 then None else Some(round(c[Passed] * 1000, Total(c)))
  }

  function AtMost(bound: int, x: int): int {
    if x < bound then x else bound
  }

  function Penalty(v: Vulnerabilities): int {
    AtMost(600, v[Critical] * 120) + AtMost(360, v[High] * 60) + AtMost(200, v[Medium] * 20)
  }

  predicate NoneKnown(v: Vulnerabilities) {
    v[Critical] + v[High] + v[Medium] + v[Low] == 0
  }

  /** None when no vulnerability is known at all. */
  function VulnerabilityScore(round: Rounding, v: Vulnerabilities): Option<int> {
    if NoneKnown(v) then None else Some(Clamp(round(1000 - Penalty(v), 1)))
  }

  function AckedVulnerabilityScore(round: Rounding, score: Option<int>, n: nat): Option<int> {
    if score.None? || n == 0 then score else Some(AtMost(1000, round(score.value + n * 40, 1)))
  }

  function RiskComponent(round: Rounding, risk: Quotient): int {
    Clamp(round(1000 * risk.den - risk.num, risk.den))
  }

  function MalwareComponent(round: Rounding, malware: Quotient): int {
    Clamp(round(1000 * malware.den - AtMost(1000 * malware.den, malware.num), malware.den))
  }

  const NEUTRAL := 500

  // In hundredths of a tenth: 30, 25, 25, 10 and 10 percent.
  function Weighted(sca: Option<int>, vulnerability: Option<int>, risk: int, malware: int): int {
    30 * sca.GetOr(NEUTRAL) + 25 * vulnerability.GetOr(NEUTRAL) + 25 * risk + 10 * malware + 10 * sca.GetOr(1000)
  }

  function Composite(round: Rounding, sca: Option<int>, vulnerability: Option<int>, risk: int, malware: int): int {
    round(Weighted(sca, vulnerability, risk, malware), 100)
  }

  function ChecksPart(f: Findings, acks: Acks): Checks {
    Acknowledged(ChecksOf(f), acks[Check])
  }

  function VulnerabilityPart(round: Rounding, f: Findings, acks: Acks): Option<int> {
    AckedVulnerabilityScore(round, VulnerabilityScore(round, f.vulnerabilities), acks[Vulnerability])
  }

  function HostScores(round: Rounding, f: Findings, acks: Acks): Scores {
    var sca, vulnerability := PassRate(round, ChecksPart(f, acks)), VulnerabilityPart(round, f, acks);
    Scores(ChecksPart(f, acks), sca, vulnerability,
           Composite(round, sca, vulnerability, RiskComponent(round, f.risk), MalwareComponent(round, f.malware)))
  }

  /******* The two refreshers *******/

  /** The scheduled refresher; without a table of acknowledgements it uses none. */
  method ComputePosture(round: Rounding, f: Findings, acks: Option<Acks>) returns (s: Scores)
    ensures s == HostScores(round, f, acks.GetOr(NO_ACKS))
  {
    var known := acks.GetOr(NO_ACKS);
    var checks, sca := ScoreChecks(round, f, known[Check]);
    var vulnerability := ScoreVulnerabilities(round, f.vulnerabilities);
    if known[Vulnerability] > 0 && vulnerability.Some? {
      vulnerability := Some(AtMost(1000, round(vulnerability.value + known[Vulnerability] * 40, 1)));
    }
    var compliance := PassRate(round, checks).GetOr(1000);
    s := Compose(round, f, checks, sca, vulnerability, compliance);
  }

  method ScoreChecks(round: Rounding, f: Findings, acked: nat) returns (checks: Checks, sca: Option<int>)
    ensures checks == Acknowledged(ChecksOf(f), acked) && sca == PassRate(round, checks)
  {
    checks := CountChecks(f);
    sca := PassRate(round, checks);
    if acked > 0 && Total(checks) > 0 && checks[Failed] > 0 {
      checks := ShiftChecks(checks, acked);
      sca := PassRate(round, checks);
    }
  }

  method CountChecks(f: Findings) returns (checks: Checks)
    ensures checks == ChecksOf(f)
  {
    checks := f.checks;
    if Total(checks) == 0 && Total(f.recent) > 0 {
      checks := f.recent;
    }
  }

  method ShiftChecks(c: Checks, acked: nat) returns (checks: Checks)
    ensures checks == Acknowledged(c, acked)
  {
    var remaining := if acked >= c[Failed] then 0 else c[Failed] - acked;
    checks := c[Passed := c[Passed] + (c[Failed] - remaining)][Failed := remaining];
  }

  method ScoreVulnerabilities(round: Rounding, v: Vulnerabilities) returns (score: Option<int>)
    ensures score == VulnerabilityScore(round, v)
  {
    score := None;
    if v[Critical] + v[High] + v[Medium] + v[Low] > 0 {
      var raw := 1000;
      raw := raw - AtMost(600, v[Critical] * 120);
      raw := raw - AtMost(360, v[High] * 60);
      raw := raw - AtMost(200, v[Medium] * 20);
      score := Some(Clamp(round(raw, 1)));
    }
  }

  method Compose(round: Rounding, f: Findings, checks: Checks,
                 sca: Option<int>, vulnerability: Option<int>, compliance: int)
    returns (s: Scores)
    requires compliance == sca.GetOr(1000)
    ensures s == Scores(checks, sca, vulnerability,
                        Composite(round, sca, vulnerability,
                                  RiskComponent(round, f.risk), MalwareComponent(round, f.malware)))
  {
    var risk := Clamp(round(1000 * f.risk.den - f.risk.num, f.risk.den));
    var malware := Clamp(round(1000 * f.malware.den - AtMost(1000 * f.malware.den, f.malware.num), f.malware.den));
    var weighted :=
      30 * sca.GetOr(NEUTRAL) + 25 * vulnerability.GetOr(NEUTRAL) + 25 * risk + 10 * malware + 10 * compliance;
    s := Scores(checks, sca, vulnerability, round(weighted, 100));
  }

  /** The refresher behind the portal, written separately, which knows of no acknowledgements. */
  method ComputePostureSync(round: Rounding, f: Findings) returns (s: Scores)
    ensures s == HostScores(round, f, NO_ACKS)
  {
    var checks, sca := ScoreChecksSync(round, f);
    var vulnerability := ScoreVulnerabilitiesSync(round, f.vulnerabilities);
    var compliance := 1000;
    if checks[Passed] + checks[Failed] > 0 {
      compliance := round(checks[Passed] * 1000, checks[Passed] + checks[Failed]);
    }
    var composite := ComposeSync(round, f, sca, vulnerability, compliance);
    s := Scores(checks, sca, vulnerability, composite);
  }

  method ScoreChecksSync(round: Rounding, f: Findings) returns (checks: Checks, sca: Option<int>)
    ensures checks == ChecksOf(f) && sca == PassRate(round, checks)
  {
    checks := f.checks;
    var total := checks[Passed] + checks[Failed];
    sca := if total > 0 then Some(round(checks[Passed] * 1000, total)) else None;
    if total == 0 {
      if f.recent[Passed] + f.recent[Failed] > 0 {
        checks := f.recent;
        total := checks[Passed] + checks[Failed];
        sca := Some(round(checks[Passed] * 1000, total));
      }
    }
  }

  method ScoreVulnerabilitiesSync(round: Rounding, v: Vulnerabilities) returns (score: Option<int>)
    ensures score == VulnerabilityScore(round, v)
  {
    score := None;
    if v[Critical] + v[High] + v[Medium] + v[Low] > 0 {
      var raw := 1000 - AtMost(600, v[Critical] * 120) - AtMost(360, v[High] * 60) - AtMost(200, v[Medium] * 20);
      score := Some(Clamp(round(raw, 1)));
    }
  }

  method ComposeSync(round: Rounding, f: Findings, sca: Option<int>, vulnerability: Option<int>, compliance: int)
    returns (composite: int)
    requires compliance == sca.GetOr(1000)
    ensures composite ==
            Composite(round, sca, vulnerability, RiskComponent(round, f.risk), MalwareComponent(round, f.malware))
  {
    var risk := Clamp(round(1000 * f.risk.den - f.risk.num, f.risk.den));
    var malware := Clamp(round(1000 * f.malware.den - AtMost(1000 * f.malware.den, f.malware.num), f.malware.den));
    var weighted := (match sca case Some(x) => x * 30 case None => NEUTRAL * 30)
      + (match vulnerability case Some(x) => x * 25 case None => NEUTRAL * 25)
      + risk * 25 + malware * 10 + compliance * 10;
    composite := round(weighted, 100);
  }

  /******* Grades *******/

  datatype Grade = F | D | C | B | A | APlus

  function Rank(g: Grade): nat {
    match g
    case F => 0
    case D => 1
    case C => 2
    case B => 3
    case A => 4
    case APlus => 5
  }

  function ScoreToGrade(score: int): Grade {
    if score >= 900 then APlus else if score >= 800 then A else if score >= 700 then B
    else if score >= 550 then C else if score >= 350 then D else F
  }

  function GradeSync(score: int): Grade {
    if score >= 950 then APlus else if score >= 850 then A else if score >= 700 then B
    else if score >= 550 then C else if score >= 400 then D else F
  }

  /** The refreshers grade a score differently exactly in three bands, where the scheduled one is a grade better. */
  lemma GradesDifferIff(score: int)
    ensures Rank(GradeSync(score)) == Rank(ScoreToGrade(score)) -
              if 900 <= score < 950 || 800 <= score < 850 || 350 <= score < 400 then 1 else 0
  {
  }

  /******* Bounds *******/

  lemma Rounded(round: Rounding, a: int, b: int, den: int)
    requires IsRounding(round) && den > 0 && a <= b
    ensures round(a, den) <= round(b, den)
  {
    assert Ordered(a, b, den);
  }

  lemma Exact(round: Rounding, k: int, den: int)
    requires IsRounding(round) && den > 0
    ensures round(k * den, den) == k
  {
    assert Whole(k, den);
  }

  lemma RoundedInRange(round: Rounding, a: int, den: int)
    requires IsRounding(round) && den > 0 && 0 <= a <= 1000 * den
    ensures InRange(round(a, den))
  {
    Rounded(round, 0, a, den);
    Rounded(round, a, 1000 * den, den);
    Exact(round, 0, den);
    Exact(round, 1000, den);
  }

  /** Every composite is between 0 and 1000 tenths, and acknowledging neither loses nor adds a check. */
  lemma CompositeInRange(round: Rounding, f: Findings, acks: Acks)
    requires IsRounding(round)
    ensures var s := HostScores(round, f, acks); InRange(s.composite) && Total(s.checks) == Total(ChecksOf(f))
  {
    RateInRange(round, ChecksPart(f, acks));
    VulnerabilityGrows(round, f.vulnerabilities, 0, acks[Vulnerability]);
    WeightedInRange(round, PassRate(round, ChecksPart(f, acks)), VulnerabilityPart(round, f, acks),
                    RiskComponent(round, f.risk), MalwareComponent(round, f.malware));
  }

  lemma RateInRange(round: Rounding, c: Checks)
    requires IsRounding(round)
    ensures PassRate(round, c).Some? ==> InRange(PassRate(round, c).value)
  {
    if Total(c) > 0 {
      RoundedInRange(round, c[Passed] * 1000, Total(c));
    }
  }

  lemma WeightedInRange(round: Rounding, sca: Option<int>, vulnerability: Option<int>, risk: int, malware: int)
    requires IsRounding(round) && InRange(risk) && InRange(malware)
    requires (sca.Some? ==> InRange(sca.value)) && (vulnerability.Some? ==> InRange(vulnerability.value))
    ensures InRange(Composite(round, sca, vulnerability, risk, malware))
  {
    RoundedInRange(round, Weighted(sca, vulnerability, risk, malware), 100);
  }

  predicate Quiet(f: Findings) {
    f.risk.num == 0 && f.risk.den > 0 && f.malware.num == 0 && f.malware.den > 0
  }

  lemma QuietComponents(round: Rounding, f: Findings)
    requires IsRounding(round) && Quiet(f)
    ensures RiskComponent(round, f.risk) == 1000 && MalwareComponent(round, f.malware) == 1000
  {
    Exact(round, 1000, f.risk.den);
    Exact(round, 1000, f.malware.den);
  }

  lemma NoChecks(f: Findings, acks: Acks)
    requires Total(f.checks) == 0 && Total(f.recent) == 0
    ensures Total(ChecksPart(f, acks)) == 0
  {
  }

  lemma NoVulnerabilityScore(round: Rounding, f: Findings, acks: Acks)
    requires NoneKnown(f.vulnerabilities)
    ensures VulnerabilityPart(round, f, acks).None?
  {
  }

  lemma NeutralComposite(round: Rounding)
    requires IsRounding(round)
    ensures Composite(round, None, None, 1000, 1000) == 725
  {
    Exact(round, 725, 100);
  }

  /** A host of which nothing at all is known scores 72.5 points and is a B to both refreshers. */
  lemma UnknownHostIsB(round: Rounding, f: Findings, acks: Acks)
    requires IsRounding(round) && Quiet(f)
    requires Total(f.checks) == 0 && Total(f.recent) == 0 && NoneKnown(f.vulnerabilities)
    ensures var score := HostScores(round, f, acks).composite;
            score == 725 && ScoreToGrade(score) == B && GradeSync(score) == B
  {
    QuietComponents(round, f);
    NoChecks(f, acks);
    NoVulnerabilityScore(round, f, acks);
    NeutralComposite(round);
  }

  /** The best score takes passed checks and a vulnerability scan that found low ones only. */
  lemma CleanHostIsPerfect(round: Rounding, f: Findings, low: nat)
    requires IsRounding(round) && Quiet(f) && f.checks[Passed] > 0 && f.checks[Failed] == 0
    requires f.vulnerabilities[Critical] == f.vulnerabilities[High] == f.vulnerabilities[Medium] == 0
    requires f.vulnerabilities[Low] == low
    ensures HostScores(round, f, NO_ACKS).composite == if low > 0 then 1000 else 875
  {
    QuietComponents(round, f);
    Exact(round, 1000, f.checks[Passed]);
    Exact(round, 1000, 1);
    Exact(round, 1000, 100);
    Exact(round, 875, 100);
  }

  /******* Acknowledgements *******/

  predicate NoWorse(a: Option<int>, b: Option<int>) {
    (a.Some? <==> b.Some?) && (a.Some? ==> a.value <= b.value)
  }

  lemma RateGrows(round: Rounding, c: Checks, m: nat, n: nat)
    requires IsRounding(round) && m <= n
    ensures NoWorse(PassRate(round, Acknowledged(c, m)), PassRate(round, Acknowledged(c, n)))
  {
    if Total(c) > 0 {
      Rounded(round, Acknowledged(c, m)[Passed] * 1000, Acknowledged(c, n)[Passed] * 1000, Total(c));
    }
  }

  lemma VulnerabilityGrows(round: Rounding, v: Vulnerabilities, m: nat, n: nat)
    requires IsRounding(round) && m <= n
    ensures var s := VulnerabilityScore(round, v);
            && NoWorse(AckedVulnerabilityScore(round, s, m), AckedVulnerabilityScore(round, s, n))
            && (s.Some? ==> InRange(AckedVulnerabilityScore(round, s, n).value))
  {
    var s := VulnerabilityScore(round, v);
    if s.Some? {
      Exact(round, s.value + m * 40, 1);
      Exact(round, s.value + n * 40, 1);
    }
  }

  lemma CompositeGrows(round: Rounding, a: Option<int>, a': Option<int>, b: Option<int>, b': Option<int>,
                       risk: int, malware: int)
    requires IsRounding(round) && NoWorse(a, a') && b.GetOr(NEUTRAL) <= b'.GetOr(NEUTRAL)
    ensures Composite(round, a, b, risk, malware) <= Composite(round, a', b', risk, malware)
  {
    Rounded(round, Weighted(a, b, risk, malware), Weighted(a', b', risk, malware), 100);
  }

  lemma GradesFollowScores(a: int, b: int)
    requires a <= b
    ensures Rank(ScoreToGrade(a)) <= Rank(ScoreToGrade(b)) && Rank(GradeSync(a)) <= Rank(GradeSync(b))
  {
  }

  /** More acknowledgements never lower the composite or worsen the grade. */
  lemma AcksNeverHurt(round: Rounding, f: Findings, fewer: Acks, more: Acks)
    requires IsRounding(round) && fewer <= more
    ensures HostScores(round, f, fewer).composite <= HostScores(round, f, more).composite
    ensures Rank(ScoreToGrade(HostScores(round, f, fewer).composite))
            <= Rank(ScoreToGrade(HostScores(round, f, more).composite))
  {
    RateGrows(round, ChecksOf(f), fewer[Check], more[Check]);
    VulnerabilityGrows(round, f.vulnerabilities, fewer[Vulnerability], more[Vulnerability]);
    CompositeGrows(round, PassRate(round, ChecksPart(f, fewer)), PassRate(round, ChecksPart(f, more)),
                   VulnerabilityPart(round, f, fewer), VulnerabilityPart(round, f, more),
                   RiskComponent(round, f.risk), MalwareComponent(round, f.malware));
    GradesFollowScores(HostScores(round, f, fewer).composite, HostScores(round, f, more).composite);
  }

  /** The portal's refresher never scores a host above the scheduled one, and never grades it better. */
  lemma SyncNeverAbove(round: Rounding, f: Findings, acks: Acks)
    requires IsRounding(round)
    ensures HostScores(round, f, NO_ACKS).composite <= HostScores(round, f, acks).composite
    ensures Rank(GradeSync(HostScores(round, f, NO_ACKS).composite))
            <= Rank(ScoreToGrade(HostScores(round, f, acks).composite))
  {
    AcksNeverHurt(round, f, NO_ACKS, acks);
    GradesDifferIff(HostScores(round, f, NO_ACKS).composite);
  }

  /******* Vulnerabilities *******/

  /** More vulnerabilities never raise the composite of a host that has some already. */
  lemma MoreVulnerabilitiesNeverHelp(round: Rounding, f: Findings, w: Vulnerabilities)
    requires IsRounding(round) && f.vulnerabilities <= w && !NoneKnown(f.vulnerabilities)
    ensures HostScores(round, f.(vulnerabilities := w), NO_ACKS).composite <= HostScores(round, f, NO_ACKS).composite
  {
    MoreScoresLess(round, f.vulnerabilities, w);
    var sca := PassRate(round, ChecksPart(f, NO_ACKS));
    CompositeGrows(round, sca, sca, VulnerabilityScore(round, w), VulnerabilityScore(round, f.vulnerabilities),
                   RiskComponent(round, f.risk), MalwareComponent(round, f.malware));
    WithoutAcks(round, f, f.vulnerabilities);
    WithoutAcks(round, f, w);
  }

  lemma MoreScoresLess(round: Rounding, v: Vulnerabilities, w: Vulnerabilities)
    requires IsRounding(round) && v <= w && !NoneKnown(v)
    ensures NoWorse(VulnerabilityScore(round, w), VulnerabilityScore(round, v))
  {
    PenaltyGrows(v, w);
    ScoreOfPenalty(round, v);
    ScoreOfPenalty(round, w);
  }

  lemma ScoreOfPenalty(round: Rounding, v: Vulnerabilities)
    requires IsRounding(round) && !NoneKnown(v)
    ensures VulnerabilityScore(round, v) == Some(Clamp(1000 - Penalty(v)))
  {
    Exact(round, 1000 - Penalty(v), 1);
  }

  lemma PenaltyGrows(v: Vulnerabilities, w: Vulnerabilities)
    requires v <= w
    ensures Penalty(v) <= Penalty(w)
  {
  }

  /** There is no score exactly when nothing is known, and the score is full exactly when only low ones are. */
  lemma FullScoreIff(round: Rounding, v: Vulnerabilities)
    requires IsRounding(round)
    ensures VulnerabilityScore(round, v).None? <==> v[Critical] == v[High] == v[Medium] == v[Low] == 0
    ensures VulnerabilityScore(round, v) == Some(1000) <==> v[Critical] == v[High] == v[Medium] == 0 && v[Low] > 0
  {
    if !NoneKnown(v) { ScoreOfPenalty(round, v); }
  }

  /** No severity alone can bring the score to zero: the caps leave these combinations. */
  lemma ZeroScoreIff(round: Rounding, v: Vulnerabilities)
    requires IsRounding(round)
    ensures VulnerabilityScore(round, v) == Some(0) <==>
            || (v[Critical] >= 4 && v[High] >= 6 && v[Medium] >= 8)
            || (v[Critical] >= 5 && v[High] >= 6 && v[Medium] >= 2)
            || (v[Critical] >= 5 && v[High] >= 5 && v[Medium] >= 5)
            || (v[Critical] >= 5 && v[High] >= 4 && v[Medium] >= 8)
  {
    if !NoneKnown(v) { ScoreOfPenalty(round, v); }
  }

  lemma WithoutAcks(round: Rounding, f: Findings, w: Vulnerabilities)
    ensures HostScores(round, f.(vulnerabilities := w), NO_ACKS).composite ==
            Composite(round, PassRate(round, ChecksPart(f, NO_ACKS)), VulnerabilityScore(round, w),
                      RiskComponent(round, f.risk), MalwareComponent(round, f.malware))
  {
    var g := f.(vulnerabilities := w);
    assert ChecksPart(g, NO_ACKS) == ChecksPart(f, NO_ACKS);
    assert VulnerabilityPart(round, g, NO_ACKS) == VulnerabilityScore(round, w);
  }

  // Rounding a number of hundredths can take at most one tenth off a shift by whole tenths.
  lemma RoundedShift(round: Rounding, x: int, k: nat)
    requires IsRounding(round)
    ensures round(x + 100 * k, 100) >= round(x, 100) + k - 1
  {
    var q := x / 100;
    Rounded(round, x, (q + 1) * 100, 100);
    Rounded(round, (q + k) * 100, x + 100 * k, 100);
    Exact(round, q + 1, 100);
    Exact(round, q + k, 100);
  }

  lemma PenaltyIsEven(v: Vulnerabilities)
    ensures Penalty(v) % 20 == 0
  {
    assert AtMost(600, v[Critical] * 120) % 20 == 0;
    assert AtMost(360, v[High] * 60) % 20 == 0;
    assert AtMost(200, v[Medium] * 20) % 20 == 0;
  }

  // Five tenths more of a component that weighs a quarter are seen through any rounding.
  lemma CompositeRises(round: Rounding, sca: Option<int>, a: Option<int>, b: Option<int>, risk: int, malware: int)
    requires IsRounding(round) && a.GetOr(NEUTRAL) + 20 <= b.GetOr(NEUTRAL)
    ensures Composite(round, sca, a, risk, malware) < Composite(round, sca, b, risk, malware)
  {
    RoundedShift(round, Weighted(sca, a, risk, malware), 5);
    Rounded(round, Weighted(sca, a, risk, malware) + 500, Weighted(sca, b, risk, malware), 100);
  }

  /**
   A host without any is scored as neutral: so its first vulnerabilities raise the composite exactly if they cost
   under 50 points, and lower it exactly if they cost more.
   */
  lemma FirstVulnerabilitiesMayHelp(round: Rounding, f: Findings, w: Vulnerabilities)
    requires IsRounding(round) && NoneKnown(f.vulnerabilities) && !NoneKnown(w)
    ensures var s, t := HostScores(round, f, NO_ACKS), HostScores(round, f.(vulnerabilities := w), NO_ACKS);
            && (s.composite < t.composite <==> Penalty(w) < 500)
            && (t.composite < s.composite <==> Penalty(w) > 500)
            && (Penalty(w) == 0 ==> s.composite + 124 <= t.composite)
  {
    var sca, first := PassRate(round, ChecksPart(f, NO_ACKS)), VulnerabilityScore(round, w);
    var risk, malware := RiskComponent(round, f.risk), MalwareComponent(round, f.malware);
    WithoutAcks(round, f, f.vulnerabilities);
    WithoutAcks(round, f, w);
    PenaltyIsEven(w);
    ScoreOfPenalty(round, w);
    if Penalty(w) < 500 {
      CompositeRises(round, sca, None, first, risk, malware);
    } else if Penalty(w) > 500 {
      CompositeRises(round, sca, first, None, risk, malware);
    }
    if Penalty(w) == 0 {
      RoundedShift(round, Weighted(sca, None, risk, malware), 125);
    }
  }

  /******* The posture over all hosts *******/

  datatype Host = Host(score: Option<nat>, tier: Option<int>)

  function Weight(h: Host): nat {
    match h.tier
    case Some(1) => 3
    case Some(2) => 2
    case _ => 1
  }

  function ScoreSum(hosts: seq<Host>): nat {
    if hosts == [] then 0
    else ScoreSum(hosts[..|hosts| - 1]) + hosts[|hosts| - 1].score.GetOr(0) * Weight(hosts[|hosts| - 1])
  }

  function ScoredWeight(hosts: seq<Host>): nat {
    if hosts == [] then 0
    else ScoredWeight(hosts[..|hosts| - 1]) + if hosts[|hosts| - 1].score.Some? then Weight(hosts[|hosts| - 1]) else 0
  }

  function AllWeight(hosts: seq<Host>): nat {
    if hosts == [] then 0 else AllWeight(hosts[..|hosts| - 1]) + Weight(hosts[|hosts| - 1])
  }

  /** The weighted mean of the hosts that have a score. */
  function Mean(hosts: seq<Host>): Quotient {
    Quotient(ScoreSum(hosts), ScoredWeight(hosts))
  }

  /** The aggregate query of the portal: a null score drops out of the numerator only. */
  function Aggregate(hosts: seq<Host>): Quotient {
    Quotient(ScoreSum(hosts), AllWeight(hosts))
  }

  /** The scheduled side's loop; None when no host has a score. */
  method OverallScore(round: Rounding, hosts: seq<Host>) returns (overall: Option<int>)
    ensures overall == if Mean(hosts).den == 0 then None else Some(round(Mean(hosts).num, Mean(hosts).den))
  {
    var sum, total := 0, 0;
    for n := 0 to |hosts|
      invariant sum == ScoreSum(hosts[..n]) && total == ScoredWeight(hosts[..n])
    {
      assert hosts[..n + 1][..n] == hosts[..n];
      var h := hosts[n];
      if h.score.None? {
        continue;
      }
      sum := sum + h.score.value * Weight(h);
      total := total + Weight(h);
    }
    assert hosts[..|hosts|] == hosts;
    overall := if total == 0 then None else Some(round(sum, total));
  }

  lemma {:induction false} SumWithin(hosts: seq<Host>, lo: nat, hi: nat)
    requires forall h | h in hosts && h.score.Some? :: lo <= h.score.value <= hi
    ensures lo * ScoredWeight(hosts) <= ScoreSum(hosts) <= hi * ScoredWeight(hosts)
  {
    if hosts != [] {
      var init, h := hosts[..|hosts| - 1], hosts[|hosts| - 1];
      SumWithin(init, lo, hi);
      assert h in hosts;
      if h.score.Some? {
        StillWithin(lo, h.score.value, hi, ScoreSum(init), ScoredWeight(init), Weight(h));
      }
    }
  }

  lemma StillWithin(lo: nat, x: nat, hi: nat, sum: nat, total: nat, w: nat)
    requires lo <= x <= hi && lo * total <= sum <= hi * total
    ensures lo * (total + w) <= sum + x * w <= hi * (total + w)
  {
  }

  /** The overall score lies between any bounds of the host scores, so between the least and the greatest. */
  lemma OverallWithinScores(round: Rounding, hosts: seq<Host>, lo: nat, hi: nat)
    requires IsRounding(round) && ScoredWeight(hosts) > 0
    requires forall h | h in hosts && h.score.Some? :: lo <= h.score.value <= hi
    ensures lo <= round(Mean(hosts).num, Mean(hosts).den) <= hi
  {
    var den := ScoredWeight(hosts);
    SumWithin(hosts, lo, hi);
    Rounded(round, lo * den, ScoreSum(hosts), den);
    Rounded(round, ScoreSum(hosts), hi * den, den);
    Exact(round, lo, den);
    Exact(round, hi, den);
  }

  predicate AtMostQuotient(p: Quotient, q: Quotient) {
    p.num * q.den <= q.num * p.den
  }

  lemma {:induction false} UnscoredWeigh(hosts: seq<Host>)
    ensures ScoredWeight(hosts) <= AllWeight(hosts)
    ensures ScoredWeight(hosts) == AllWeight(hosts) <==> forall h | h in hosts :: h.score.Some?
  {
    if hosts != [] {
      var init, h := hosts[..|hosts| - 1], hosts[|hosts| - 1];
      UnscoredWeigh(init);
      assert forall x :: x in hosts <==> x in init || x == h;
    }
  }

  lemma Product(s: nat, a: nat, b: nat)
    requires a <= b
    ensures s * a <= s * b
    ensures s * b <= s * a <==> a == b || s == 0
  {
  }

  /** The rounding depends on the value of a quotient only, and follows it. */
  ghost predicate RoundsByValue(round: Rounding) {
    && IsRounding(round)
    && forall p: Quotient, q: Quotient {:trigger AtMostQuotient(p, q)} ::
         p.den > 0 && q.den > 0 && AtMostQuotient(p, q) ==> round(p.num, p.den) <= round(q.num, q.den)
  }

  /** Rounding down is such a rounding too. */
  lemma FloorRoundsByValue()
    ensures RoundsByValue((num, den) => if den > 0 then num / den else 0)
  {
    var floor: Rounding := (num, den) => if den > 0 then num / den else 0;
    FloorIsRounding();
    forall p: Quotient, q: Quotient | p.den > 0 && q.den > 0 && AtMostQuotient(p, q)
      ensures floor(p.num, p.den) <= floor(q.num, q.den)
    {
      FloorFollowsValue(p.num, p.den, q.num, q.den);
    }
  }

  lemma FloorFollowsValue(a: int, d: int, b: int, e: int)
    requires d > 0 && e > 0 && a * e <= b * d
    ensures a / d <= b / e
  {
    var x, y := a / d, b / e;
    if x > y {
      Multiples(e, y, x);
      Scaled(d * x, a, e);
      Scaled(b + 1, e * x, d);
      Rearranged(d, x, e);
    }
  }

  lemma Scaled(x: int, y: int, k: int)
    requires x <= y && k > 0
    ensures x * k <= y * k
  {
  }

  lemma Rearranged(d: int, x: int, e: int)
    ensures d * x * e == e * x * d
  {
  }

  /** What the portal returns: the rounded aggregate, or 0 if there is none. */
  function PortalScore(round: Rounding, hosts: seq<Host>): int {
    if AllWeight(hosts) == 0 || ScoredWeight(hosts) == 0 then 0 else round(ScoreSum(hosts), AllWeight(hosts))
  }

  /** The aggregate never exceeds the mean, and equals it exactly when no score is null or all scores are zero. */
  lemma AggregateNeverAbove(hosts: seq<Host>)
    ensures AtMostQuotient(Aggregate(hosts), Mean(hosts))
    ensures AtMostQuotient(Mean(hosts), Aggregate(hosts)) <==>
            (forall h | h in hosts :: h.score.Some?) || forall h | h in hosts :: h.score.GetOr(0) == 0
  {
    UnscoredWeigh(hosts);
    ZeroSum(hosts);
    Product(ScoreSum(hosts), ScoredWeight(hosts), AllWeight(hosts));
  }

  /** So the score that the portal returns never exceeds the other side's, and is the same when no score is null. */
  lemma PortalNeverAbove(round: Rounding, hosts: seq<Host>)
    requires RoundsByValue(round) && ScoredWeight(hosts) > 0
    ensures PortalScore(round, hosts) <= round(Mean(hosts).num, Mean(hosts).den)
    ensures (forall h | h in hosts :: h.score.Some?) || (forall h | h in hosts :: h.score.GetOr(0) == 0) ==>
              PortalScore(round, hosts) == round(Mean(hosts).num, Mean(hosts).den)
  {
    UnscoredWeigh(hosts);
    AggregateNeverAbove(hosts);
    var portal, other := Aggregate(hosts), Mean(hosts);
    assert AtMostQuotient(portal, other);
    if AtMostQuotient(other, portal) {
      assert round(other.num, other.den) <= round(portal.num, portal.den);
    }
  }

  lemma {:induction false} ZeroSum(hosts: seq<Host>)
    ensures ScoreSum(hosts) == 0 <==> forall h | h in hosts :: h.score.GetOr(0) == 0
  {
    if hosts != [] {
      var init, h := hosts[..|hosts| - 1], hosts[|hosts| - 1];
      ZeroSum(init);
      assert forall x :: x in hosts <==> x in init || x == h;
    }
  }
}
