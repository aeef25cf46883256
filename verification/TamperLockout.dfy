/** The lockout that guards stopping and starting the agent with the tamper password. */
module TamperLockout {
  import opened Options
  import opened Quotients

  /** The tamper-protection policy; times are in seconds. */
  datatype Policy = Policy(
    passwordSet: bool, protectStop: bool, bcryptAvailable: bool, hash: string, maxAttempts: nat, lockout: nat)

  datatype Lockout = Lockout(failed: nat, lockedUntil: Option<int>)

  const CLEARED := Lockout(0, None)

  datatype Verdict = Unprotected | Unavailable | LockedOut | Verified | WrongPassword

  type Checker = (string, string) -> bool

  predicate Matches(policy: Policy, check: Checker, password: string) {
    policy.hash != "" && password != "" && check(password, policy.hash)
  }

  predicate Guarded(policy: Policy) {
    policy.passwordSet && policy.protectStop && policy.bcryptAvailable
  }

  predicate IsLocked(l: Lockout, now: int) {
    l.lockedUntil.Some? && l.lockedUntil.value > now
  }

  function AfterFailure(policy: Policy, l: Lockout, now: int): Lockout {
    Lockout(l.failed + 1, if l.failed + 1 >= policy.maxAttempts then Some(now + policy.lockout) else None)
  }

  /** One attempt: the verdict and the counter file it leaves. */
  function Attempt(policy: Policy, l: Lockout, now: int, correct: bool): (Verdict, Lockout) {
    if !policy.passwordSet || !policy.protectStop then (Unprotected, l)
    else if !policy.bcryptAvailable then (Unavailable, l)
    else if IsLocked(l, now) then (LockedOut, l)
    else if correct then (Verified, CLEARED)
    else (WrongPassword, AfterFailure(policy, l, now))
  }

  class TamperGuard {
    const policy: Policy
    var failed: nat
    var lockedUntil: Option<int>

    constructor (policy: Policy)
      ensures this.policy == policy && Saved() == CLEARED
    {
      this.policy := policy;
      failed, lockedUntil := 0, None;
    }

    function Saved(): Lockout
      reads this
    {
      Lockout(failed, lockedUntil)
    }

    method Verify(password: string, now: int, check: Checker) returns (v: Verdict)
      modifies this
      ensures (v, Saved()) == Attempt(policy, old(Saved()), now, Matches(policy, check, password))
    {
      if !policy.passwordSet || !policy.protectStop {
        return Unprotected;
      }
      if !policy.bcryptAvailable {
        return Unavailable;
      }
      if lockedUntil.Some? && lockedUntil.value > now {
        return LockedOut;
      }
      var ok := false;
      if policy.hash != "" && password != "" {
        ok := check(password, policy.hash);
      }
      if ok {
        failed, lockedUntil := 0, None;
        return Verified;
      }
      var attempts := failed + 1;
      failed, lockedUntil := attempts, None;
      if attempts >= policy.maxAttempts {
        lockedUntil := Some(now + policy.lockout);
      }
      return WrongPassword;
    }
  }

  /******* One attempt *******/

  /** What decides each verdict, and what each leaves in the counter file. */
  lemma VerdictIs(policy: Policy, check: Checker, password: string, l: Lockout, now: int)
    ensures var (v, l') := Attempt(policy, l, now, Matches(policy, check, password));
            var guarded := policy.passwordSet && policy.protectStop && policy.bcryptAvailable;
            var locked := l.lockedUntil.Some? && now < l.lockedUntil.value;
            && (v == Unprotected <==> !policy.passwordSet || !policy.protectStop)
            && (v == Unavailable <==> policy.passwordSet && policy.protectStop && !policy.bcryptAvailable)
            && (v == LockedOut <==> guarded && locked)
            && (v == Verified <==>
                guarded && !locked && password != "" && policy.hash != "" && check(password, policy.hash))
            && (v !in {Verified, WrongPassword} ==> l' == l)
            && (v == Verified ==> l' == Lockout(0, None))
            && (v == WrongPassword && l.failed + 1 < policy.maxAttempts ==> l' == Lockout(l.failed + 1, None))
            && (v == WrongPassword && l.failed + 1 >= policy.maxAttempts ==>
                  l' == Lockout(l.failed + 1, Some(now + policy.lockout)))
  {
  }

  /******* Runs of attempts *******/

  datatype Try = Try(now: int, correct: bool)

  predicate Ordered(tries: seq<Try>) {
    forall i, j | 0 <= i < j < |tries| :: tries[i].now <= tries[j].now
  }

  predicate NoneCorrect(tries: seq<Try>) {
    forall t | t in tries :: !t.correct
  }

  function RunFrom(policy: Policy, l: Lockout, tries: seq<Try>): Lockout
    decreases |tries|
  {
    if tries == [] then l else RunFrom(policy, Attempt(policy, l, tries[0].now, tries[0].correct).1, tries[1..])
  }

  /** The times of the attempts that reach the password check. */
  function Checked(policy: Policy, l: Lockout, tries: seq<Try>): seq<int>
    decreases |tries|
  {
    if tries == [] then []
    else
      var (v, l') := Attempt(policy, l, tries[0].now, tries[0].correct);
      (if v == Verified || v == WrongPassword then [tries[0].now] else []) + Checked(policy, l', tries[1..])
  }

  /** Attempts during a lock change nothing, right or wrong. */
  lemma LockedAttemptsChangeNothing(policy: Policy, l: Lockout, now: int, correct: bool)
    requires Guarded(policy) && IsLocked(l, now)
    ensures Attempt(policy, l, now, correct) == (LockedOut, l)
  {
  }

  /** How many lockouts, one after the other, fit between two times. */
  function Fits(policy: Policy, from: int, to: int): nat
    requires policy.lockout > 0
    decreases if to < from then 0 else to - from
  {
    if to < from + policy.lockout then 0 else 1 + Fits(policy, from + policy.lockout, to)
  }

  lemma {:induction false} FitsMonotone(policy: Policy, from: int, from': int, to: int)
    requires policy.lockout > 0 && from <= from'
    ensures Fits(policy, from', to) <= Fits(policy, from, to)
    decreases if to < from then 0 else to - from
  {
    if from' + policy.lockout <= to {
      FitsMonotone(policy, from + policy.lockout, from' + policy.lockout, to);
    }
  }

  lemma {:induction false} FitsIsQuotient(policy: Policy, from: int, to: int)
    requires policy.lockout > 0 && from <= to
    ensures Fits(policy, from, to) == (to - from) / policy.lockout
    decreases if to < from then 0 else to - from
  {
    if from + policy.lockout <= to {
      FitsIsQuotient(policy, from + policy.lockout, to);
      QuotientOfSum(to - from - policy.lockout, policy.lockout);
    } else {
      SmallQuotient(to - from, policy.lockout);
    }
  }

  /** A counter file that attempts can have left: locked for good measure once the maximum is reached. */
  predicate Reachable(policy: Policy, l: Lockout) {
    if l.failed < policy.maxAttempts then l.lockedUntil.None? else l.lockedUntil.Some?
  }

  /** How many wrong attempts can reach the check from `l` when all of them fall between `from` and `to`. */
  function Budget(policy: Policy, l: Lockout, from: int, to: int): nat
    requires policy.lockout > 0 && Reachable(policy, l)
  {
    if l.failed < policy.maxAttempts then policy.maxAttempts - l.failed + Fits(policy, from, to)
    else if l.lockedUntil.value <= to then 1 + Fits(policy, l.lockedUntil.value, to)
    else 0
  }

  lemma {:induction false} CheckedWithinBudget(policy: Policy, l: Lockout, tries: seq<Try>, from: int, to: int)
    requires Guarded(policy) && policy.maxAttempts > 0 && policy.lockout > 0 && Reachable(policy, l)
    requires Ordered(tries) && NoneCorrect(tries) && forall t | t in tries :: from <= t.now <= to
    requires from <= to
    ensures |Checked(policy, l, tries)| <= Budget(policy, l, from, to)
    decreases |tries|
  {
    if tries != [] {
      var t, rest := tries[0], tries[1..];
      assert t in tries;
      var (v, l') := Attempt(policy, l, t.now, t.correct);
      assert Reachable(policy, l');
      forall u | u in rest ensures t.now <= u.now <= to && !u.correct {
        var i :| 0 <= i < |rest| && rest[i] == u;
        assert tries[i + 1] == u;
      }
      CheckedWithinBudget(policy, l', rest, t.now, to);
      FitsMonotone(policy, from, t.now, to);
      if v == WrongPassword && l'.failed >= policy.maxAttempts {
        LockCostsBudget(policy, l, t.now, from, to);
      }
    }
  }

  /** Failing when the maximum is reached pays one check for one lockout. */
  lemma LockCostsBudget(policy: Policy, l: Lockout, now: int, from: int, to: int)
    requires Guarded(policy) && policy.maxAttempts > 0 && policy.lockout > 0 && Reachable(policy, l)
    requires from <= now <= to && !IsLocked(l, now) && l.failed + 1 >= policy.maxAttempts
    ensures 1 + Budget(policy, AfterFailure(policy, l, now), from, to) <= Budget(policy, l, from, to)
  {
    if now + policy.lockout <= to {
      assert Fits(policy, now, to) == 1 + Fits(policy, now + policy.lockout, to);
    }
    FitsMonotone(policy, from, now, to);
    if l.failed >= policy.maxAttempts {
      FitsMonotone(policy, l.lockedUntil.value, now, to);
    }
  }

  /** Wrong passwords alone reach the check at most maxAttempts times plus once per lockout elapsed. */
  lemma AttemptBound(policy: Policy, tries: seq<Try>)
    requires Guarded(policy) && policy.maxAttempts > 0 && policy.lockout > 0
    requires tries != [] && Ordered(tries) && NoneCorrect(tries)
    ensures |Checked(policy, CLEARED, tries)|
            <= policy.maxAttempts + (tries[|tries| - 1].now - tries[0].now) / policy.lockout
  {
    forall t | t in tries ensures tries[0].now <= t.now <= tries[|tries| - 1].now {
      var i :| 0 <= i < |tries| && tries[i] == t;
      assert i == 0 || tries[0].now <= tries[i].now;
      assert i == |tries| - 1 || tries[i].now <= tries[|tries| - 1].now;
    }
    assert 0 == |tries| - 1 || tries[0].now <= tries[|tries| - 1].now;
    CheckedWithinBudget(policy, CLEARED, tries, tries[0].now, tries[|tries| - 1].now);
    FitsIsQuotient(policy, tries[0].now, tries[|tries| - 1].now);
  }

  /** From a counter at its maximum, checked attempts come at or after the lock and at least one lockout apart. */
  lemma {:induction false} CheckedAreSpaced(policy: Policy, l: Lockout, tries: seq<Try>)
    requires Guarded(policy) && policy.maxAttempts > 0 && Reachable(policy, l) && l.failed >= policy.maxAttempts
    requires Ordered(tries) && NoneCorrect(tries)
    ensures var times := Checked(policy, l, tries);
            && (times != [] ==> times[0] >= l.lockedUntil.value)
            && forall i | 0 < i < |times| :: times[i] >= times[i - 1] + policy.lockout
    decreases |tries|
  {
    if tries != [] {
      var t, rest := tries[0], tries[1..];
      var (v, l') := Attempt(policy, l, t.now, t.correct);
      assert t in tries;
      CheckedAreSpaced(policy, l', rest);
      var more := Checked(policy, l', rest);
      if v == WrongPassword {
        var times := [t.now] + more;
        forall i | 0 < i < |times| ensures times[i] >= times[i - 1] + policy.lockout {
          if i > 1 { assert more[i - 1] >= more[i - 2] + policy.lockout; }
        }
      } else {
        assert [] + more == more;
      }
    }
  }

  lemma {:induction false} FirstFailures(policy: Policy, l: Lockout, tries: seq<Try>)
    requires Guarded(policy) && Reachable(policy, l) && l.failed + |tries| <= policy.maxAttempts && NoneCorrect(tries)
    ensures RunFrom(policy, l, tries).failed == l.failed + |tries|
    ensures |Checked(policy, l, tries)| == |tries|
    ensures Reachable(policy, RunFrom(policy, l, tries))
    ensures tries != [] && l.failed + |tries| == policy.maxAttempts ==>
              RunFrom(policy, l, tries).lockedUntil == Some(tries[|tries| - 1].now + policy.lockout)
    decreases |tries|
  {
    if tries != [] {
      assert tries[0] in tries;
      FirstFailures(policy, Attempt(policy, l, tries[0].now, false).1, tries[1..]);
    }
  }

  // Wrong attempts, one at each of the times now, now + lockout, now + 2 * lockout, ...
  function EveryLockout(policy: Policy, now: int, n: nat): seq<Try>
    decreases n
  {
    if n == 0 then [] else [Try(now, false)] + EveryLockout(policy, now + policy.lockout, n - 1)
  }

  lemma {:induction false} EveryLockoutIsChecked(policy: Policy, l: Lockout, now: int, n: nat)
    requires Guarded(policy) && l.failed + 1 >= policy.maxAttempts && !IsLocked(l, now)
    ensures |Checked(policy, l, EveryLockout(policy, now, n))| == n
    decreases n
  {
    if n > 0 {
      EveryLockoutIsChecked(policy, AfterFailure(policy, l, now), now + policy.lockout, n - 1);
    }
  }

  lemma {:induction false} CheckedConcat(policy: Policy, l: Lockout, xs: seq<Try>, ys: seq<Try>)
    ensures Checked(policy, l, xs + ys) == Checked(policy, l, xs) + Checked(policy, RunFrom(policy, l, xs), ys)
    decreases |xs|
  {
    if xs == [] {
      assert xs + ys == ys;
    } else {
      var l' := Attempt(policy, l, xs[0].now, xs[0].correct).1;
      CheckedConcat(policy, l', xs[1..], ys);
      assert (xs + ys)[1..] == xs[1..] + ys;
    }
  }

  lemma OrderedJoin(xs: seq<Try>, ys: seq<Try>, now: int)
    requires Ordered(ys) && (forall t | t in xs :: t.now == now) && forall t | t in ys :: t.now >= now
    ensures Ordered(xs + ys)
  {
    var tries := xs + ys;
    forall i, j | 0 <= i < j < |tries| ensures tries[i].now <= tries[j].now {
      if j < |xs| {
        assert tries[i] in xs && tries[j] in xs;
      } else if i < |xs| {
        assert tries[i] in xs && tries[j] in ys;
      }
    }
  }

  lemma {:induction false} EveryLockoutIsOrdered(policy: Policy, now: int, n: nat)
    ensures var tries := EveryLockout(policy, now, n);
            Ordered(tries) && forall t | t in tries :: t.now >= now && !t.correct
    decreases n
  {
    if n > 0 {
      var rest := EveryLockout(policy, now + policy.lockout, n - 1);
      EveryLockoutIsOrdered(policy, now + policy.lockout, n - 1);
      OrderedJoin([Try(now, false)], rest, now);
    }
  }

  lemma {:induction false} EveryLockoutEnds(policy: Policy, now: int, n: nat)
    ensures var tries := EveryLockout(policy, now, n + 1);
            |tries| == n + 1 && tries[0].now == now && tries[n].now == now + n * policy.lockout
    decreases n
  {
    if n > 0 {
      EveryLockoutEnds(policy, now + policy.lockout, n - 1);
      assert n * policy.lockout == (n - 1) * policy.lockout + policy.lockout;
    } else {
      assert EveryLockout(policy, now + policy.lockout, 0) == [];
    }
  }

  function AtOnce(now: int, n: nat): (r: seq<Try>)
    ensures |r| == n && forall t | t in r :: t == Try(now, false)
  {
    seq(n, i => Try(now, false))
  }

  lemma TightRun(policy: Policy, m: nat, n: nat)
    ensures var tries := AtOnce(0, m) + EveryLockout(policy, 0, n + 1);
            && tries != [] && Ordered(tries) && NoneCorrect(tries)
            && tries[0].now == 0 && tries[|tries| - 1].now == n * policy.lockout
  {
    var first, after := AtOnce(0, m), EveryLockout(policy, 0, n + 1);
    EveryLockoutIsOrdered(policy, 0, n + 1);
    EveryLockoutEnds(policy, 0, n);
    OrderedJoin(first, after, 0);
    assert first != [] ==> (first + after)[0] in first;
  }

  lemma TightChecks(policy: Policy, n: nat)
    requires Guarded(policy) && policy.maxAttempts > 0
    ensures |Checked(policy, CLEARED, AtOnce(0, policy.maxAttempts - 1) + EveryLockout(policy, 0, n + 1))|
            == policy.maxAttempts + n
  {
    var first := AtOnce(0, policy.maxAttempts - 1);
    FirstFailures(policy, CLEARED, first);
    EveryLockoutIsChecked(policy, RunFrom(policy, CLEARED, first), 0, n + 1);
    CheckedConcat(policy, CLEARED, first, EveryLockout(policy, 0, n + 1));
  }

  /** The bound is met: for every number of lockouts some run of wrong passwords over exactly that time meets it. */
  lemma BoundIsTight(policy: Policy, n: nat) returns (tries: seq<Try>)
    requires Guarded(policy) && policy.maxAttempts > 0
    ensures tries != [] && Ordered(tries) && NoneCorrect(tries)
    ensures tries[|tries| - 1].now - tries[0].now == n * policy.lockout
    ensures |Checked(policy, CLEARED, tries)| == policy.maxAttempts + n
  {
    tries := AtOnce(0, policy.maxAttempts - 1) + EveryLockout(policy, 0, n + 1);
    TightRun(policy, policy.maxAttempts - 1, n);
    TightChecks(policy, n);
  }

  /** One right password outside a lock clears everything: what follows runs as from a cleared file. */
  lemma SuccessRestoresTheBudget(policy: Policy, l: Lockout, now: int, tries: seq<Try>)
    requires Guarded(policy) && !IsLocked(l, now)
    ensures RunFrom(policy, l, [Try(now, true)] + tries) == RunFrom(policy, CLEARED, tries)
    ensures Checked(policy, l, [Try(now, true)] + tries) == [now] + Checked(policy, CLEARED, tries)
  {
  }
}
