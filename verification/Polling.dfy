/** Waiting for the cloud: a condition is checked at most so many times, with growing sleeps in between. */
module Polling {

  datatype Check = Done | Broken | NotYet

  datatype Verdict = Success | Failure | Timeout

  /** Sleeps grow by a factor; without jitter and without cap. */
  datatype Backoff = Backoff(duration: real, factor: real, steps: nat)

  // The common delays, and those for creating an SFS Turbo share, in seconds.
  const COMMON := Backoff(2.0, 1.02, 30)
  const SHARE_CREATION := Backoff(15.0, 1.02, 30)

  // ---------- What a wait amounts to ----------

  /** The first terminal check among the first n, or n. */
  ghost function FirstTerminal(checks: nat -> Check, n: nat): (k: nat)
    ensures k <= n
    ensures forall i: nat | i < k :: checks(i) == NotYet
    ensures k < n ==> checks(k) != NotYet
  {
    if n == 0 then 0
    else
      var k := FirstTerminal(checks, n - 1);
      if k < n - 1 || checks(n - 1) != NotYet then k else n
  }

  function Power(x: real, n: nat): real {
    if n == 0 then 1.0 else x * Power(x, n - 1)
  }

  /** The first n sleeps in all. */
  function Slept(b: Backoff, n: nat): real {
    if n == 0 then 0.0 else Slept(b, n - 1) + b.duration * Power(b.factor, n - 1)
  }

  /** The sum of a geometric series: Duration * (Factor^n - 1) / (Factor - 1). */
  lemma {:induction false} SleptInAll(b: Backoff, n: nat)
    ensures Slept(b, n) * (b.factor - 1.0) == b.duration * (Power(b.factor, n) - 1.0)
  {
    if n == 0 {
    } else {
      SleptInAll(b, n - 1);
      GeometricStep(b.duration, b.factor, Power(b.factor, n - 1), Slept(b, n - 1), Power(b.factor, n), Slept(b, n));
    }
  }

  lemma GeometricStep(d: real, f: real, p: real, s: real, q: real, t: real)
    requires s * (f - 1.0) == d * (p - 1.0) && q == f * p && t == s + d * p
    ensures t * (f - 1.0) == d * (q - 1.0)
  {
    assert (s + d * p) * (f - 1.0) == s * (f - 1.0) + d * p * (f - 1.0);
    assert d * p * (f - 1.0) == d * (p * f) - d * p;
  }

  /** Checks until the first terminal one, at most as many as there are steps, and sleeps only between checks. */
  method ExponentialBackoff(b: Backoff, checks: nat -> Check) returns (v: Verdict, made: nat, slept: real)
    ensures var k := FirstTerminal(checks, b.steps);
            && (v == if k == b.steps then Timeout else if checks(k) == Done then Success else Failure)
            && made == (if k == b.steps then b.steps else k + 1)
            && slept == Slept(b, if made == 0 then 0 else made - 1)
  {
    var steps, duration := b.steps, b.duration;
    made, slept := 0, 0.0;
    while steps > 0
      invariant made == b.steps - steps && 0 <= steps <= b.steps
      invariant steps == 0 ==> b.steps == 0
      invariant forall i: nat | i < made :: checks(i) == NotYet
      invariant slept == Slept(b, made) && duration == b.duration * Power(b.factor, made)
    {
      made := made + 1;
      ghost var k := FirstTerminal(checks, b.steps);
      assert k < b.steps ==> checks(k) != NotYet;
      match checks(made - 1) {
        case Done => assert k == made - 1; v := Success; return;
        case Broken => assert k == made - 1; v := Failure; return;
        case NotYet =>
      }
      if steps == 1 { break; }
      steps := steps - 1;
      slept, duration := slept + duration, duration * b.factor;
    }
    assert made == b.steps;
    v := Timeout;
  }

  lemma PowerBound()
    ensures 1.0 < Power(1.02, 29) < 1.7759
  {
    var p4 := 1.02 * 1.02 * 1.02 * 1.02;
    assert 1.0 < p4 < 1.082433;
    assert Power(1.02, 1) == 1.02;
    PowerSum(1.02, 2, 2);
    PowerSum(1.02, 1, 1);
    PowerSum(1.02, 4, 4);
    PowerSum(1.02, 8, 8);
    PowerSum(1.02, 16, 8);
    PowerSum(1.02, 24, 4);
    PowerSum(1.02, 28, 1);
    assert Power(1.02, 4) == p4;
    Squeeze(Power(1.02, 4), 1.082433, Power(1.02, 4), 1.082433);
    assert Power(1.02, 8) < 1.171662;
    Squeeze(Power(1.02, 8), 1.171662, Power(1.02, 8), 1.171662);
    assert Power(1.02, 16) < 1.372792;
    Squeeze(Power(1.02, 16), 1.372792, Power(1.02, 8), 1.171662);
    assert Power(1.02, 24) < 1.608449;
    Squeeze(Power(1.02, 24), 1.608449, Power(1.02, 4), 1.082433);
    assert Power(1.02, 28) < 1.741039;
  }

  lemma Squeeze(a: real, boundA: real, b: real, boundB: real)
    requires 1.0 < a < boundA && 1.0 < b < boundB
    ensures 1.0 < a * b < boundA * boundB
  {
    assert a * b < boundA * b && boundA * b < boundA * boundB && a * b > a;
  }

  lemma {:induction false} PowerSum(x: real, m: nat, n: nat)
    ensures Power(x, m + n) == Power(x, m) * Power(x, n)
  {
    if m == 0 {
    } else {
      PowerSum(x, m - 1, n);
      Associate(x, Power(x, m - 1), Power(x, n));
      assert m + n - 1 == m - 1 + n && Power(x, m + n) == x * Power(x, m - 1 + n);
    }
  }

  lemma Associate(x: real, p: real, q: real)
    ensures x * (p * q) == x * p * q
  {
  }

  /** A wait with the common delays sleeps for less than 78 seconds, one for a new share for less than ten
      minutes. */
  lemma WaitsAreBounded(n: nat)
    requires n < 30
    ensures Slept(COMMON, n) < 78.0 && Slept(SHARE_CREATION, n) < 600.0
  {
    SleptGrows(COMMON, n, 29);
    SleptGrows(SHARE_CREATION, n, 29);
    SleptInAll(COMMON, 29);
    SleptInAll(SHARE_CREATION, 29);
    PowerBound();
  }

  lemma {:induction false} SleptGrows(b: Backoff, m: nat, n: nat)
    requires m <= n && b.duration >= 0.0 && b.factor >= 0.0
    ensures Slept(b, m) <= Slept(b, n)
    decreases n
  {
    if m == n {
    } else {
      SleptGrows(b, m, n - 1);
      PowerNonNegative(b.factor, n - 1);
    }
  }

  lemma {:induction false} PowerNonNegative(x: real, n: nat)
    requires x >= 0.0
    ensures Power(x, n) >= 0.0
  {
    if n == 0 {
    } else {
      PowerNonNegative(x, n - 1);
    }
  }

  // ---------- The waits of the drivers ----------

  /** A resource as it is seen: gone, not readable, or with its status. */
  datatype View = Missing | Unreadable | Seen(status: string)

  datatype Goal = CinderFinished | SnapshotReady | ShareAvailable | ShareExpanded | ShareDeleted

  function CheckFor(goal: Goal, view: View): Check {
    match goal
    case CinderFinished =>
      if !view.Seen? then Broken
      else if view.status == "available" || view.status == "in-use" then Done
      else if view.status == "error" then Broken
      else NotYet
    case SnapshotReady => CheckBetween(view, "creating", "available")
    case ShareAvailable => CheckBetween(view, "100", "200")
    case ShareExpanded => CheckBetween(view, "121", "221")
    case ShareDeleted => if view.Missing? then Done else if view.Unreadable? then Broken else NotYet
  }

  function CheckBetween(view: View, pending: string, reached: string): Check {
    if !view.Seen? then Broken
    else if view.status == reached then Done
    else if view.status == pending then NotYet
    else Broken
  }

  function BackoffFor(goal: Goal): Backoff {
    if goal.ShareAvailable? then SHARE_CREATION else COMMON
  }

  function ChecksFor(goal: Goal, views: nat -> View): nat -> Check {
    (i: nat) => CheckFor(goal, views(i))
  }

  /** One check succeeds after others that were on the way. */
  ghost predicate Succeeds(checks: nat -> Check, n: nat) {
    exists k: nat :: k < n && checks(k) == Done && forall i: nat | i < k :: checks(i) == NotYet
  }

  /** One of thirty views has the status to be reached, and all before it the one on the way. */
  ghost predicate Comes(views: nat -> View, pending: string, reached: string) {
    exists k: nat :: k < 30 && views(k) == Seen(reached) && forall i: nat | i < k :: views(i) == Seen(pending)
  }

  ghost predicate Stays(views: nat -> View, pending: string) {
    forall i: nat | i < 30 :: views(i) == Seen(pending)
  }

  /** A volume that is neither created nor failed yet, whatever its status says. */
  predicate InCreation(view: View) {
    view.Seen? && view.status !in {"available", "in-use", "error"}
  }

  /** What each goal means in the statuses that are seen. */
  ghost predicate Reached(goal: Goal, views: nat -> View) {
    match goal
    case ShareAvailable => Comes(views, "100", "200")
    case ShareExpanded => Comes(views, "121", "221")
    case SnapshotReady => Comes(views, "creating", "available")
    case CinderFinished =>
      exists k: nat :: k < 30 && views(k) in {Seen("available"), Seen("in-use")}
                       && forall i: nat | i < k :: InCreation(views(i))
    case ShareDeleted => exists k: nat :: k < 30 && views(k) == Missing && forall i: nat | i < k :: views(i).Seen?
  }

  ghost predicate NeverEnds(goal: Goal, views: nat -> View) {
    match goal
    case ShareAvailable => Stays(views, "100")
    case ShareExpanded => Stays(views, "121")
    case SnapshotReady => Stays(views, "creating")
    case CinderFinished => forall i: nat | i < 30 :: InCreation(views(i))
    case ShareDeleted => forall i: nat | i < 30 :: views(i).Seen?
  }

  lemma BetweenMeans(goal: Goal, views: nat -> View, pending: string, reached: string)
    requires pending != reached
    requires forall view :: CheckFor(goal, view) == CheckBetween(view, pending, reached)
    ensures Succeeds(ChecksFor(goal, views), 30) <==> Comes(views, pending, reached)
    ensures (forall i: nat | i < 30 :: ChecksFor(goal, views)(i) == NotYet) <==> Stays(views, pending)
  {
    var checks := ChecksFor(goal, views);
    forall i: nat ensures (checks(i) == Done <==> views(i) == Seen(reached))
                          && (checks(i) == NotYet <==> views(i) == Seen(pending)) {
    }
  }

  lemma ChecksMean(goal: Goal, views: nat -> View)
    ensures Succeeds(ChecksFor(goal, views), 30) <==> Reached(goal, views)
    ensures (forall i: nat | i < 30 :: ChecksFor(goal, views)(i) == NotYet) <==> NeverEnds(goal, views)
  {
    var checks := ChecksFor(goal, views);
    match goal
    case ShareAvailable => BetweenMeans(goal, views, "100", "200");
    case ShareExpanded => BetweenMeans(goal, views, "121", "221");
    case SnapshotReady => BetweenMeans(goal, views, "creating", "available");
    case CinderFinished =>
      forall i: nat ensures (checks(i) == Done <==> views(i) in {Seen("available"), Seen("in-use")})
                            && (checks(i) == NotYet <==> InCreation(views(i))) {
      }
    case ShareDeleted =>
      forall i: nat ensures (checks(i) == Done <==> views(i) == Missing) && (checks(i) == NotYet <==> views(i).Seen?) {
      }
  }

  /** Succeeds exactly if one of the first thirty views has reached the goal and all before it are on the way; times
      out exactly if all thirty are on the way; and sleeps only between its checks, growing from fifteen seconds for a
      new share and from two for the rest. */
  method WaitUntil(goal: Goal, views: nat -> View) returns (v: Verdict, slept: real, ghost made: nat)
    ensures v == Success <==> Reached(goal, views)
    ensures v == Timeout <==> NeverEnds(goal, views)
    ensures 1 <= made <= 30 && (v == Timeout ==> made == 30)
    ensures slept == Slept(Backoff(if goal == ShareAvailable then 15.0 else 2.0, 1.02, 30), made - 1)
    ensures slept < if goal == ShareAvailable then 600.0 else 78.0
  {
    v, slept, made := WaitChecks(goal, ChecksFor(goal, views));
    ChecksMean(goal, views);
  }

  method WaitChecks(goal: Goal, checks: nat -> Check) returns (v: Verdict, slept: real, ghost made: nat)
    ensures v == Success <==> Succeeds(checks, 30)
    ensures v == Timeout <==> forall i: nat | i < 30 :: checks(i) == NotYet
    ensures 1 <= made <= 30 && (v == Timeout ==> made == 30)
    ensures slept == Slept(Backoff(if goal == ShareAvailable then 15.0 else 2.0, 1.02, 30), made - 1)
    ensures slept < if goal == ShareAvailable then 600.0 else 78.0
  {
    var n;
    v, n, slept := ExponentialBackoff(BackoffFor(goal), checks);
    made := n;
    SleepBound(goal, made - 1);
    FirstTerminalDecides(checks, 30);
  }

  lemma SleepBound(goal: Goal, n: nat)
    requires n < 30
    ensures BackoffFor(goal) == Backoff(if goal == ShareAvailable then 15.0 else 2.0, 1.02, 30)
    ensures Slept(BackoffFor(goal), n) < if goal.ShareAvailable? then 600.0 else 78.0
  {
    WaitsAreBounded(n);
  }

  lemma FirstTerminalDecides(checks: nat -> Check, n: nat)
    ensures var k := FirstTerminal(checks, n);
            && (k < n && checks(k) == Done <==> Succeeds(checks, n))
            && (k == n <==> forall i: nat | i < n :: checks(i) == NotYet)
  {
  }

  /** An EVS job as it is seen: the query failed, or its status and the volume it names. */
  datatype JobView = QueryFailed | Job(status: string, volumeID: string)

  function CheckJob(view: JobView): Check {
    if view.QueryFailed? then Broken
    else if view.status == "SUCCESS" then Done
    else if view.status == "FAIL" then Broken
    else NotYet
  }

  predicate StillRunning(view: JobView) {
    view.Job? && view.status !in {"SUCCESS", "FAIL"}
  }

  /** View k is a success, and all before it are neither that nor a failure. */
  ghost predicate SucceedsAt(views: nat -> JobView, k: nat) {
    k < 30 && views(k).Job? && views(k).status == "SUCCESS" && forall i: nat | i < k :: StillRunning(views(i))
  }

  function JobChecks(views: nat -> JobView): nat -> Check {
    (i: nat) => CheckJob(views(i))
  }

  lemma JobCheckMeans(views: nat -> JobView, i: nat)
    ensures JobChecks(views)(i) == Done <==> views(i).Job? && views(i).status == "SUCCESS"
    ensures JobChecks(views)(i) == NotYet <==> StillRunning(views(i))
  {
  }

  lemma OnlyFirst(checks: nat -> Check, m: nat)
    requires m < 30 && checks(m) != NotYet && forall i: nat | i < m :: checks(i) == NotYet
    ensures m == FirstTerminal(checks, 30)
  {
  }

  lemma FirstJobEnd(views: nat -> JobView, k: nat)
    requires k == FirstTerminal(JobChecks(views), 30)
    ensures k < 30 && JobChecks(views)(k) == Done <==> SucceedsAt(views, k)
    ensures forall m: nat | SucceedsAt(views, m) :: m == k
    ensures k == 30 <==> forall i: nat | i < 30 :: StillRunning(views(i))
  {
    forall i: nat { JobCheckMeans(views, i); }
    forall m: nat | SucceedsAt(views, m) ensures m == k {
      OnlyFirst(JobChecks(views), m);
    }
  }

  /** The job's volume is reported exactly if one of thirty views is a success before any failure, and it is that
      view's; it times out exactly if thirty views are neither. */
  method WaitForJobFinished(views: nat -> JobView) returns (volumeID: string, v: Verdict)
    ensures v == Success <==> exists k: nat :: SucceedsAt(views, k)
    ensures v == Timeout <==> forall i: nat | i < 30 :: StillRunning(views(i))
    ensures forall k: nat | SucceedsAt(views, k) :: volumeID == views(k).volumeID
    ensures v != Success ==> volumeID == ""
  {
    var made, slept;
    v, made, slept := ExponentialBackoff(COMMON, JobChecks(views));
    FirstJobEnd(views, FirstTerminal(JobChecks(views), 30));
    volumeID := "";
    if v == Success {
      assert SucceedsAt(views, made - 1);
      volumeID := views(made - 1).volumeID;
    }
  }
}
