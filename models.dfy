/**
 * The worker record as the queue service lists it, the fields the app adds
 * once it has looked up the worker's latest task, and the predicates
 * derived from both.
 *
 * Every `Date()` read of the app is the parameter `now` (seconds since the
 * epoch); a timestamp is one the ISO-8601 parser accepted, carried as whole
 * seconds, or one it rejected.
 */
module Models {
  import opened Wrappers

  /** A timestamp string after `ISO8601DateFormatter().date(from:)`. */
  datatype Timestamp = Parsed(seconds: int) | Malformed

  function ParseDate(t: Timestamp): Option<int> {
    match t
    case Parsed(s) => Some(s)
    case Malformed => None
  }

  /**
   * A point on Foundation's timeline, extended with `Date.distantPast` and
   * `Date.distantFuture`, which the app substitutes for a missing date when
   * it compares dates.
   */
  datatype Instant = DistantPast | At(seconds: int) | DistantFuture

  function OrDistantPast(d: Option<int>): Instant {
    match d
    case Some(s) => At(s)
    case None => DistantPast
  }

  function OrDistantFuture(d: Option<int>): Instant {
    match d
    case Some(s) => At(s)
    case None => DistantFuture
  }

  /** `a < b` on dates. */
  predicate Before(a: Instant, b: Instant) {
    match (a, b)
    case (DistantPast, DistantPast) => false
    case (DistantPast, _) => true
    case (At(x), At(y)) => x < y
    case (At(_), DistantFuture) => true
    case (At(_), DistantPast) => false
    case (DistantFuture, _) => false
  }

  /** `<` on dates is a strict total order. */
  lemma BeforeIsStrictTotalOrder(a: Instant, b: Instant, c: Instant)
    ensures !Before(a, a)
    ensures Before(a, b) ==> !Before(b, a)
    ensures a != b ==> Before(a, b) || Before(b, a)
    ensures Before(a, b) && Before(b, c) ==> Before(a, c)
  {
  }

  datatype LatestTask = LatestTask(runId: int, taskId: string)

  /** One run of a task; only its state matters here. */
  datatype TaskRun = TaskRun(runId: int, state: string)

  /** The status of a task: its current state and its runs, oldest first. */
  datatype TaskStatus = TaskStatus(taskId: string, state: string, runs: seq<TaskRun>)

  const SecondsPerDay: int := 86400

  datatype Worker = Worker(
    workerGroup: string,
    workerId: string,
    firstClaim: Timestamp,
    lastDateActive: Timestamp,
    latestTask: Option<LatestTask>,
    quarantineUntil: Option<Timestamp>,
    recentErrors: Option<int>,
    // Not part of the listing: set once the latest task's status is known.
    taskState: Option<string>,
    recentFailures: int)
  {
    predicate HasRecentFailure() {
      recentFailures > 0
    }

    /** The identity the list views use. */
    function Id(): string {
      workerId
    }

    function LastActive(): Option<int> {
      ParseDate(lastDateActive)
    }

    function FirstClaimDate(): Option<int> {
      ParseDate(firstClaim)
    }

    predicate IsRunning() {
      taskState == Some("running")
    }

    /** Quarantined while the quarantine end, when present and parsable, lies after `now`. */
    predicate IsQuarantined(now: int) {
      match quarantineUntil
      case None => false
      case Some(t) =>
        match ParseDate(t)
        case None => false
        case Some(until) => until > now
    }

    /** Running, or last active less than 7 days before `now`. */
    predicate IsActive(now: int) {
      if IsRunning() then true
      else
        match LastActive()
        case None => false
        case Some(last) =>
          var daysSinceActive := (now - last) as real / SecondsPerDay as real;
          daysSinceActive < 7.0
    }

    /** Running, or last active less than 30 minutes before `now`. */
    predicate IsRecentlyActive(now: int) {
      if IsRunning() then true
      else
        match LastActive()
        case None => false
        case Some(last) => now - last < 1800
    }
  }

  /** The workers with a latest task. */
  function HasTask(): Worker -> bool {
    (w: Worker) => w.latestTask.Some?
  }

  /**
   * A worker as decoded from the listing: the coding keys cover the seven
   * listed fields only, so no task state is set and the failure count
   * keeps its default of 0.
   */
  function Decode(
    workerGroup: string, workerId: string,
    firstClaim: Timestamp, lastDateActive: Timestamp,
    latestTask: Option<LatestTask>, quarantineUntil: Option<Timestamp>,
    recentErrors: Option<int>): (w: Worker)
    ensures w.taskState == None && w.recentFailures == 0
    ensures !w.HasRecentFailure() && !w.IsRunning()
    ensures w.workerGroup == workerGroup && w.workerId == workerId
    ensures w.firstClaim == firstClaim && w.lastDateActive == lastDateActive
    ensures w.latestTask == latestTask && w.quarantineUntil == quarantineUntil
    ensures w.recentErrors == recentErrors
  {
    Worker(workerGroup, workerId, firstClaim, lastDateActive, latestTask,
           quarantineUntil, recentErrors, None, 0)
  }

  /**
   * Quarantine is decided by the parsed end instant alone: never without
   * one, and with one exactly while it lies strictly after `now` (an end
   * equal to `now` is already over).
   */
  lemma QuarantineWindow(w: Worker, now: int)
    ensures w.quarantineUntil == None ==> !w.IsQuarantined(now)
    ensures w.quarantineUntil == Some(Malformed) ==> !w.IsQuarantined(now)
    ensures forall until :: w.quarantineUntil == Some(Parsed(until)) ==>
              (w.IsQuarantined(now) <==> now < until)
    ensures forall until :: w.quarantineUntil == Some(Parsed(until)) ==>
              !w.IsQuarantined(until)
  {
  }

  /** A quarantine that holds at some instant held at every earlier instant. */
  lemma QuarantineMonotone(w: Worker, earlier: int, later: int)
    requires earlier <= later && w.IsQuarantined(later)
    ensures w.IsQuarantined(earlier)
  {
  }

  /**
   * `isActive` in whole seconds: a running task decides on its own;
   * otherwise a worker is active exactly when its last activity is known
   * and less than 604800 seconds (7 days) old.
   */
  lemma ActiveInSeconds(w: Worker, now: int)
    ensures w.IsRunning() ==> w.IsActive(now)
    ensures !w.IsRunning() && w.LastActive() == None ==> !w.IsActive(now)
    ensures forall last :: !w.IsRunning() && w.LastActive() == Some(last) ==>
              (w.IsActive(now) <==> now - last < 7 * SecondsPerDay)
  {
    if !w.IsRunning() && w.LastActive().Some? {
      var last := w.LastActive().value;
      var days := (now - last) as real / SecondsPerDay as real;
      assert days * SecondsPerDay as real == (now - last) as real;
    }
  }

  /** Recently active (30 minutes) is the stricter of the two activity policies. */
  lemma RecentlyActiveImpliesActive(w: Worker, now: int)
    requires w.IsRecentlyActive(now)
    ensures w.IsActive(now)
  {
    ActiveInSeconds(w, now);
  }

  /** Without a running task, activity only wears off as `now` advances. */
  lemma ActivityWearsOff(w: Worker, earlier: int, later: int)
    requires earlier <= later && !w.IsRunning()
    ensures w.IsActive(later) ==> w.IsActive(earlier)
    ensures w.IsRecentlyActive(later) ==> w.IsRecentlyActive(earlier)
  {
    ActiveInSeconds(w, earlier);
    ActiveInSeconds(w, later);
  }
}
