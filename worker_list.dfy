/**
 * The worker list screen of one pool: the listing it holds, task-state
 * enrichment that looks up each worker's latest task, the filter bar with
 * its search text, three tri-state filters and sort order, and what each
 * row shows about a worker.
 *
 * Every `Date()` read is the parameter `now`, in seconds. No task-status
 * request is made: the outcome of each lookup is an input, and so is
 * the order in which the concurrent lookups complete.
 */
module WorkerList {
  import opened Wrappers
  import opened Numeric
  import opened Seqs
  import opened Models
  import Palette
  import Analytics

  // ------------------------------------------------------------ enrichment

  /** The outcome of looking up one worker's latest task. */
  datatype FetchOutcome = Fetched(status: TaskStatus) | FetchFailed

  /** What one lookup hands back: its task's state when known, and a failure count. */
  datatype TaskResult = TaskResult(taskState: Option<string>, failureCount: nat)

  predicate IsFailedRun(r: TaskRun) {
    r.state == "failed" || r.state == "exception"
  }

  /** The last five runs, or all of them when there are fewer. */
  function LastRuns(runs: seq<TaskRun>): (r: seq<TaskRun>)
    ensures |r| == Min(5, |runs|)
    ensures runs == runs[..|runs| - |r|] + r
  {
    if |runs| <= 5 then runs else runs[|runs| - 5..]
  }

  /** Failed or exception runs among the last five. */
  function RecentFailureCount(runs: seq<TaskRun>): (n: nat)
    ensures n <= Min(5, |runs|)
  {
    Count(LastRuns(runs), IsFailedRun)
  }

  /** A failed lookup reports no state and no failures. */
  function ResultOf(outcome: FetchOutcome): (r: TaskResult)
    ensures outcome == FetchFailed ==> r == TaskResult(None, 0)
    ensures outcome.Fetched? ==>
              r.taskState == Some(outcome.status.state) &&
              r.failureCount == RecentFailureCount(outcome.status.runs) &&
              r.failureCount <= 5
  {
    match outcome
    case Fetched(status) => TaskResult(Some(status.state), RecentFailureCount(status.runs))
    case FetchFailed => TaskResult(None, 0)
  }

  /**
   * A worker after its lookup: a known state replaces its task state, an
   * unknown one leaves it; the failure count is always replaced.
   */
  function Enrich(w: Worker, outcome: FetchOutcome): (e: Worker)
    ensures e.workerGroup == w.workerGroup && e.workerId == w.workerId
    ensures e.firstClaim == w.firstClaim && e.lastDateActive == w.lastDateActive
    ensures e.latestTask == w.latestTask && e.quarantineUntil == w.quarantineUntil
    ensures e.recentErrors == w.recentErrors
    ensures 0 <= e.recentFailures <= 5
    ensures outcome == FetchFailed ==> e.taskState == w.taskState && e.recentFailures == 0
    ensures outcome.Fetched? ==> e.taskState == Some(outcome.status.state)
  {
    var r := ResultOf(outcome);
    w.(taskState := if r.taskState.Some? then r.taskState else w.taskState,
       recentFailures := r.failureCount)
  }

  /** The listing once every worker with a latest task has been looked up. */
  function EnrichAll(ws: seq<Worker>, outcomes: seq<FetchOutcome>): (r: seq<Worker>)
    requires |outcomes| == |ws|
    ensures |r| == |ws|
    ensures forall i :: 0 <= i < |ws| && ws[i].latestTask == None ==> r[i] == ws[i]
    ensures forall i :: 0 <= i < |ws| && ws[i].latestTask.Some? ==> r[i] == Enrich(ws[i], outcomes[i])
  {
    seq(|ws|, i requires 0 <= i < |ws| => if ws[i].latestTask.Some? then Enrich(ws[i], outcomes[i]) else ws[i])
  }

  /** Without any latest task there is nothing to look up. */
  lemma NothingToEnrich(ws: seq<Worker>, outcomes: seq<FetchOutcome>)
    requires |outcomes| == |ws|
    requires |TaskIndices(ws)| == 0
    ensures EnrichAll(ws, outcomes) == ws
  {
    assert forall i :: 0 <= i < |ws| ==> ws[i].latestTask == None;
  }

  /**
   * The positions of the workers that have a latest task, each once and in
   * list order, as many as there are such workers.
   */
  function TaskIndices(ws: seq<Worker>): (r: seq<nat>)
    ensures forall k :: 0 <= k < |r| ==> r[k] < |ws| && ws[r[k]].latestTask.Some?
    ensures forall i :: 0 <= i < |ws| && ws[i].latestTask.Some? ==> i in r
    ensures forall a, b :: 0 <= a < b < |r| ==> r[a] < r[b]
    ensures |r| == Count(ws, HasTask())
  {
    if ws == [] then []
    else
      var init := ws[..|ws| - 1];
      var rest := TaskIndices(init);
      var r := if ws[|ws| - 1].latestTask.Some? then rest + [|ws| - 1] else rest;
      TaskIndicesGrow(ws, rest, r);
      TaskCountGrow(ws);
      r
  }

  /** The last worker adds one to the count of workers with a task exactly when it has one. */
  lemma TaskCountGrow(ws: seq<Worker>)
    requires |ws| > 0
    ensures Count(ws, HasTask()) ==
              Count(ws[..|ws| - 1], HasTask()) + (if ws[|ws| - 1].latestTask.Some? then 1 else 0)
  {
    assert ws == ws[..|ws| - 1] + [ws[|ws| - 1]];
    CountSnoc(ws[..|ws| - 1], ws[|ws| - 1], HasTask());
  }

  /** Extending the task positions of all but the last worker to the whole list. */
  lemma TaskIndicesGrow(ws: seq<Worker>, rest: seq<nat>, r: seq<nat>)
    requires |ws| > 0
    requires forall k :: 0 <= k < |rest| ==> rest[k] < |ws| - 1 && ws[rest[k]].latestTask.Some?
    requires forall i :: 0 <= i < |ws| - 1 && ws[i].latestTask.Some? ==> i in rest
    requires forall a, b :: 0 <= a < b < |rest| ==> rest[a] < rest[b]
    requires r == if ws[|ws| - 1].latestTask.Some? then rest + [|ws| - 1] else rest
    ensures forall k :: 0 <= k < |r| ==> r[k] < |ws| && ws[r[k]].latestTask.Some?
    ensures forall i :: 0 <= i < |ws| && ws[i].latestTask.Some? ==> i in r
    ensures forall a, b :: 0 <= a < b < |r| ==> r[a] < r[b]
  {
  }

  // --------------------------------------------------------------- filters

  /** The three positions of a filter chip. */
  datatype FilterOption = All | Yes | No

  datatype SortOrder = ByLastActive | ByWorkerId | ByFirstClaim

  /** Whether a tri-state filter keeps an element whose property is `b`. */
  predicate Keep(option: FilterOption, b: bool) {
    match option
    case All => true
    case Yes => b
    case No => !b
  }

  /** ASCII case folding, the part of the localized fold the model covers. */
  function FoldChar(c: char): char {
    if 'A' <= c <= 'Z' then (c as int + 32) as char else c
  }

  /**
   * The text with every ASCII capital lowered to its small letter: no
   * capital is left, and every other character stays where it was.
   */
  function Fold(s: string): (r: string)
    ensures |r| == |s|
    ensures forall i :: 0 <= i < |r| ==> !('A' <= r[i] <= 'Z')
    ensures forall i :: 0 <= i < |s| && !('A' <= s[i] <= 'Z') ==> r[i] == s[i]
    ensures forall i :: 0 <= i < |s| && 'A' <= s[i] <= 'Z' ==>
              'a' <= r[i] <= 'z' && r[i] as int - 'a' as int == s[i] as int - 'A' as int
  {
    seq(|s|, i requires 0 <= i < |s| => FoldChar(s[i]))
  }

  /** Folding a folded text changes nothing. */
  lemma FoldIdempotent(s: string)
    ensures Fold(Fold(s)) == Fold(s)
  {
  }

  /** `query` occurs in `s` at position `i`, letters compared without case. */
  predicate OccursAt(s: string, query: string, i: int)
    requires 0 <= i <= |s| - |query|
  {
    Fold(s[i..i + |query|]) == Fold(query)
  }

  /** `s` holds `query` at some position, letters compared without case. */
  predicate ContainsIgnoringCase(s: string, query: string) {
    exists i :: 0 <= i <= |s| - |query| && OccursAt(s, query, i)
  }

  /** An empty search keeps every worker; otherwise its id or its group must contain the text. */
  predicate MatchesSearch(w: Worker, search: string) {
    search == [] || ContainsIgnoringCase(w.workerId, search) || ContainsIgnoringCase(w.workerGroup, search)
  }

  /** The conjunction of the four filters of the filter bar. */
  predicate Matches(w: Worker, search: string, quarantined: FilterOption, active: FilterOption,
                    failures: FilterOption, now: int) {
    MatchesSearch(w, search)
    && Keep(quarantined, w.IsQuarantined(now))
    && Keep(active, w.IsActive(now))
    && Keep(failures, w.HasRecentFailure())
  }

  /** The stage predicates of the filter bar, one per filter. */
  function SearchFor(search: string): Worker -> bool {
    (w: Worker) => MatchesSearch(w, search)
  }

  function QuarantinedAt(now: int): Worker -> bool {
    (w: Worker) => w.IsQuarantined(now)
  }

  function ActiveAt(now: int): Worker -> bool {
    (w: Worker) => w.IsActive(now)
  }

  function Failing(): Worker -> bool {
    (w: Worker) => w.HasRecentFailure()
  }

  function Not(property: Worker -> bool): Worker -> bool {
    (w: Worker) => !property(w)
  }

  /** One `switch` of the filter bar: keep those with the property, those without, or all. */
  function ApplyOption(s: seq<Worker>, option: FilterOption, property: Worker -> bool): (r: seq<Worker>)
    ensures forall i :: 0 <= i < |r| ==> Keep(option, property(r[i]))
    ensures multiset(r) <= multiset(s)
  {
    match option
    case Yes => Filter(s, property)
    case No => Filter(s, Not(property))
    case All => s
  }

  /** The search, skipped when the text is empty. */
  function Searched(ws: seq<Worker>, search: string): seq<Worker> {
    if search == [] then ws else Filter(ws, SearchFor(search))
  }

  /**
   * The workers the filter bar lets through, in list order: the search,
   * then the quarantine, activity and failure filters in turn.
   */
  function Filtered(ws: seq<Worker>, search: string, quarantined: FilterOption, active: FilterOption,
                    failures: FilterOption, now: int): seq<Worker> {
    var s0 := Searched(ws, search);
    var s1 := ApplyOption(s0, quarantined, QuarantinedAt(now));
    var s2 := ApplyOption(s1, active, ActiveAt(now));
    ApplyOption(s2, failures, Failing())
  }

  lemma OptionMember(s: seq<Worker>, option: FilterOption, property: Worker -> bool, w: Worker)
    ensures w in ApplyOption(s, option, property) <==> w in s && Keep(option, property(w))
  {
    match option
    case Yes => FilterMember(s, property, w);
    case No => FilterMember(s, Not(property), w);
    case All =>
  }

  // ------------------------------------------------------------------ sort

  /** `<` on strings, character by character. */
  predicate LexLess(a: string, b: string) {
    if b == [] then false
    else if a == [] then true
    else if a[0] != b[0] then a[0] < b[0]
    else LexLess(a[1..], b[1..])
  }

  lemma {:induction false} LexLessTransitive(a: string, b: string, c: string)
    requires LexLess(a, b) && LexLess(b, c)
    ensures LexLess(a, c)
  {
    if a != [] && a[0] == b[0] && b[0] == c[0] {
      LexLessTransitive(a[1..], b[1..], c[1..]);
    }
  }

  lemma {:induction false} LexLessTotal(a: string, b: string)
    ensures a == b || LexLess(a, b) || LexLess(b, a)
    ensures !(LexLess(a, b) && LexLess(b, a))
  {
    if a != [] && b != [] && a[0] == b[0] {
      LexLessTotal(a[1..], b[1..]);
      if a[1..] == b[1..] {
        assert a == [a[0]] + a[1..] && b == [b[0]] + b[1..];
      }
    }
  }

  /**
   * The comparator of each sort order: most recently active first, ids in
   * ascending order, most recent first claim first. A missing date counts
   * as `distantPast`.
   */
  predicate Precedes(a: Worker, b: Worker, order: SortOrder) {
    match order
    case ByLastActive => Before(OrDistantPast(b.LastActive()), OrDistantPast(a.LastActive()))
    case ByWorkerId => LexLess(a.workerId, b.workerId)
    case ByFirstClaim => Before(OrDistantPast(b.FirstClaimDate()), OrDistantPast(a.FirstClaimDate()))
  }

  /** `a` may stand before `b`: `b` does not strictly precede it. */
  predicate Le(a: Worker, b: Worker, order: SortOrder) {
    !Precedes(b, a, order)
  }

  /** Each comparator is a strict weak order, as `sort(by:)` demands. */
  lemma ComparatorIsStrictWeakOrder(a: Worker, b: Worker, c: Worker, order: SortOrder)
    ensures !Precedes(a, a, order)
    ensures Precedes(a, b, order) ==> !Precedes(b, a, order)
    ensures Le(a, b, order) && Le(b, c, order) ==> Le(a, c, order)
  {
    match order
    case ByLastActive =>
      BeforeIsStrictTotalOrder(OrDistantPast(a.LastActive()), OrDistantPast(b.LastActive()),
                               OrDistantPast(c.LastActive()));
      BeforeIsStrictTotalOrder(OrDistantPast(c.LastActive()), OrDistantPast(b.LastActive()),
                               OrDistantPast(a.LastActive()));
      BeforeIsStrictTotalOrder(OrDistantPast(b.LastActive()), OrDistantPast(a.LastActive()),
                               OrDistantPast(c.LastActive()));
    case ByFirstClaim =>
      BeforeIsStrictTotalOrder(OrDistantPast(a.FirstClaimDate()), OrDistantPast(b.FirstClaimDate()),
                               OrDistantPast(c.FirstClaimDate()));
      BeforeIsStrictTotalOrder(OrDistantPast(c.FirstClaimDate()), OrDistantPast(b.FirstClaimDate()),
                               OrDistantPast(a.FirstClaimDate()));
      BeforeIsStrictTotalOrder(OrDistantPast(b.FirstClaimDate()), OrDistantPast(a.FirstClaimDate()),
                               OrDistantPast(c.FirstClaimDate()));
    case ByWorkerId =>
      LexLessTotal(a.workerId, a.workerId);
      LexLessTotal(a.workerId, b.workerId);
      LexLessTotal(b.workerId, c.workerId);
      LexLessTotal(a.workerId, c.workerId);
      if LexLess(c.workerId, a.workerId) && Le(a, b, order) && Le(b, c, order) {
        if LexLess(a.workerId, b.workerId) {
          LexLessTransitive(c.workerId, a.workerId, b.workerId);
        }
      }
  }

  /** No worker is followed by one that strictly precedes it. */
  ghost predicate Ordered(s: seq<Worker>, order: SortOrder) {
    forall i, j :: 0 <= i < j < |s| ==> Le(s[i], s[j], order)
  }

  function InsertWorker(x: Worker, s: seq<Worker>, order: SortOrder): (r: seq<Worker>)
    requires Ordered(s, order)
    ensures |r| == |s| + 1
    ensures forall i :: 0 <= i < |r| ==> r[i] == x || r[i] in s
    ensures multiset(r) == multiset(s) + multiset{x}
    ensures Ordered(r, order)
  {
    if s == [] || Le(x, s[0], order) then
      forall m | 0 <= m < |s| ensures Le(x, s[m], order) {
        ComparatorIsStrictWeakOrder(x, s[0], s[m], order);
      }
      PrependOrdered(x, s, order);
      [x] + s
    else
      ComparatorIsStrictWeakOrder(s[0], x, x, order);
      var tail := InsertWorker(x, s[1..], order);
      assert s == [s[0]] + s[1..];
      assert forall i :: 0 <= i < |tail| ==> Le(s[0], tail[i], order);
      PrependOrdered(s[0], tail, order);
      [s[0]] + tail
  }

  /** A worker that no element of an ordered list precedes may go in front of it. */
  lemma PrependOrdered(x: Worker, s: seq<Worker>, order: SortOrder)
    requires Ordered(s, order)
    requires forall i :: 0 <= i < |s| ==> Le(x, s[i], order)
    ensures Ordered([x] + s, order)
  {
  }

  /** A reordering of `s` in which no worker precedes one placed before it (ties in no promised order). */
  function SortWorkers(s: seq<Worker>, order: SortOrder): (r: seq<Worker>)
    ensures multiset(r) == multiset(s)
    ensures Ordered(r, order)
  {
    if s == [] then []
    else
      assert s == [s[0]] + s[1..];
      InsertWorker(s[0], SortWorkers(s[1..], order), order)
  }

  // ------------------------------------------------------------ the screen

  class WorkerListView {
    var workers: seq<Worker>
    var filteredWorkers: seq<Worker>
    var searchText: string
    var filterQuarantined: FilterOption
    var filterActive: FilterOption
    var filterFailures: FilterOption
    var sortOrder: SortOrder
    var fetchingTaskStates: bool
    var taskStateProgress: real

    /** The screen's initial state, before any listing has arrived: nothing loaded, nothing shown. */
    constructor()
      ensures workers == [] && filteredWorkers == [] && searchText == []
      ensures filterQuarantined == All && filterActive == All && filterFailures == All
      ensures sortOrder == ByLastActive
      ensures !fetchingTaskStates && taskStateProgress == 0.0
    {
      workers := [];
      filteredWorkers := [];
      searchText := [];
      filterQuarantined := All;
      filterActive := All;
      filterFailures := All;
      sortOrder := ByLastActive;
      fetchingTaskStates := false;
      taskStateProgress := 0.0;
    }

    /** The shown list is a sorted arrangement of exactly the workers the filter bar lets through. */
    ghost predicate Shows(shown: seq<Worker>, now: int)
      reads this
    {
      multiset(shown) == multiset(Filtered(workers, searchText, filterQuarantined, filterActive, filterFailures, now))
      && Ordered(shown, sortOrder)
    }

    /**
     * Takes in the outcome of fetching the pool's listing: a listing
     * replaces the workers and the shown list is rebuilt from it; a failed
     * fetch (`None`) leaves the screen as it was.
     */
    method LoadWorkers(fetched: Option<seq<Worker>>, now: int)
      modifies this`workers, this`filteredWorkers
      ensures fetched.Some? ==> workers == fetched.value && Shows(filteredWorkers, now)
      ensures fetched.None? ==> workers == old(workers) && filteredWorkers == old(filteredWorkers)
    {
      if fetched.Some? {
        workers := fetched.value;
        ApplyFilters(now);
      }
    }

    /** Rebuilds the shown list from the listing: search, the three filters in turn, then the sort. */
    method ApplyFilters(now: int)
      modifies this`filteredWorkers
      ensures Shows(filteredWorkers, now)
    {
      var result := workers;
      if searchText != [] {
        result := Filter(result, SearchFor(searchText));
      }
      result := ApplyOption(result, filterQuarantined, QuarantinedAt(now));
      result := ApplyOption(result, filterActive, ActiveAt(now));
      result := ApplyOption(result, filterFailures, Failing());
      filteredWorkers := SortWorkers(result, sortOrder);
    }

    /**
     * Looks up the latest task of every worker that has one. `outcomes[i]`
     * is the lookup result for worker `i`; `arrival` is the order in which
     * the concurrent lookups complete, each such worker exactly once. The
     * shown list is refreshed after every tenth result, after the last one
     * and once more at the end. Without any worker with a task nothing
     * happens.
     */
    method FetchTaskStates(outcomes: seq<FetchOutcome>, arrival: seq<nat>, now: int)
      requires |outcomes| == |workers|
      requires |arrival| == |TaskIndices(workers)|
      requires forall k :: 0 <= k < |arrival| ==> arrival[k] < |workers| && workers[arrival[k]].latestTask.Some?
      requires forall i :: 0 <= i < |workers| && workers[i].latestTask.Some? ==> i in arrival
      modifies this`workers, this`filteredWorkers, this`fetchingTaskStates, this`taskStateProgress
      ensures workers == EnrichAll(old(workers), outcomes)
      ensures |TaskIndices(old(workers))| == 0 ==>
                filteredWorkers == old(filteredWorkers) && fetchingTaskStates == old(fetchingTaskStates)
                && taskStateProgress == old(taskStateProgress)
      ensures |TaskIndices(old(workers))| > 0 ==>
                Shows(filteredWorkers, now) && !fetchingTaskStates && taskStateProgress == 1.0
    {
      var withTasks := TaskIndices(workers);
      if |withTasks| == 0 {
        NothingToEnrich(workers, outcomes);
        return;
      }
      RunLookups(outcomes, arrival, now);
    }

    /** With at least one lookup to make: raise the flag, collect every result, lower it and refresh. */
    method RunLookups(outcomes: seq<FetchOutcome>, arrival: seq<nat>, now: int)
      requires |outcomes| == |workers| && |arrival| > 0
      requires forall k :: 0 <= k < |arrival| ==> arrival[k] < |workers| && workers[arrival[k]].latestTask.Some?
      requires forall i :: 0 <= i < |workers| && workers[i].latestTask.Some? ==> i in arrival
      modifies this`workers, this`filteredWorkers, this`fetchingTaskStates, this`taskStateProgress
      ensures workers == EnrichAll(old(workers), outcomes)
      ensures Shows(filteredWorkers, now) && !fetchingTaskStates && taskStateProgress == 1.0
    {
      fetchingTaskStates := true;
      taskStateProgress := 0.0;
      CollectResults(outcomes, arrival, |arrival|, now);
      fetchingTaskStates := false;
      ApplyFilters(now);
    }

    /**
     * The `for await` loop: stores each result as it arrives, advances the
     * progress, and refreshes the shown list on every tenth result and on
     * the last.
     */
    method CollectResults(outcomes: seq<FetchOutcome>, arrival: seq<nat>, total: nat, now: int)
      requires |outcomes| == |workers| && total == |arrival| > 0
      requires forall k :: 0 <= k < |arrival| ==> arrival[k] < |workers| && workers[arrival[k]].latestTask.Some?
      requires forall i :: 0 <= i < |workers| && workers[i].latestTask.Some? ==> i in arrival
      modifies this`workers, this`taskStateProgress, this`filteredWorkers
      ensures workers == EnrichAll(old(workers), outcomes)
      ensures taskStateProgress == 1.0
    {
      ghost var original := workers;
      var completed := 0;
      var k := 0;
      while k < |arrival|
        invariant 0 <= k <= |arrival| && completed == k
        invariant workers == EnrichSome(original, outcomes, Arrived(arrival, k))
        invariant k > 0 ==> taskStateProgress == Progress(completed, total)
      {
        var index := arrival[k];
        completed := completed + 1;
        StoreResult(index, outcomes[index], completed, total, now);
        EnrichNextArrival(original, outcomes, arrival, k);
        k := k + 1;
      }
      EnrichedEverything(original, outcomes, Arrived(arrival, k), arrival);
      FullProgress(total);
    }

    /**
     * One arrival: stores the result on its worker, sets the progress to
     * `completed / total` and refreshes the shown list when it is due.
     */
    method StoreResult(index: nat, outcome: FetchOutcome, completed: nat, total: nat, now: int)
      requires index < |workers| && total > 0
      modifies this`workers, this`taskStateProgress, this`filteredWorkers
      ensures workers == old(workers)[index := Enrich(old(workers)[index], outcome)]
      ensures taskStateProgress == Progress(completed, total)
      ensures completed % 10 == 0 || completed == total ==> Shows(filteredWorkers, now)
      ensures !(completed % 10 == 0 || completed == total) ==> filteredWorkers == old(filteredWorkers)
    {
      RecordResult(index, outcome);
      taskStateProgress := Progress(completed, total);
      RefreshEveryTenth(completed, total, now);
    }

    /** Refreshes the shown list after every tenth result and after the last. */
    method RefreshEveryTenth(completed: nat, total: nat, now: int)
      modifies this`filteredWorkers
      ensures completed % 10 == 0 || completed == total ==> Shows(filteredWorkers, now)
      ensures !(completed % 10 == 0 || completed == total) ==> filteredWorkers == old(filteredWorkers)
    {
      if completed % 10 == 0 || completed == total {
        ApplyFilters(now);
      }
    }

    /** Stores one lookup result on the worker at `index`. */
    method RecordResult(index: nat, outcome: FetchOutcome)
      requires index < |workers|
      modifies this`workers
      ensures workers == old(workers)[index := Enrich(old(workers)[index], outcome)]
    {
      var result := ResultOf(outcome);
      if result.taskState.Some? {
        workers := workers[index := workers[index].(taskState := result.taskState)];
      }
      workers := workers[index := workers[index].(recentFailures := result.failureCount)];
    }
  }

  /** The listing once the workers at the positions in `done` have been looked up. */
  function EnrichSome(ws: seq<Worker>, outcomes: seq<FetchOutcome>, done: set<nat>): (r: seq<Worker>)
    requires |outcomes| == |ws|
    ensures |r| == |ws|
  {
    seq(|ws|, i requires 0 <= i < |ws| => if i in done then Enrich(ws[i], outcomes[i]) else ws[i])
  }

  /** `completed / total` as the progress bar's `Double`. */
  function Progress(completed: nat, total: nat): real
    requires total > 0
  {
    completed as real / total as real
  }

  lemma FullProgress(total: nat)
    requires total > 0
    ensures Progress(total, total) == 1.0
  {
  }

  /** A lookup result stored twice is stored once. */
  lemma EnrichIdempotent(w: Worker, outcome: FetchOutcome)
    ensures Enrich(Enrich(w, outcome), outcome) == Enrich(w, outcome)
  {
  }

  lemma EnrichOneMore(ws: seq<Worker>, outcomes: seq<FetchOutcome>, done: set<nat>, index: nat)
    requires |outcomes| == |ws| && index < |ws|
    ensures var before := EnrichSome(ws, outcomes, done);
            before[index := Enrich(before[index], outcomes[index])] == EnrichSome(ws, outcomes, done + {index})
  {
    EnrichIdempotent(ws[index], outcomes[index]);
  }

  /** Storing the next result to arrive extends the enriched positions by its index. */
  lemma EnrichNextArrival(ws: seq<Worker>, outcomes: seq<FetchOutcome>, arrival: seq<nat>, k: nat)
    requires |outcomes| == |ws| && k < |arrival| && arrival[k] < |ws|
    ensures var before, index := EnrichSome(ws, outcomes, Arrived(arrival, k)), arrival[k];
            before[index := Enrich(before[index], outcomes[index])] == EnrichSome(ws, outcomes, Arrived(arrival, k + 1))
  {
    EnrichOneMore(ws, outcomes, Arrived(arrival, k), arrival[k]);
  }

  /** The positions among the first `k` results to arrive. */
  ghost function Arrived(arrival: seq<nat>, k: nat): set<nat>
    requires k <= |arrival|
  {
    if k == 0 then {} else Arrived(arrival, k - 1) + {arrival[k - 1]}
  }

  lemma {:induction false} ArrivedMembers(arrival: seq<nat>, k: nat, i: nat)
    requires k <= |arrival|
    ensures i in Arrived(arrival, k) <==> exists j :: 0 <= j < k && arrival[j] == i
  {
    if k > 0 {
      ArrivedMembers(arrival, k - 1, i);
    }
  }

  lemma EnrichedEverything(ws: seq<Worker>, outcomes: seq<FetchOutcome>, done: set<nat>, arrival: seq<nat>)
    requires |outcomes| == |ws|
    requires done == Arrived(arrival, |arrival|)
    requires forall k :: 0 <= k < |arrival| ==> arrival[k] < |ws| && ws[arrival[k]].latestTask.Some?
    requires forall i :: 0 <= i < |ws| && ws[i].latestTask.Some? ==> i in arrival
    ensures EnrichSome(ws, outcomes, done) == EnrichAll(ws, outcomes)
  {
    forall i | 0 <= i < |ws| ensures (i in done) == ws[i].latestTask.Some? {
      ArrivedMembers(arrival, |arrival|, i);
      if ws[i].latestTask.Some? {
        var j :| 0 <= j < |arrival| && arrival[j] == i;
      }
    }
  }

  // ----------------------------------------------------------------- rows

  /** Minutes since `last`, as the `Double` the rows compare. */
  function MinutesSince(last: int, now: int): real {
    (now - last) as real / 60.0
  }

  /** The row's status text: its task state when known, else a time-based word. */
  datatype Label = TaskLabel(state: string) | Unknown | Active | Recent | Today | ThisWeek | Idle

  function StatusLabel(w: Worker, now: int): Label {
    match w.taskState
    case Some(state) => TaskLabel(state)
    case None =>
      match w.LastActive()
      case None => Unknown
      case Some(last) =>
        var minutes := MinutesSince(last, now);
        if minutes < 30.0 then Active
        else if minutes < 120.0 then Recent
        else if minutes < 1440.0 then Today
        else if minutes < 10080.0 then ThisWeek
        else Idle
  }

  /**
   * The row's status colour: four task states have their own colour; any
   * other state (an "exception", say) falls back to the time-based colour.
   */
  function StatusColor(w: Worker, now: int): Palette.Color {
    if w.taskState == Some("running") then Palette.Green
    else if w.taskState == Some("pending") then Palette.Mint
    else if w.taskState == Some("completed") then Palette.Blue
    else if w.taskState == Some("failed") then Palette.Red
    else
      match w.LastActive()
      case None => Palette.Gray
      case Some(last) =>
        var minutes := MinutesSince(last, now);
        if minutes < 30.0 then Palette.Green
        else if minutes < 120.0 then Palette.Mint
        else if minutes < 1440.0 then Palette.Blue
        else if minutes < 10080.0 then Palette.Orange
        else Palette.Red
  }

  /** A relative time: blank, "Just now", or a whole number of seconds, minutes, hours or days ago. */
  datatype Ago = Blank | JustNow | SecondsAgo(n: int) | MinutesAgo(n: int) | HoursAgo(n: int) | DaysAgo(n: int)

  /** The row's time text: blank when its task state is known or the worker was never active. */
  function DetailedTime(w: Worker, now: int): Ago {
    if w.taskState.Some? then Blank
    else
      match w.LastActive()
      case None => Blank
      case Some(last) =>
        var interval := (now - last) as real;
        if interval < 60.0 then SecondsAgo(Trunc(interval))
        else if interval < 3600.0 then MinutesAgo(Trunc(interval / 60.0))
        else if interval < 86400.0 then HoursAgo(Trunc(interval / 3600.0))
        else DaysAgo(Trunc(interval / 86400.0))
  }

  /** `Date.timeAgo()` of the instant `date`. */
  function TimeAgo(date: int, now: int): Ago {
    var interval := (now - date) as real;
    if interval < 60.0 then JustNow
    else if interval < 3600.0 then MinutesAgo(Trunc(interval / 60.0))
    else if interval < 86400.0 then HoursAgo(Trunc(interval / 3600.0))
    else DaysAgo(Trunc(interval / 86400.0))
  }

  // --------------------------------------------------------------- lemmas

  /** Only the last five runs count: earlier runs never change the failure count. */
  lemma {:induction false} OnlyLastFiveRunsCount(earlier: seq<TaskRun>, runs: seq<TaskRun>)
    requires |runs| >= 5
    ensures RecentFailureCount(earlier + runs) == RecentFailureCount(runs)
  {
    assert LastRuns(earlier + runs) == LastRuns(runs);
  }

  /** Five failed or exception runs at the end give the full count of 5. */
  lemma FailingTailCountsFive(runs: seq<TaskRun>)
    requires |runs| >= 5 && forall i :: |runs| - 5 <= i < |runs| ==> IsFailedRun(runs[i])
    ensures RecentFailureCount(runs) == 5
  {
    FilterAll(LastRuns(runs), IsFailedRun);
  }

  /**
   * After enrichment, a worker that fails had a latest task, provided the
   * workers without one carried no failure before (as decoded listings do),
   * so the fleet's failure rate lies in `[0, 1]`.
   */
  lemma EnrichedFailuresHaveTasks(ws: seq<Worker>, outcomes: seq<FetchOutcome>, now: int)
    requires |outcomes| == |ws|
    requires forall w :: w in ws && w.latestTask == None ==> !w.HasRecentFailure()
    ensures forall w :: w in EnrichAll(ws, outcomes) && w.HasRecentFailure() ==> w.latestTask.Some?
    ensures 0.0 <= Analytics.FleetAnalytics(EnrichAll(ws, outcomes), now).FailureRate() <= 1.0
  {
    var r := EnrichAll(ws, outcomes);
    forall w | w in r && w.HasRecentFailure() ensures w.latestTask.Some? {
      var i :| 0 <= i < |r| && r[i] == w;
      assert ws[i] in ws;
    }
    Analytics.FailureRateAtMostOne(Analytics.FleetAnalytics(r, now));
  }

  /** The filter bar lets a worker through exactly when it is listed and matches every filter. */
  lemma FilteredMembers(ws: seq<Worker>, search: string, fq: FilterOption, fa: FilterOption,
                        ff: FilterOption, now: int, w: Worker)
    ensures w in Filtered(ws, search, fq, fa, ff, now) <==> w in ws && Matches(w, search, fq, fa, ff, now)
  {
    var s0 := Searched(ws, search);
    var s1 := ApplyOption(s0, fq, QuarantinedAt(now));
    var s2 := ApplyOption(s1, fa, ActiveAt(now));
    if search != [] {
      FilterMember(ws, SearchFor(search), w);
    }
    OptionMember(s0, fq, QuarantinedAt(now), w);
    OptionMember(s1, fa, ActiveAt(now), w);
    OptionMember(s2, ff, Failing(), w);
  }

  /** With no search text and every filter at "all", the whole listing is shown. */
  lemma NoFiltersShowAll(ws: seq<Worker>, now: int)
    ensures Filtered(ws, [], All, All, All, now) == ws
  {
  }

  /** "Yes" and "no" of the failure filter split what "all" shows between them. */
  lemma FailureChoicesPartition(ws: seq<Worker>, search: string, fq: FilterOption, fa: FilterOption, now: int)
    ensures multiset(Filtered(ws, search, fq, fa, Yes, now)) + multiset(Filtered(ws, search, fq, fa, No, now))
            == multiset(Filtered(ws, search, fq, fa, All, now))
  {
    var shown := ApplyOption(ApplyOption(Searched(ws, search), fq, QuarantinedAt(now)), fa, ActiveAt(now));
    assert Filtered(ws, search, fq, fa, All, now) == shown;
    assert Filtered(ws, search, fq, fa, Yes, now) == Filter(shown, Failing());
    assert Filtered(ws, search, fq, fa, No, now) == Filter(shown, Not(Failing()));
    FilterSplit(shown, Failing(), Not(Failing()));
  }

  /** Searching is blind to letter case in the search text. */
  lemma SearchIgnoresCase(w: Worker, search: string)
    ensures MatchesSearch(w, search) <==> MatchesSearch(w, Fold(search))
  {
    var folded := Fold(search);
    FoldIdempotent(search);
    forall s: string, i | 0 <= i <= |s| - |search|
      ensures OccursAt(s, search, i) == OccursAt(s, folded, i)
    {
    }
  }

  /** Sorted by last activity, a worker that was never active comes after every one that was. */
  lemma NeverActiveSortLast(s: seq<Worker>)
    requires Ordered(s, ByLastActive)
    ensures forall i, j :: 0 <= i < j < |s| && s[j].LastActive().Some? ==> s[i].LastActive().Some?
  {
  }

  /** Sorted by last activity, dated workers come most recent first. */
  lemma LastActiveDescending(s: seq<Worker>)
    requires Ordered(s, ByLastActive)
    ensures forall i, j :: 0 <= i < j < |s| && s[i].LastActive().Some? && s[j].LastActive().Some? ==>
              s[j].LastActive().value <= s[i].LastActive().value
  {
  }

  /** The time-based labels in whole seconds: 30 minutes, 2 hours, 24 hours and 7 days. */
  lemma LabelInSeconds(w: Worker, now: int)
    requires w.taskState == None && w.LastActive().Some?
    ensures var e := now - w.LastActive().value;
            (StatusLabel(w, now) == Active <==> e < 1800) &&
            (StatusLabel(w, now) == Recent <==> 1800 <= e < 7200) &&
            (StatusLabel(w, now) == Today <==> 7200 <= e < 86400) &&
            (StatusLabel(w, now) == ThisWeek <==> 86400 <= e < 604800) &&
            (StatusLabel(w, now) == Idle <==> 604800 <= e)
  {
  }

  /** Without a task state, the colour follows the label band for band. */
  lemma ColorFollowsLabel(w: Worker, now: int)
    requires w.taskState == None
    ensures StatusLabel(w, now) == Unknown <==> StatusColor(w, now) == Palette.Gray
    ensures StatusLabel(w, now) == Active <==> StatusColor(w, now) == Palette.Green
    ensures StatusLabel(w, now) == Recent <==> StatusColor(w, now) == Palette.Mint
    ensures StatusLabel(w, now) == Today <==> StatusColor(w, now) == Palette.Blue
    ensures StatusLabel(w, now) == ThisWeek <==> StatusColor(w, now) == Palette.Orange
    ensures StatusLabel(w, now) == Idle <==> StatusColor(w, now) == Palette.Red
  {
  }

  /**
   * The row's label agrees with the worker's own activity predicates: a
   * label other than "Idle" or "Unknown" means active within 7 days, and
   * "Active" means active within 30 minutes.
   */
  lemma LabelAgreesWithActivity(w: Worker, now: int)
    requires w.taskState == None
    ensures StatusLabel(w, now) in {Active, Recent, Today, ThisWeek} <==> w.IsActive(now)
    ensures StatusLabel(w, now) == Active <==> w.IsRecentlyActive(now)
  {
    ActiveInSeconds(w, now);
    if w.LastActive().Some? {
      LabelInSeconds(w, now);
    }
  }

  /** An "exception" task is labelled with its state but coloured by the time since last activity. */
  lemma ExceptionFallsBackToTimeColor(w: Worker, now: int)
    requires w.taskState == Some("exception")
    ensures StatusLabel(w, now) == TaskLabel("exception")
    ensures StatusColor(w, now) == StatusColor(w.(taskState := None), now)
  {
  }

  /** `timeAgo` in whole seconds: each unit is the integer quotient of the elapsed seconds. */
  lemma TimeAgoInSeconds(date: int, now: int)
    ensures var e := now - date;
            (e < 60 ==> TimeAgo(date, now) == JustNow) &&
            (60 <= e < 3600 ==> TimeAgo(date, now) == MinutesAgo(e / 60) && 1 <= e / 60 <= 59) &&
            (3600 <= e < 86400 ==> TimeAgo(date, now) == HoursAgo(e / 3600) && 1 <= e / 3600 <= 23) &&
            (86400 <= e ==> TimeAgo(date, now) == DaysAgo(e / 86400) && 1 <= e / 86400)
  {
    var e := now - date;
    if 60 <= e < 3600 {
      TruncOfQuotient(e, 60);
    } else if 3600 <= e < 86400 {
      TruncOfQuotient(e, 3600);
    } else if 86400 <= e {
      TruncOfQuotient(e, 86400);
    }
  }

  /**
   * Without a task state, the row's time text is the worker's last
   * activity `timeAgo`, except that under a minute it shows the seconds
   * (negative for an activity after `now`) instead of "Just now".
   */
  lemma DetailedTimeIsTimeAgo(w: Worker, now: int)
    requires w.taskState == None && w.LastActive().Some?
    ensures var last := w.LastActive().value;
            (now - last >= 60 ==> DetailedTime(w, now) == TimeAgo(last, now)) &&
            (now - last < 60 ==> DetailedTime(w, now) == SecondsAgo(now - last))
  {
  }
}
