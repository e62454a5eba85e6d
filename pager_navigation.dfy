/** The page-navigation controller of the manager's main screen, as values.

    `PagerNav` is one snapshot of everything the controller's decisions depend on:
    the pager it drives (page count and the page it physically shows), the
    controller's own three fields (`selectedPage`, `isNavigating`, `navJob`) and the
    table of navigation jobs launched so far.  A job's identity is its index in that
    table (its generation), so "the job recorded in `navJob`" is `jobs[navJob.value]`.
    Each operation of the controller is one function from snapshot to snapshot; the
    class in module BottomBar is proved to follow them. */
module PagerNavigation {

  datatype Option<T> = None | Some(value: T)

  /** Number of entries of the bottom-bar destination enum: Home, SuperUser, Module, Setting. */
  const DESTINATION_COUNT := 4
  /** The navigation bar accepts between MIN_ITEMS and MAX_ITEMS items. */
  const MIN_ITEMS := 2
  const MAX_ITEMS := 5

  /** Where a launched navigation job is in its life. `CancelRequested`: `cancel()` was
      called but its `finally` block has not run yet.  `Exited`: the `finally` block ran
      (after normal completion or after cancellation). */
  datatype JobStatus = Active | CancelRequested | Exited

  /** A launched navigation job: the target page and the animation duration it
      captured when launched, and its status. */
  datatype NavJob = NavJob(target: int, duration: int, status: JobStatus)

  datatype PagerNav = PagerNav(
    pageCount: int,
    currentPage: int,
    selectedPage: int,
    isNavigating: bool,
    navJob: Option<nat>,
    jobs: seq<NavJob>)

  function Abs(x: int): nat {
    if x < 0 then -x else x
  }

  /** Animation length in milliseconds for a jump from page `current` to page `target`:
      the page distance, but at least 2, times 100, plus 100. */
  function AnimationDuration(target: int, current: int): (ms: int)
    ensures ms >= 300
    ensures ms >= 100 * Abs(target - current) + 100
    ensures Abs(target - current) <= 2 ==> ms == 300
  {
    var distance := if Abs(target - current) < 2 then 2 else Abs(target - current);
    100 * distance + 100
  }

  /** `cancel()` on a job: an active job gets a cancellation request, any other is left alone. */
  function Cancel(j: NavJob): (c: NavJob)
    ensures c.target == j.target && c.duration == j.duration
    ensures c.status == (if j.status == Active then CancelRequested else j.status)
  {
    if j.status == Active then j.(status := CancelRequested) else j
  }

  /** A job that has been launched and whose `finally` block has not run yet. */
  predicate Pending(s: PagerNav, g: nat) {
    g < |s.jobs| && s.jobs[g].status != Exited
  }

  /** No two launched jobs are active at once. */
  predicate AtMostOneActive(jobs: seq<NavJob>) {
    forall i, j :: 0 <= i < j < |jobs| && jobs[i].status == Active ==> jobs[j].status != Active
  }

  /** The controller's invariant. */
  predicate Valid(s: PagerNav) {
    // the bar has between 2 and 5 items, one per pager page
    && MIN_ITEMS <= s.pageCount <= MAX_ITEMS
    && 0 <= s.currentPage < s.pageCount
    && 0 <= s.selectedPage < s.pageCount
    && (forall g :: 0 <= g < |s.jobs| ==> 0 <= s.jobs[g].target < s.pageCount)
    // navJob records the most recently launched job, and nothing before the first launch
    && s.navJob == (if |s.jobs| == 0 then None else Some(|s.jobs| - 1))
    // every earlier job was asked to cancel (or is gone); the recorded one never was
    && (forall g :: 0 <= g < |s.jobs| - 1 ==> s.jobs[g].status != Active)
    && (|s.jobs| > 0 ==> s.jobs[|s.jobs| - 1].status != CancelRequested)
    // navigating exactly while the recorded job has not run its cleanup
    && (s.isNavigating <==> |s.jobs| > 0 && s.jobs[|s.jobs| - 1].status == Active)
    // while navigating, the selection is the recorded job's target
    && (s.isNavigating ==> s.selectedPage == s.jobs[|s.jobs| - 1].target)
  }

  /** The state right after construction: nothing selected but the pager's page, idle,
      no job. */
  function Init(pageCount: int, currentPage: int): (s: PagerNav)
    requires MIN_ITEMS <= pageCount <= MAX_ITEMS && 0 <= currentPage < pageCount
    ensures Valid(s)
    ensures s.selectedPage == s.currentPage == currentPage && !s.isNavigating
    ensures s.navJob == None && s.jobs == []
  {
    PagerNav(pageCount, currentPage, currentPage, false, None, [])
  }

  /** `animateToPage(t)`: a request for the selected page is ignored; any other request
      cancels the recorded job, selects `t` at once and launches a new job toward `t`. */
  function AnimateToPage(s: PagerNav, t: int): (r: PagerNav)
    requires Valid(s) && 0 <= t < s.pageCount
    ensures Valid(r)
    ensures r.pageCount == s.pageCount && r.currentPage == s.currentPage
    // a request for the page already selected changes nothing: no cancel, no new job
    ensures t == s.selectedPage ==> r == s
    // otherwise: selected at once, navigating, recorded job is a new generation
    ensures t != s.selectedPage ==>
      && r.selectedPage == t
      && r.isNavigating
      && |r.jobs| == |s.jobs| + 1
      && r.navJob == Some(|s.jobs|)
      && r.jobs[|s.jobs|] == NavJob(t, AnimationDuration(t, s.currentPage), Active)
    // the previously recorded job is cancelled; no other earlier job is touched
    ensures t != s.selectedPage ==>
      forall g :: 0 <= g < |s.jobs| ==>
        r.jobs[g] == (if Some(g) == s.navJob then Cancel(s.jobs[g]) else s.jobs[g])
  {
    if t == s.selectedPage then s
    else
      var cancelled := match s.navJob
        case Some(g) => s.jobs[g := Cancel(s.jobs[g])]
        case None => s.jobs;
      var job := NavJob(t, AnimationDuration(t, s.currentPage), Active);
      s.(selectedPage := t, isNavigating := true,
         jobs := cancelled + [job], navJob := Some(|cancelled|))
  }

  /** The `finally` block of job `g`, run once when the job completes or is cancelled,
      with the pager showing `s.currentPage`. */
  function FinishJob(s: PagerNav, g: nat): (r: PagerNav)
    requires Valid(s) && Pending(s, g)
    ensures Valid(r)
    ensures r.pageCount == s.pageCount && r.currentPage == s.currentPage && r.navJob == s.navJob
    ensures r.jobs == s.jobs[g := s.jobs[g].(status := Exited)]
    // stale-task guard: a job that is no longer recorded leaves the controller alone
    ensures s.navJob != Some(g) ==>
      r.selectedPage == s.selectedPage && r.isNavigating == s.isNavigating
    // the recorded job stops navigation and leaves the selection on the pager's page
    ensures s.navJob == Some(g) ==> !r.isNavigating && r.selectedPage == s.currentPage
  {
    var jobs := s.jobs[g := s.jobs[g].(status := Exited)];
    if s.navJob == Some(g) then
      var selected := if s.currentPage != s.jobs[g].target then s.currentPage else s.selectedPage;
      s.(isNavigating := false, selectedPage := selected, jobs := jobs)
    else
      s.(jobs := jobs)
  }

  /** `syncPage()`: when idle, the selection follows the pager's page; while navigating
      nothing changes. */
  function SyncPage(s: PagerNav): (r: PagerNav)
    requires Valid(s)
    ensures Valid(r)
    ensures s.isNavigating ==> r == s
    ensures !s.isNavigating ==> r == s.(selectedPage := s.currentPage)
  {
    if !s.isNavigating && s.selectedPage != s.currentPage then s.(selectedPage := s.currentPage)
    else s
  }

  /** The pager comes to rest on page `p` for a reason of its own (a swipe, an animation
      frame, an interrupted animation). */
  function MovePager(s: PagerNav, p: int): (r: PagerNav)
    requires Valid(s) && 0 <= p < s.pageCount
    ensures Valid(r)
    ensures r.currentPage == p && r == s.(currentPage := p)
  {
    s.(currentPage := p)
  }

  lemma InitAppPager(p: int)
    requires 0 <= p < DESTINATION_COUNT
    ensures Valid(Init(DESTINATION_COUNT, p))
  {
  }

  /** Valid keeps the launched jobs one-active-at-most. */
  lemma ValidAtMostOneActive(s: PagerNav)
    requires Valid(s)
    ensures AtMostOneActive(s.jobs)
  {
  }

  /** For a distance of at least 2 pages, each further page adds exactly 100 ms. */
  lemma DurationPerExtraPage(t: int, c: int, t': int, c': int)
    requires Abs(t - c) >= 2 && Abs(t' - c') == Abs(t - c) + 1
    ensures AnimationDuration(t', c') == AnimationDuration(t, c) + 100
  {
  }

  /** A farther jump never animates for a shorter time. */
  lemma DurationMonotone(t: int, c: int, t': int, c': int)
    requires Abs(t - c) <= Abs(t' - c')
    ensures AnimationDuration(t, c) <= AnimationDuration(t', c')
  {
  }

  /** Between two pages of a pager with `n` pages the animation lasts at least 300 ms and
      at most 100*n ms (300 ms when there are at most three pages). */
  lemma DurationWithinPager(t: int, c: int, n: int)
    requires 0 <= t < n && 0 <= c < n
    ensures 300 <= AnimationDuration(t, c) <= (if n <= 3 then 300 else 100 * n)
  {
  }

  /** `syncPage()` twice is `syncPage()` once. */
  lemma SyncPageIdempotent(s: PagerNav)
    requires Valid(s)
    ensures SyncPage(SyncPage(s)) == SyncPage(s)
  {
  }
}
