/** The controller under any interleaving of what can happen to it on the UI thread:
    taps on the bar, the pager coming to rest on a page, a navigation job running its
    `finally` block, and the host calling `syncPage()`.  Every such event runs to
    completion before the next one starts, so a run of the controller is a sequence of
    events. */
module PagerTraces {
  import opened PagerNavigation

  datatype Event =
    | Tap(target: int)      // animateToPage(target), from the bar's onClick
    | PagerMoved(page: int) // the pager now shows `page` (user swipe or animation progress)
    | JobExit(job: nat)     // job `job` completed or was cancelled: its finally block runs
    | PageChanged           // the host observed a page change and calls syncPage()

  /** Events the environment can actually produce in state `s`: targets and pages are
      pages of the pager, and a job runs its finally block once, after its launch. */
  predicate Enabled(s: PagerNav, e: Event) {
    match e
    case Tap(t) => 0 <= t < s.pageCount
    case PagerMoved(p) => 0 <= p < s.pageCount
    case JobExit(g) => Pending(s, g)
    case PageChanged => true
  }

  /** One event; an event the environment cannot produce in `s` leaves `s` as it is. */
  function Step(s: PagerNav, e: Event): (r: PagerNav)
    requires Valid(s)
    ensures Valid(r)
    ensures r.pageCount == s.pageCount
    ensures !Enabled(s, e) ==> r == s
  {
    if !Enabled(s, e) then s
    else match e
      case Tap(t) => AnimateToPage(s, t)
      case PagerMoved(p) => MovePager(s, p)
      case JobExit(g) => FinishJob(s, g)
      case PageChanged => SyncPage(s)
  }

  /** The state after the events `es`, one after the other. */
  function Run(s: PagerNav, es: seq<Event>): (r: PagerNav)
    requires Valid(s)
    ensures Valid(r)
    ensures r.pageCount == s.pageCount
    decreases |es|
  {
    if es == [] then s else Run(Step(s, es[0]), es[1..])
  }

  /** One tap per target, in order, with nothing in between. */
  function Taps(ts: seq<int>): seq<Event> {
    seq(|ts|, i requires 0 <= i < |ts| => Tap(ts[i]))
  }

  predicate AllExits(es: seq<Event>) {
    forall i :: 0 <= i < |es| ==> es[i].JobExit?
  }

  /** Running two traces one after the other is running their concatenation. */
  lemma {:induction false} RunAppend(s: PagerNav, a: seq<Event>, b: seq<Event>)
    requires Valid(s)
    ensures Run(s, a + b) == Run(Run(s, a), b)
    decreases |a|
  {
    if a == [] {
      assert a + b == b;
    } else {
      assert (a + b)[0] == a[0];
      assert (a + b)[1..] == a[1..] + b;
      RunAppend(Step(s, a[0]), a[1..], b);
    }
  }

  /** Rapid taps, none awaited: the selection is the last target, the pager has not
      moved, at most one job is active, navigation is in flight exactly when it was
      already or some tap asked for a page other than the selected one, and each tap
      launched at most one job. */
  lemma {:induction false} LastTapWins(s: PagerNav, ts: seq<int>)
    requires Valid(s) && |ts| > 0
    requires forall i :: 0 <= i < |ts| ==> 0 <= ts[i] < s.pageCount
    ensures Run(s, Taps(ts)).selectedPage == ts[|ts| - 1]
    ensures Run(s, Taps(ts)).currentPage == s.currentPage
    ensures AtMostOneActive(Run(s, Taps(ts)).jobs)
    ensures Run(s, Taps(ts)).isNavigating <==>
      (s.isNavigating || exists i :: 0 <= i < |ts| && ts[i] != s.selectedPage)
    ensures |s.jobs| <= |Run(s, Taps(ts)).jobs| <= |s.jobs| + |ts|
    decreases |ts|
  {
    var s1 := Step(s, Tap(ts[0]));
    assert Taps(ts)[0] == Tap(ts[0]);
    assert Taps(ts)[1..] == Taps(ts[1..]);
    assert s1 == AnimateToPage(s, ts[0]);
    ValidAtMostOneActive(Run(s, Taps(ts)));
    if |ts| == 1 {
      assert Run(s1, []) == s1;
    } else {
      LastTapWins(s1, ts[1..]);
      var tail := ts[1..];
      if ts[0] == s.selectedPage {
        assert s1 == s;
        if exists i :: 0 <= i < |ts| && ts[i] != s.selectedPage {
          var i :| 0 <= i < |ts| && ts[i] != s.selectedPage;
          assert tail[i - 1] != s1.selectedPage;
        }
        if exists i :: 0 <= i < |tail| && tail[i] != s1.selectedPage {
          var i :| 0 <= i < |tail| && tail[i] != s1.selectedPage;
          assert ts[i + 1] != s.selectedPage;
        }
      } else {
        assert s1.isNavigating;
      }
    }
  }

  /** While idle, job exits change nothing the user sees: every job that can still run
      its finally block is a superseded one. */
  lemma {:induction false} IdleExitsChangeNothing(s: PagerNav, es: seq<Event>)
    requires Valid(s) && !s.isNavigating && AllExits(es)
    ensures !Run(s, es).isNavigating
    ensures Run(s, es).selectedPage == s.selectedPage
    ensures Run(s, es).currentPage == s.currentPage
    ensures Run(s, es).navJob == s.navJob
    decreases |es|
  {
    if es != [] {
      var s1 := Step(s, es[0]);
      assert s1.selectedPage == s.selectedPage && !s1.isNavigating;
      assert AllExits(es[1..]);
      IdleExitsChangeNothing(s1, es[1..]);
    }
  }

  /** Once the recorded job has run its finally block, in whatever order the superseded
      jobs run theirs and with the pager at rest, the controller is idle and its
      selection is the pager's page. */
  lemma {:induction false} SettleConverges(s: PagerNav, es: seq<Event>)
    requires Valid(s) && s.isNavigating && AllExits(es)
    requires JobExit(|s.jobs| - 1) in es
    ensures !Run(s, es).isNavigating
    ensures Run(s, es).selectedPage == Run(s, es).currentPage == s.currentPage
    decreases |es|
  {
    var s1 := Step(s, es[0]);
    assert AllExits(es[1..]);
    if es[0] == JobExit(|s.jobs| - 1) {
      assert !s1.isNavigating && s1.selectedPage == s.currentPage;
      IdleExitsChangeNothing(s1, es[1..]);
    } else {
      assert s1.isNavigating && |s1.jobs| == |s.jobs|;
      assert JobExit(|s.jobs| - 1) in es[1..];
      SettleConverges(s1, es[1..]);
    }
  }

  /** Idle means converged: with no navigation in flight, the selection is the page the
      pager shows. */
  predicate Converged(s: PagerNav) {
    !s.isNavigating ==> s.selectedPage == s.currentPage
  }

  /** Every event keeps the controller converged, except the pager moving on its own
      while idle (the gap that the next `syncPage()` closes). */
  lemma ConvergedKept(s: PagerNav, e: Event)
    requires Valid(s) && Converged(s)
    requires !e.PagerMoved? || s.isNavigating
    ensures Converged(Step(s, e))
  {
  }

  /** `syncPage()` converges the controller from any state. */
  lemma SyncPageConverges(s: PagerNav)
    requires Valid(s)
    ensures Converged(Step(s, PageChanged))
  {
  }

  /** A trace in which the pager moves on its own only while a navigation is in flight. */
  predicate NoIdlePagerMove(s: PagerNav, es: seq<Event>)
    requires Valid(s)
    decreases |es|
  {
    es == [] ||
    ((!es[0].PagerMoved? || s.isNavigating) && NoIdlePagerMove(Step(s, es[0]), es[1..]))
  }

  /** A converged controller stays converged along any trace without idle pager moves. */
  lemma {:induction false} ConvergedKeptOverRun(s: PagerNav, es: seq<Event>)
    requires Valid(s) && Converged(s) && NoIdlePagerMove(s, es)
    ensures Converged(Run(s, es))
    decreases |es|
  {
    if es != [] {
      ConvergedKept(s, es[0]);
      ConvergedKeptOverRun(Step(s, es[0]), es[1..]);
    }
  }

  /** Taps without waiting, then the pager comes to rest on page `p`, then every job
      that could have been launched runs its finally block, in any order: the
      controller ends idle with page `p` selected, which is the last target whenever
      the pager reached it. */
  lemma TapsThenSettle(s: PagerNav, ts: seq<int>, p: int, exits: seq<Event>)
    requires Valid(s) && |ts| > 0
    requires forall i :: 0 <= i < |ts| ==> 0 <= ts[i] < s.pageCount
    requires s.isNavigating || exists i :: 0 <= i < |ts| && ts[i] != s.selectedPage
    requires 0 <= p < s.pageCount
    requires AllExits(exits)
    requires forall g :: 0 <= g < |s.jobs| + |ts| ==> JobExit(g) in exits
    ensures !Run(s, Taps(ts) + [PagerMoved(p)] + exits).isNavigating
    ensures Run(s, Taps(ts) + [PagerMoved(p)] + exits).selectedPage == p
  {
    LastTapWins(s, ts);
    var r1 := Run(s, Taps(ts));
    var r2 := Run(r1, [PagerMoved(p)]);
    assert [PagerMoved(p)][1..] == [];
    assert Step(r1, PagerMoved(p)) == MovePager(r1, p);
    assert r2 == Run(MovePager(r1, p), []);
    RunAppend(s, Taps(ts), [PagerMoved(p)]);
    RunAppend(s, Taps(ts) + [PagerMoved(p)], exits);
    assert JobExit(|r2.jobs| - 1) in exits;
    SettleConverges(r2, exits);
  }

  /** Pager on page 0 of 5: tap 2 and at once tap 4; the user drags the pager to page 3
      before either job ends: once both finally blocks ran, the selection has snapped back
      to page 3. */
  lemma InterruptedScenario()
    ensures var s := Run(Init(5, 0), [Tap(2), Tap(4), PagerMoved(3), JobExit(0), JobExit(1)]);
      !s.isNavigating && s.selectedPage == 3
  {
  }
}
