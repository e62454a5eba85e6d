/** The navigation state of the manager's main screen as the object it is: the pager it
    drives and `MainPagerState`, whose methods update its fields in place.  Each method
    is proved to move the object's abstract state, `State()`, exactly as the matching
    function of module PagerNavigation does, and to keep that module's invariant. */
module BottomBar {
  import opened PagerNavigation

  /** The horizontally scrolling pager, seen from the controller: how many pages it has
      and the page it currently shows.  Only the pager itself (its animation, or the
      user's finger) moves it; `SettleOn` is that happening. */
  class Pager {
    const pageCount: int
    var currentPage: int

    predicate Valid()
      reads this
    {
      MIN_ITEMS <= pageCount <= MAX_ITEMS && 0 <= currentPage < pageCount
    }

    constructor (pageCount: int, initialPage: int)
      requires MIN_ITEMS <= pageCount <= MAX_ITEMS && 0 <= initialPage < pageCount
      ensures Valid()
      ensures this.pageCount == pageCount && currentPage == initialPage
    {
      this.pageCount := pageCount;
      currentPage := initialPage;
    }

    method SettleOn(p: int)
      requires Valid() && 0 <= p < pageCount
      modifies this
      ensures Valid()
      ensures currentPage == p
    {
      currentPage := p;
    }
  }

  class MainPagerState {
    const pager: Pager
    var selectedPage: int
    var isNavigating: bool
    /** The job launched by the latest navigating `AnimateToPage`, by generation. */
    var navJob: Option<nat>
    /** The coroutine scope's side of the story: every navigation job launched from this
        object, with the target and duration its body captured; index = generation. */
    var launched: seq<NavJob>

    function State(): PagerNav
      reads this, pager
    {
      PagerNav(pager.pageCount, pager.currentPage, selectedPage, isNavigating, navJob, launched)
    }

    predicate Valid()
      reads this, pager
    {
      PagerNavigation.Valid(State())
    }

    constructor (pager: Pager)
      requires pager.Valid()
      ensures this.pager == pager
      ensures Valid()
      ensures State() == Init(pager.pageCount, pager.currentPage)
    {
      this.pager := pager;
      selectedPage := pager.currentPage;
      isNavigating := false;
      navJob := None;
      launched := [];
    }

    /** A tap on destination `targetIndex` of the bar. */
    method AnimateToPage(targetIndex: int)
      requires Valid() && 0 <= targetIndex < pager.pageCount
      modifies this
      ensures Valid()
      ensures State() == PagerNavigation.AnimateToPage(old(State()), targetIndex)
    {
      if targetIndex == selectedPage {
        return;
      }
      match navJob {
        case Some(g) => launched := launched[g := Cancel(launched[g])];
        case None =>
      }
      selectedPage := targetIndex;
      isNavigating := true;
      var duration := AnimationDuration(targetIndex, pager.currentPage);
      launched := launched + [NavJob(targetIndex, duration, Active)];
      navJob := Some(|launched| - 1);
    }

    /** The `finally` block of job `job`: it acts only while `job` is still the recorded
        one, and then ends navigation and falls back to the pager's page if the target
        was not reached. */
    method FinishJob(job: nat)
      requires Valid() && Pending(State(), job)
      modifies this
      ensures Valid()
      ensures State() == PagerNavigation.FinishJob(old(State()), job)
    {
      var myJob := launched[job];
      launched := launched[job := myJob.(status := Exited)];
      if navJob == Some(job) {
        isNavigating := false;
        if pager.currentPage != myJob.target {
          selectedPage := pager.currentPage;
        }
      }
    }

    /** Called on every page change the host observes. */
    method SyncPage()
      requires Valid()
      modifies this
      ensures Valid()
      ensures State() == PagerNavigation.SyncPage(old(State()))
    {
      if !isNavigating && selectedPage != pager.currentPage {
        selectedPage := pager.currentPage;
      }
    }
  }

  /** Pager on page 0 of 5: tap 2 and at once tap 4, the pager reaches page 4, the newer
      job and then the superseded one run their finally blocks. */
  method TwoQuickTaps() {
    var pager := new Pager(5, 0);
    var state := new MainPagerState(pager);
    state.AnimateToPage(2);
    state.AnimateToPage(4);
    assert state.selectedPage == 4 && state.isNavigating;
    assert state.launched == [NavJob(2, 300, CancelRequested), NavJob(4, 500, Active)];
    pager.SettleOn(4);
    assert state.Valid();
    state.FinishJob(1);
    state.FinishJob(0);
    assert !state.isNavigating && state.selectedPage == 4;
  }
}
