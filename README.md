# Main-screen page navigation (KernelSU manager), modelled in Dafny

The KernelSU manager's main screen is a horizontal pager with one page per bottom-bar
destination (Home, SuperUser, Module, Setting). `MainPagerState` sits between the bar
and the pager. When a tab is tapped, it selects that page at once and launches one
cancellable coroutine job that animates the pager there. A newer tap cancels and replaces
the older job. When a job ends, its `finally` block reconciles the selection with the
page the pager actually shows, but only if that job is still the recorded one (the
stale-task guard). `syncPage()` lets the selection follow user swipes while no
navigation is in flight.

The model has three modules:

- `PagerNavigation` (`pager_navigation.dfy`) holds the state as a value, `PagerNav`. This
  value covers the pager's page count and current page, the controller's `selectedPage`,
  `isNavigating` and `navJob`, and the table of launched jobs. A job's identity is its
  index in that table (its generation). Each job has a status: `Active`,
  `CancelRequested` or `Exited`. The module gives one function per operation, each
  contracted with what the source promises, plus the invariant `Valid`.
- `PagerTraces` (`pager_traces.dfy`) treats the controller under any interleaving of UI-thread events. The
  events are a tap, the pager coming to rest on a page, a job running its `finally`
  block, and a `syncPage()` call. The lemmas are proved by induction over event sequences.
- `BottomBar` (`bottom_bar.dfy`) holds the classes `Pager` and `MainPagerState`. The
  fields of `MainPagerState` are updated in place. Each method is proved to move
  `State()` exactly as the matching `PagerNavigation` function does, and to keep `Valid`.

The coroutine machinery becomes events. `job.cancel()` only records a cancellation
request. A job's `finally` block is the separate event `JobExit(g)`, which can happen
at any later time for any launched job that has not run it yet. Moving the pager is the
event `PagerMoved(p)`, which stands for a swipe, animation progress or an interrupted
animation.

## Model

| member | source | states |
|---|---|---|
| `PagerNavigation.AnimationDuration` | manager/app/src/main/java/me/weishu/kernelsu/ui/component/BottomBar.kt:238-239 | The animation lasts at least 300 ms. It is never shorter than 100 ms per page of distance plus 100. Any jump of at most 2 pages lasts exactly 300 ms. |
| `PagerNavigation.DurationPerExtraPage` | manager/app/src/main/java/me/weishu/kernelsu/ui/component/BottomBar.kt:238-239 | From a distance of 2 pages upwards, each extra page adds exactly 100 ms. |
| `PagerNavigation.DurationMonotone` | manager/app/src/main/java/me/weishu/kernelsu/ui/component/BottomBar.kt:238-239 | A farther jump never animates for a shorter time. |
| `PagerNavigation.DurationWithinPager` | manager/app/src/main/java/me/weishu/kernelsu/ui/component/BottomBar.kt:238-239 | With `n` pages the duration lies between 300 ms and 100·n ms. It is exactly 300 ms when `n <= 3`. |
| `PagerNavigation.Cancel` | manager/app/src/main/java/me/weishu/kernelsu/ui/component/BottomBar.kt:233 | `cancel()` turns an active job into one with a pending cancellation. It leaves a cancelled or finished job unchanged. It keeps the job's captured target and duration. |
| `PagerNavigation.Init` | manager/app/src/main/java/me/weishu/kernelsu/ui/component/BottomBar.kt:218-228 | A new state selects the pager's current page. It is not navigating and has no job. It satisfies the invariant. |
| `PagerNavigation.InitAppPager` | manager/app/src/main/java/me/weishu/kernelsu/ui/component/BottomBar.kt:208-216 | The app's pager has 4 pages, one per destination, which is within the bar's 2..5 items. Its initial state satisfies the invariant. |
| `PagerNavigation.AnimateToPage` | manager/app/src/main/java/me/weishu/kernelsu/ui/component/BottomBar.kt:230-261 | A request for the selected page changes nothing: no cancel and no job. Any other request selects the target at once and sets navigating. Its job is a new generation, distinct from every earlier job, and carries the target and the computed duration. Only the previously recorded job is cancelled. The invariant is kept. |
| `PagerNavigation.FinishJob` | manager/app/src/main/java/me/weishu/kernelsu/ui/component/BottomBar.kt:252-258 | A superseded job's cleanup leaves `selectedPage`, `isNavigating` and `navJob` unchanged. The recorded job's cleanup always clears `isNavigating`. In both branches of line 255 it leaves `selectedPage` equal to the pager's page. The invariant is kept. |
| `PagerNavigation.SyncPage` | manager/app/src/main/java/me/weishu/kernelsu/ui/component/BottomBar.kt:263-267 | While idle, the selection becomes the pager's page. While navigating, nothing changes. |
| `PagerNavigation.SyncPageIdempotent` | manager/app/src/main/java/me/weishu/kernelsu/ui/component/BottomBar.kt:263-267 | Calling `syncPage()` twice has the same effect as calling it once. |
| `PagerNavigation.MovePager` | manager/app/src/main/java/me/weishu/kernelsu/ui/component/BottomBar.kt:219 | The pager moving on its own, such as a user swipe, keeps the controller's invariant. |
| `PagerNavigation.ValidAtMostOneActive` | manager/app/src/main/java/me/weishu/kernelsu/ui/component/BottomBar.kt:233-245 | Under the invariant, no two launched jobs are active at once. |
| `PagerTraces.Step` | manager/app/src/main/java/me/weishu/kernelsu/ui/component/BottomBar.kt:230-267 | Every event keeps the invariant and the page count. An event that cannot happen in the current state changes nothing. |
| `PagerTraces.Run` | manager/app/src/main/java/me/weishu/kernelsu/ui/component/BottomBar.kt:230-267 | The invariant holds after any sequence of events, which makes it the bound `0 <= selectedPage < pageCount`. |
| `PagerTraces.LastTapWins` | manager/app/src/main/java/me/weishu/kernelsu/ui/component/BottomBar.kt:230-245 | After any burst of unawaited taps, the selection is the last target and the pager has not moved. At most one job is active. Navigation is in flight if and only if it already was or some tap asked for an unselected page. Each tap launched at most one job. |
| `PagerTraces.IdleExitsChangeNothing` | manager/app/src/main/java/me/weishu/kernelsu/ui/component/BottomBar.kt:252-253 | While idle, any sequence of job cleanups leaves the selection, `isNavigating` and `navJob` unchanged. |
| `PagerTraces.SettleConverges` | manager/app/src/main/java/me/weishu/kernelsu/ui/component/BottomBar.kt:252-258 | If the recorded job runs its cleanup, in any order among superseded cleanups and with the pager at rest, the controller ends idle with the pager's page selected. |
| `PagerTraces.TapsThenSettle` | manager/app/src/main/java/me/weishu/kernelsu/ui/component/BottomBar.kt:230-267 | Take unawaited taps, then the pager coming to rest on `p`, then the cleanup of every launched job in any order. This assumes a navigation was already in flight or some tap asked for an unselected page. The controller then ends idle with `p` selected. That is the last target whenever the pager reached it. If instead the controller was idle and every tap asked for the selected page, no job is launched and the selection stays where it was (`LastTapWins`). |
| `PagerTraces.ConvergedKept` | manager/app/src/main/java/me/weishu/kernelsu/ui/component/BottomBar.kt:230-267 | Take a state where, when idle, the selection is the pager's page. Every event keeps that true, except the pager moving on its own while idle. |
| `PagerTraces.SyncPageConverges` | manager/app/src/main/java/me/weishu/kernelsu/ui/component/BottomBar.kt:263-267 | After `syncPage()`, from any state, an idle controller selects the pager's page. This closes the gap a swipe opens. |
| `PagerTraces.ConvergedKeptOverRun` | manager/app/src/main/java/me/weishu/kernelsu/ui/component/BottomBar.kt:230-267 | Along any trace in which the pager moves on its own only while navigating, a converged controller stays converged. |
| `PagerTraces.InterruptedScenario` | manager/app/src/main/java/me/weishu/kernelsu/ui/component/BottomBar.kt:252-257 | Tap 2, then at once tap 4. The user drags the pager to page 3 and both jobs end. The selection snaps back to page 3. |
| `BottomBar.Pager.SettleOn` | manager/app/src/main/java/me/weishu/kernelsu/ui/component/BottomBar.kt:219 | The pager, moving on its own, shows page `p` afterwards and keeps its page bound. This is the in-place counterpart of `PagerNavigation.MovePager`. |
| `BottomBar.MainPagerState.constructor` | manager/app/src/main/java/me/weishu/kernelsu/ui/component/BottomBar.kt:218-228 | The new object's state is `Init` on its pager's page. |
| `BottomBar.MainPagerState.AnimateToPage` | manager/app/src/main/java/me/weishu/kernelsu/ui/component/BottomBar.kt:230-261 | The in-place update gives exactly `PagerNavigation.AnimateToPage` of the old state and keeps the invariant. |
| `BottomBar.MainPagerState.FinishJob` | manager/app/src/main/java/me/weishu/kernelsu/ui/component/BottomBar.kt:252-258 | The in-place update gives exactly `PagerNavigation.FinishJob` of the old state and keeps the invariant. |
| `BottomBar.MainPagerState.SyncPage` | manager/app/src/main/java/me/weishu/kernelsu/ui/component/BottomBar.kt:263-267 | The in-place update gives exactly `PagerNavigation.SyncPage` of the old state and keeps the invariant. |

`Pager` stands in for the pager library's `PagerState`. It exposes only the page count and
the current page. `BottomBar.TwoQuickTaps` is an example trace through the class: tap 2,
at once tap 4, the pager reaches 4, and both jobs end.

Notes on how the code behaves:

- `navJob` is never reset to null (BottomBar.kt:228-261). After the recorded job's
  cleanup, `navJob` still names that finished job. So `isNavigating` tracks whether the
  recorded job has run its cleanup, not whether a job handle is held.
- `syncPage()` tests `selectedPage != currentPage` before assigning. The effect is the
  same as assigning unconditionally, and the model states it that way.
- A jump from page 0 to page 5 would need six pages, and the bar allows at most five. So
  inside the model every duration is between 300 and 500 ms. `AnimationDuration` itself
  is defined on all integers and gives 600 ms for that jump.

## Left out

- The scroll distance in pixels (BottomBar.kt:240-243) is left out. It mixes the
  float offset fraction with layout sizes. Where the pager lands is instead chosen by
  the environment, through `PagerMoved`.
- `animateScrollBy`, the `EaseInOut` tween and the coroutine dispatcher
  (BottomBar.kt:245-251) are left out. They are asynchronous animation. The model replaces them with the
  `JobExit` and `PagerMoved` events.
- The model assumes the launched job's body starts only after `navJob` has been assigned
  (a dispatched launch, not an inline one). It also assumes that `cancel()` does not run the
  job's `finally` block synchronously. Under both, `animateToPage` is atomic.
- A job cancelled before it ever started never runs its `finally` block. The model
  allows this: a `JobExit` event never has to happen.
- Cancelling jobs when the screen's coroutine scope is destroyed is left out. Nothing in
  the modelled code does this; it belongs to the scope.
- The Compose rendering of `BottomBar` and `NavigationBar` (BottomBar.kt:68-206) is
  left out: blur effect, insets, tint and fonts, and tap-gesture handling. From this code
  the model keeps only the 2..5 item bound (line 110) and the fact that taps pass the
  index of a bar item.
- `Natives.isManager`, `requireNewKernel` and `rootAvailable` (BottomBar.kt:70-71) are
  left out. They are native and root checks, i.e. foreign calls. When they fail, the bar
  is not shown, so no taps arrive.
- `rememberMainPagerState` (BottomBar.kt:270-278) is left out. It is Compose
  memoisation glue.
- Compose snapshot-state observation of `selectedPage` and `isNavigating` is left out.
  The fields are modelled as plain fields.
- KernelSUApplication.kt is not part of this model. It is application bootstrap:
  preferences, a hidden-API reflection shim, directory creation, an environment
  variable and an HTTP client. It holds no decision logic.
- Kotlin's 32-bit `Int` is not modelled. Page indices stay within 0..4 and durations
  within 300..500, so nothing can overflow.
- Out-of-range tap targets and pages are caller errors, required away. In a trace,
  events that cannot happen are ignored: an out-of-range page, or a second cleanup of
  the same job.
