# HoverMenuService lifecycle, in Dafny

`HoverMenuService` is the Android `Service` that hosts the floating hover
menu (a `HoverView`) in a system window. It has two fields: `mIsRunning` and
`mHoverView`. Four entry points change them or call out to the platform:

- `onStartCommand` launches the menu unless it is already running.
- `onDestroy` detaches a running menu.
- The exit listener registered on the view detaches it, runs the exiting hook
  and closes the service.
- `close` asks the platform to stop the service.

`onCreate` announces the service in the foreground with a notification.

The project has two modules:

- `lifecycle.dfy`, module `Lifecycle`: the service as a pure state machine.
  A `Snapshot(running, hasView)` abstracts the two fields. `Step` is one entry
  point and gives the new snapshot and the external effects (`Event`s) in
  order. `Run` drives a whole trace of entry points. The lemmas about traces
  cover idempotent start, at most one view before `onDestroy`, the
  attach/detach balance, repeated `close`, and the ways the code departs from
  "view present iff running".
- `window.dfy`, module `Window`: the class `HoverMenuService`. It has the
  fields `running` and `hoverView` (an opaque `HoverView` handle) and a ghost
  `log` of external calls. Each entry-point method (`OnCreate`,
  `OnStartCommand`, `OnMenuExit`, `Close`, `OnDestroy`) is proved to change
  the fields and the log exactly as `Lifecycle.Step` says. So the lemmas about
  `Run` describe every sequence of entry-point calls. `InitHoverMenu`,
  `InitNotification`, `StopSelf` and the two hooks are steps inside those
  entry points, each with its own contract. `initHoverMenu` is private in the
  service (HoverMenuService.java:117) and is reached only from
  `onStartCommand` on a stopped service. Dafny has no private methods, so the
  model does not stop a client from calling `InitHoverMenu` directly.

The platform's `onDestroy` after `stopSelf` is not part of HoverMenuService.java.
It is modelled as a separate input (`Destroy`) that the environment may fire
at any time.

The model follows the code, not the natural invariant "a view is present
if and only if the menu is running". The class documentation
(HoverMenuService.java:43-44) says the view is displayed whenever any Intent
is received, and removed and destroyed whenever the service is destroyed. The
code departs from both in three ways:

- `mHoverView` is never cleared (`ViewOutlivesRunning`).
- The exit listener does not reset `mIsRunning`. A start signal that reaches
  the same instance after a user exit is therefore a no-op
  (`StartAfterExitIsNoop`).
- The platform's `onDestroy` after such an exit detaches the view a second
  time (`ExitThenDestroyDetachesTwice`).

The only invariant the code keeps is "running implies a view exists"
(`HoverMenuService.Valid`, and the contracts of `Step` and `Run`). The
permission and null-intent guard at the top of `onStartCommand` is commented
out in the code, so it is not modelled. A null intent is accepted (`None`) and
is passed on to the launched hook.

## Model

| member | source | states |
|---|---|---|
| `Lifecycle.ForegroundNotificationId` | hover/src/main/java/io/mattcarroll/hover/window/HoverMenuService.java:166-169 | the foreground notification id is non-zero (Android rejects 0) and fits in a Java int |
| `Lifecycle.ForegroundNotification` | hover/src/main/java/io/mattcarroll/hover/window/HoverMenuService.java:173-198 | getForegroundNotification never returns null, on either SDK branch |
| `Lifecycle.NotificationEffects` | hover/src/main/java/io/mattcarroll/hover/window/HoverMenuService.java:158-164 | initNotification calls startForeground with the service's id if and only if the notification is non-null, and does nothing else |
| `Lifecycle.Step` | hover/src/main/java/io/mattcarroll/hover/window/HoverMenuService.java:56-109 | only a start sets the running flag and only onDestroy clears it; the view reference is never cleared; "running implies a view" is preserved; a view is created if and only if a start finds the menu stopped; the view is detached if and only if the exit listener fires or onDestroy finds the menu running |
| `Lifecycle.Run` | hover/src/main/java/io/mattcarroll/hover/window/HoverMenuService.java:56-109 | along any trace of entry points, the view reference is never lost and "running implies a view" is kept |
| `Lifecycle.StartsWhileRunningAreNoops` | hover/src/main/java/io/mattcarroll/hover/window/HoverMenuService.java:93-99 | any number of start signals to a running menu change neither the state nor the effects |
| `Lifecycle.LaunchOnceForManyStarts` | hover/src/main/java/io/mattcarroll/hover/window/HoverMenuService.java:93-127 | a burst of starts on a stopped menu creates one view, docked right at 0.5, then sets the exit listener, attaches the view and runs the launched hook with the first intent, in that order |
| `Lifecycle.ViewsCreatedBeforeDestroy` | hover/src/main/java/io/mattcarroll/hover/window/HoverMenuService.java:56-100 | in any trace without onDestroy, exactly one view is created if the menu was stopped and some start arrives, and none otherwise; exits and closes never allow a second view |
| `Lifecycle.AttachDetachBalanceWithoutExit` | hover/src/main/java/io/mattcarroll/hover/window/HoverMenuService.java:93-109 | in any trace without a user exit, attaches plus "was running" equals detaches plus "still running" |
| `Lifecycle.StepBalanceWithoutExit` | hover/src/main/java/io/mattcarroll/hover/window/HoverMenuService.java:93-109 | the same balance for a single entry point other than the exit listener |
| `Lifecycle.ExitThenDestroyDetachesTwice` | hover/src/main/java/io/mattcarroll/hover/window/HoverMenuService.java:56-109 | a user exit followed by the platform's onDestroy detaches the view twice and leaves a stopped service that still holds the view |
| `Lifecycle.StartAfterExitIsNoop` | hover/src/main/java/io/mattcarroll/hover/window/HoverMenuService.java:56-100 | after a user exit the menu is still marked running, so a start on the same instance does nothing |
| `Lifecycle.ViewOutlivesRunning` | hover/src/main/java/io/mattcarroll/hover/window/HoverMenuService.java:93-109 | after a start and then onDestroy, the service is stopped but still holds a view, so "view present iff running" does not hold |
| `Lifecycle.DestroyIsIdempotent` | hover/src/main/java/io/mattcarroll/hover/window/HoverMenuService.java:103-109 | a second onDestroy does nothing, and after onDestroy the menu is not running |
| `Lifecycle.ClosesOnlyStop` | hover/src/main/java/io/mattcarroll/hover/window/HoverMenuService.java:73-75 | n calls of close in any state, even before the first start, leave the state unchanged and do exactly n stopSelf calls |
| `Lifecycle.DuplicateStartThenExit` | hover/src/main/java/io/mattcarroll/hover/window/HoverMenuService.java:56-127 | create, start, a duplicate start, then a user exit: startForeground once, one launch, then detach, exiting hook and stopSelf once each, in order |
| `Window.HoverView.CreateForWindow` | hover/src/main/java/io/mattcarroll/hover/window/HoverMenuService.java:118-122 | the new view remembers the docking position it was created with |
| `Window.HoverMenuService.constructor` | hover/src/main/java/io/mattcarroll/hover/window/HoverMenuService.java:54-55 | a new service is not running, holds no view and has made no calls |
| `Window.HoverMenuService.OnCreate` | hover/src/main/java/io/mattcarroll/hover/window/HoverMenuService.java:67-70 | onCreate calls startForeground with id 1234567089 and nothing else |
| `Window.HoverMenuService.InitNotification` | hover/src/main/java/io/mattcarroll/hover/window/HoverMenuService.java:158-164 | startForeground with the service's id is called exactly when the notification is non-null |
| `Window.HoverMenuService.Close` | hover/src/main/java/io/mattcarroll/hover/window/HoverMenuService.java:73-75 | close appends only stopSelf and changes no field |
| `Window.HoverMenuService.StopSelf` | hover/src/main/java/io/mattcarroll/hover/window/HoverMenuService.java:74 | the platform's stopSelf is recorded and changes no field |
| `Window.HoverMenuService.OnStartCommand` | hover/src/main/java/io/mattcarroll/hover/window/HoverMenuService.java:78-100 | always returns START_STICKY, for any intent (null included) and any prior state; when stopped it sets running and holds a fresh view docked right at 0.5, with the launch effects in order; when running it changes neither fields nor log |
| `Window.HoverMenuService.InitHoverMenu` | hover/src/main/java/io/mattcarroll/hover/window/HoverMenuService.java:117-127 | creates a fresh view docked right at 0.5, then sets the exit listener, attaches the view and runs the launched hook with the intent, in that order |
| `Window.HoverMenuService.OnHoverMenuLaunched` | hover/src/main/java/io/mattcarroll/hover/window/HoverMenuService.java:145-147 | the launched hook runs with the intent and changes no field |
| `Window.HoverMenuService.OnDestroy` | hover/src/main/java/io/mattcarroll/hover/window/HoverMenuService.java:103-109 | when running, detaches the view once and clears running but keeps the view reference; when stopped, changes nothing; afterwards the service is not running |
| `Window.HoverMenuService.OnMenuExit` | hover/src/main/java/io/mattcarroll/hover/window/HoverMenuService.java:56-64 | the exit listener does exactly detach, exiting hook, stopSelf, in that order, and leaves running and the view unchanged |
| `Window.HoverMenuService.OnHoverMenuExitingByUserRequest` | hover/src/main/java/io/mattcarroll/hover/window/HoverMenuService.java:153-155 | the exiting hook runs and changes no field |
| `Window.HoverMenuService.OnBind` | hover/src/main/java/io/mattcarroll/hover/window/HoverMenuService.java:113-115 | onBind returns null |

## Left out

- The commented-out permission and null-intent guard of `onStartCommand` (HoverMenuService.java:81-91) is dead code and is not modelled. `OverlayPermission` is not part of this model.
- Building the notification (the notification channel, `NotificationCompat.Builder`, the SDK-version branch, resource lookups) is Android API plumbing. `ForegroundNotification` abstracts it as a non-null `Notification` token.
- `HoverView` internals, `WindowViewController` and `WindowManager` are not part of this model. The view is an opaque handle, and its `setOnExitListener`, `addToWindow` and `removeFromWindow` calls appear only as logged events.
- The subclass hooks (`onHoverMenuLaunched`, `onHoverMenuExitingByUserRequest`) and the overridable `close`, `getForegroundNotification` and `getForegroundNotificationId` are modelled with the base class's behaviour. A subclass override that calls back into the service is not modelled.
- `getContextForHoverMenu` and `getHoverView` are simple accessors that the lifecycle never uses.
- `Log.d`/`Log.e` calls are diagnostics and are left out.
- Every foreign call is assumed to return normally: `HoverView.createForWindow`, `setOnExitListener`, `addToWindow`, `removeFromWindow`, `startForeground` and `stopSelf`. The source sets `mIsRunning` before `initHoverMenu` runs (HoverMenuService.java:95-96). So an exception from `createForWindow` or `addToWindow` would leave the flag set with no view, or with a view that was never attached, and the exception would escape `onStartCommand`. An exception escaping an entry point (a service crash) is not modelled. `Valid()` and the contract of `Step` hold only under this assumption.
- There is no threading. The platform drives every entry point from one dispatch thread.
- The float docking fraction `0.5f` is modelled as the real `0.5`. No float arithmetic happens on it.
- The platform's own reaction to `stopSelf` (a later `onDestroy`) and the sticky restart after the process dies are not modelled as automatic. `onDestroy` is an input that may arrive at any time, and a restarted process is a fresh `HoverMenuService`.
