/** The HoverMenuService itself: the Android Service that shows a HoverView
    in a Window.  Its two fields are updated in place by the platform's
    callbacks; the ghost log records every external call in order.  Each
    entry point (OnCreate, OnStartCommand, OnMenuExit, Close, OnDestroy) is
    proved to agree with Lifecycle.Step, so the trace lemmas of module
    Lifecycle describe every sequence of entry-point calls.  InitHoverMenu,
    InitNotification, StopSelf and the two hooks are the steps those entry
    points take; initHoverMenu is private in the service and is only
    reached from onStartCommand.
 */
module Window {
  import opened Lifecycle

  /** The floating menu view.  Its rendering, its window controller and the
      WindowManager are not part of this model: it is an opaque handle that
      remembers where it docks. */
  class HoverView {
    const dock: DockPosition

    constructor CreateForWindow(dock: DockPosition)
      ensures this.dock == dock
    {
      this.dock := dock;
    }
  }

  class HoverMenuService {
    var running: bool
    var hoverView: HoverView?
    ghost var log: seq<Event>

    /** The one invariant the code keeps: a running menu has a view.  The
        converse does not hold, since onDestroy keeps the reference. */
    ghost predicate Valid()
      reads this
    {
      running ==> hoverView != null
    }

    /** The fields, as the state machine of module Lifecycle sees them. */
    ghost function State(): (s: Snapshot)
      reads this
      ensures s.running == running && s.hasView == (hoverView != null)
    {
      Snapshot(running, hoverView != null)
    }

    /** The platform instantiates the service with Java's field defaults. */
    constructor ()
      ensures Valid() && State() == Initial && log == []
    {
      running := false;
      hoverView := null;
      log := [];
    }

    /** onCreate: announce the service in the foreground. */
    method OnCreate()
      modifies this`log
      ensures log == old(log) + Step(State(), Create).effects
      ensures log == old(log) + [StartForeground(ForegroundNotificationId())]
    {
      InitNotification(ForegroundNotification());
    }

    /** initNotification, given what getForegroundNotification returned:
        startForeground with the service's id exactly when it is non-null. */
    method InitNotification(notification: Option<Notification>)
      modifies this`log
      ensures log == old(log) + NotificationEffects(notification)
      ensures notification.Some? ==> log == old(log) + [StartForeground(ForegroundNotificationId())]
      ensures notification.None? ==> log == old(log)
    {
      if notification.Some? {
        var id := ForegroundNotificationId();
        log := log + [StartForeground(id)];
      }
    }

    /** close: ask the platform to stop the service; nothing else changes. */
    method Close()
      modifies this`log
      ensures log == old(log) + Step(State(), CloseCall).effects
      ensures log == old(log) + [StopSelfCall]
    {
      StopSelf();
    }

    /** Service.stopSelf, a platform call; the platform's later onDestroy is a
        separate entry point. */
    method StopSelf()
      modifies this`log
      ensures log == old(log) + [StopSelfCall]
    {
      log := log + [StopSelfCall];
    }

    /** onStartCommand: launch the menu unless it runs already; always sticky.
        The intent may be null, and flags and startId are ignored. */
    method OnStartCommand(intent: Option<Intent>, flags: int, startId: int) returns (result: int)
      requires Valid()
      modifies this
      ensures Valid()
      ensures result == START_STICKY
      ensures State() == Step(old(State()), Start(intent)).after
      ensures log == old(log) + Step(old(State()), Start(intent)).effects
      ensures old(running) ==> hoverView == old(hoverView) && log == old(log)
      ensures !old(running) ==> hoverView != null && fresh(hoverView) && hoverView.dock == DefaultDock
    {
      if !running {
        running := true;
        InitHoverMenu(intent);
      }
      result := START_STICKY;
    }

    /** initHoverMenu: create a new view docked right at mid-height, register
        the exit listener on it, attach it, then run the launched hook. */
    method InitHoverMenu(intent: Option<Intent>)
      modifies this
      ensures running == old(running)
      ensures hoverView != null && fresh(hoverView) && hoverView.dock == DefaultDock
      ensures log == old(log) + LaunchEffects(intent)
    {
      log := log + [CreateView(DefaultDock)];
      hoverView := new HoverView.CreateForWindow(DockPosition(Right, 0.5));
      log := log + [SetExitListener];
      log := log + [AddToWindow];
      OnHoverMenuLaunched(intent, hoverView);
    }

    /** onHoverMenuLaunched: a hook for subclasses, recorded when it runs.
        The source also hands the hook the new view; the log records only the
        intent, since the view is always the one just assigned to hoverView. */
    method OnHoverMenuLaunched(intent: Option<Intent>, view: HoverView)
      modifies this`log
      ensures log == old(log) + [LaunchedHook(intent)]
    {
      log := log + [LaunchedHook(intent)];
    }

    /** onDestroy: a running menu detaches its view and stops running; the
        view reference is kept.  Otherwise nothing happens. */
    method OnDestroy()
      requires Valid()
      modifies this`running, this`log
      ensures Valid()
      ensures State() == Step(old(State()), Destroy).after
      ensures log == old(log) + Step(old(State()), Destroy).effects
      ensures !running
      ensures old(running) ==> log == old(log) + [RemoveFromWindow]
      ensures !old(running) ==> log == old(log)
    {
      if running {
        assert hoverView != null;  // Valid() rules out the null dereference of mHoverView
        log := log + [RemoveFromWindow];
        running := false;
      }
    }

    /** The exit listener registered on the view: detach the view, run the
        exiting hook, then close.  The running flag is left set. */
    method OnMenuExit()
      requires Valid() && hoverView != null
      modifies this`log
      ensures Valid()
      ensures log == old(log) + Step(State(), UserExit).effects
      ensures log == old(log) + [RemoveFromWindow, ExitingHook, StopSelfCall]
    {
      assert hoverView != null;  // the listener was registered on this view
      log := log + [RemoveFromWindow];
      OnHoverMenuExitingByUserRequest();
      Close();
    }

    /** onHoverMenuExitingByUserRequest: a hook for subclasses, run just
        before the service stops itself. */
    method OnHoverMenuExitingByUserRequest()
      modifies this`log
      ensures log == old(log) + [ExitingHook]
    {
      log := log + [ExitingHook];
    }

    /** onBind: the service cannot be bound. */
    method OnBind(intent: Option<Intent>) returns (binder: Option<Binder>)
      ensures binder == None
    {
      binder := None;
    }
  }

  /** A client: the platform creates the service, starts it twice, then the
      user exits.  One view is created, and the exit actions run once, in
      order; the menu is still marked running until the platform's onDestroy. */
  method TwoStartsThenExitClient(a: Option<Intent>, b: Option<Intent>)
  {
    var service := new HoverMenuService();
    service.OnCreate();
    var r1 := service.OnStartCommand(a, 0, 1);
    var view := service.hoverView;
    var r2 := service.OnStartCommand(b, 0, 2);
    assert r1 == r2 == START_STICKY;
    assert service.hoverView == view && service.running;
    service.OnMenuExit();
    assert service.running;
    service.OnDestroy();
    assert service.log
      == [StartForeground(ForegroundNotificationId())] + LaunchEffects(a)
         + [RemoveFromWindow, ExitingHook, StopSelfCall] + [RemoveFromWindow];
  }
}
