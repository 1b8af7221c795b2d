/** The lifecycle of a HoverMenuService as a pure state machine.

    A Snapshot holds what the service's two fields say: whether the menu is
    running (mIsRunning) and whether a HoverView has ever been assigned
    (mHoverView != null).  Each entry point the platform or the menu can drive
    is an Input; Step gives the new Snapshot and the external effects, in the
    order the service performs them.  Each entry-point method of the class in
    module Window is proved to follow Step; the lemmas below are about traces of Steps.
 */
module Lifecycle {

  datatype Option<T> = None | Some(value: T)

  /** The edge a collapsed hover menu docks to. */
  datatype Side = Left | Right

  /** Where the menu docks: an edge and a fraction of the window height. */
  datatype DockPosition = DockPosition(side: Side, verticalFraction: real)

  /** The one docking preference every menu is created with. */
  const DefaultDock: DockPosition := DockPosition(Right, 0.5)

  /** The payload of a start signal; the service never inspects it. */
  datatype Intent = Intent(action: string)

  /** The foreground notification, built by the platform's notification API. */
  datatype Notification = Notification

  /** What onBind could hand back; the service never binds. */
  datatype Binder = Binder

  /** Android's Service.START_STICKY: redeliver a start after the process is killed. */
  const START_STICKY: int := 1

  /** The largest value of a Java int. */
  const MAX_INT: int := 0x7fff_ffff

  /** An external effect of the service, in the order it happens. */
  datatype Event =
    | CreateView(dock: DockPosition)        // HoverView.createForWindow
    | SetExitListener                       // hoverView.setOnExitListener
    | AddToWindow                           // hoverView.addToWindow
    | LaunchedHook(intent: Option<Intent>)  // onHoverMenuLaunched
    | RemoveFromWindow                      // hoverView.removeFromWindow
    | ExitingHook                           // onHoverMenuExitingByUserRequest
    | StopSelfCall                          // Service.stopSelf
    | StartForeground(id: int)              // Service.startForeground

  /** The service's fields, abstracted: mIsRunning and mHoverView != null. */
  datatype Snapshot = Snapshot(running: bool, hasView: bool)

  /** A freshly created service: Java's field defaults. */
  const Initial: Snapshot := Snapshot(false, false)

  /** Who can drive the service, and through which entry point. */
  datatype Input =
    | Create                        // the platform calls onCreate
    | Start(intent: Option<Intent>) // the platform calls onStartCommand (intent may be null)
    | UserExit                      // the menu calls the registered exit listener
    | CloseCall                     // anyone calls close()
    | Destroy                       // the platform calls onDestroy

  datatype Outcome = Outcome(after: Snapshot, effects: seq<Event>)

  /** The identifier passed to startForeground. Android refuses 0, and it is a Java int. */
  function ForegroundNotificationId(): (id: int)
    ensures 0 < id <= MAX_INT
  {
    1234567089
  }

  /** The notification the service announces itself with; on every SDK version it is non-null. */
  function ForegroundNotification(): (n: Option<Notification>)
    ensures n != None
  {
    Some(Notification)
  }

  /** initNotification: go to the foreground exactly when there is a notification. */
  function NotificationEffects(n: Option<Notification>): (effects: seq<Event>)
    ensures n.None? <==> effects == []
    ensures forall e :: e in effects ==> e == StartForeground(ForegroundNotificationId())
  {
    if n.Some? then [StartForeground(ForegroundNotificationId())] else []
  }

  /** initHoverMenu: create the view docked right at mid-height, register the exit
      listener, attach the view, then run the launched hook. */
  function LaunchEffects(intent: Option<Intent>): seq<Event>
  {
    [CreateView(DefaultDock), SetExitListener, AddToWindow, LaunchedHook(intent)]
  }

  /** The exit listener: detach, run the exiting hook, then close (stopSelf). */
  const ExitEffects: seq<Event> := [RemoveFromWindow, ExitingHook, StopSelfCall]

  /** The exit listener lives on the view, so it can only fire once a view exists. */
  predicate Enabled(s: Snapshot, i: Input)
  {
    i.UserExit? ==> s.hasView
  }

  /** One entry point of the service. */
  function Step(s: Snapshot, i: Input): (o: Outcome)
    requires Enabled(s, i)
    // Only a start sets the running flag and only onDestroy clears it.
    ensures o.after.running == (i.Start? || (s.running && !i.Destroy?))
    // The view reference is never cleared.
    ensures s.hasView ==> o.after.hasView
    // A view exists whenever the menu runs.
    ensures (s.running ==> s.hasView) ==> (o.after.running ==> o.after.hasView)
    // A view is created exactly by a start signal that finds the menu not running.
    ensures CreateView(DefaultDock) in o.effects <==> i.Start? && !s.running
    // Only the exit listener and onDestroy of a running menu detach the view.
    ensures RemoveFromWindow in o.effects <==> i.UserExit? || (i.Destroy? && s.running)
  {
    match i
    case Create => Outcome(s, NotificationEffects(ForegroundNotification()))
    case Start(intent) =>
      if s.running then Outcome(s, [])
      else Outcome(Snapshot(true, true), LaunchEffects(intent))
    case UserExit => Outcome(s, ExitEffects)
    case CloseCall => Outcome(s, [StopSelfCall])
    case Destroy =>
      if s.running then Outcome(Snapshot(false, s.hasView), [RemoveFromWindow])
      else Outcome(s, [])
  }

  /** A trace the platform and the menu can actually produce from s. */
  predicate Feasible(s: Snapshot, inputs: seq<Input>)
    decreases |inputs|
  {
    inputs == [] ||
    (Enabled(s, inputs[0]) && Feasible(Step(s, inputs[0]).after, inputs[1..]))
  }

  /** Drive the service through a trace, collecting every effect in order. */
  function Run(s: Snapshot, inputs: seq<Input>): (o: Outcome)
    requires Feasible(s, inputs)
    decreases |inputs|
    ensures s.hasView ==> o.after.hasView
    ensures (s.running ==> s.hasView) ==> (o.after.running ==> o.after.hasView)
  {
    if inputs == [] then Outcome(s, [])
    else
      var first := Step(s, inputs[0]);
      var rest := Run(first.after, inputs[1..]);
      Outcome(rest.after, first.effects + rest.effects)
  }

  /** Some input of the trace is a start signal. */
  predicate HasStart(inputs: seq<Input>)
  {
    exists k :: 0 <= k < |inputs| && inputs[k].Start?
  }

  /** Number of times e occurs in effects. */
  function Occurrences(e: Event, effects: seq<Event>): nat
  {
    multiset(effects)[e]
  }

  /** n copies of x. */
  function Repeat<T>(x: T, n: nat): (r: seq<T>)
    ensures |r| == n && forall k :: 0 <= k < n ==> r[k] == x
  {
    seq(n, _ => x)
  }

  /** Once running, any number of further start signals change neither the
      state nor the effects: no second view is ever created. */
  lemma {:induction false} StartsWhileRunningAreNoops(s: Snapshot, inputs: seq<Input>)
    requires s.running
    requires forall k :: 0 <= k < |inputs| ==> inputs[k].Start?
    ensures Feasible(s, inputs)
    ensures Run(s, inputs) == Outcome(s, [])
    decreases |inputs|
  {
    if inputs != [] {
      assert Step(s, inputs[0]) == Outcome(s, []);
      StartsWhileRunningAreNoops(s, inputs[1..]);
    }
  }

  /** A burst of start signals on a stopped menu launches it exactly once,
      with the first signal's intent. */
  lemma LaunchOnceForManyStarts(s: Snapshot, intent: Option<Intent>, more: seq<Input>)
    requires !s.running
    requires forall k :: 0 <= k < |more| ==> more[k].Start?
    ensures Feasible(s, [Start(intent)] + more)
    ensures Run(s, [Start(intent)] + more) == Outcome(Snapshot(true, true), LaunchEffects(intent))
  {
    var inputs := [Start(intent)] + more;
    assert inputs[1..] == more;
    StartsWhileRunningAreNoops(Snapshot(true, true), more);
  }

  /** Until onDestroy, a trace creates a view exactly once if the menu was
      stopped and some start signal arrives, and never otherwise: the exit
      listener and close do not make room for a second view. */
  lemma {:induction false} ViewsCreatedBeforeDestroy(s: Snapshot, inputs: seq<Input>)
    requires Feasible(s, inputs)
    requires forall k :: 0 <= k < |inputs| ==> !inputs[k].Destroy?
    ensures Occurrences(CreateView(DefaultDock), Run(s, inputs).effects)
            == if !s.running && HasStart(inputs) then 1 else 0
    decreases |inputs|
  {
    if inputs != [] {
      var first := Step(s, inputs[0]);
      var tail := inputs[1..];
      ViewsCreatedBeforeDestroy(first.after, tail);
      var rest := Run(first.after, tail);
      assert Run(s, inputs).effects == first.effects + rest.effects;
      assert HasStart(inputs) <==> inputs[0].Start? || HasStart(tail) by {
        if HasStart(tail) {
          var k :| 0 <= k < |tail| && tail[k].Start?;
          assert inputs[k + 1] == tail[k];
        }
        if HasStart(inputs) && !inputs[0].Start? {
          var k :| 0 <= k < |inputs| && inputs[k].Start?;
          assert tail[k - 1] == inputs[k];
        }
      }
      if inputs[0].Start? && !s.running {
        assert multiset(first.effects)[CreateView(DefaultDock)] == 1;
      } else {
        assert CreateView(DefaultDock) !in first.effects;
      }
    }
  }

  /** Without a user exit, every detach matches an earlier attach: attaches
      plus a view already running equal detaches plus a view still running. */
  lemma {:induction false} AttachDetachBalanceWithoutExit(s: Snapshot, inputs: seq<Input>)
    requires Feasible(s, inputs)
    requires forall k :: 0 <= k < |inputs| ==> !inputs[k].UserExit?
    ensures var o := Run(s, inputs);
            Occurrences(AddToWindow, o.effects) + (if s.running then 1 else 0)
            == Occurrences(RemoveFromWindow, o.effects) + (if o.after.running then 1 else 0)
    decreases |inputs|
  {
    if inputs != [] {
      var first := Step(s, inputs[0]);
      AttachDetachBalanceWithoutExit(first.after, inputs[1..]);
      var rest := Run(first.after, inputs[1..]);
      assert Run(s, inputs).effects == first.effects + rest.effects;
      StepBalanceWithoutExit(s, inputs[0]);
    }
  }

  /** One step of AttachDetachBalanceWithoutExit. */
  lemma StepBalanceWithoutExit(s: Snapshot, i: Input)
    requires !i.UserExit?
    ensures var o := Step(s, i);
            Occurrences(AddToWindow, o.effects) + (if s.running then 1 else 0)
            == Occurrences(RemoveFromWindow, o.effects) + (if o.after.running then 1 else 0)
  {
  }

  /** The exit listener leaves the menu running, so the platform's later
      onDestroy detaches the same view a second time. */
  lemma ExitThenDestroyDetachesTwice(s: Snapshot)
    requires s.running && s.hasView
    ensures Feasible(s, [UserExit, Destroy])
    ensures Run(s, [UserExit, Destroy]) == Outcome(Snapshot(false, true), ExitEffects + [RemoveFromWindow])
    ensures Occurrences(RemoveFromWindow, Run(s, [UserExit, Destroy]).effects) == 2
  {
  }

  /** After the user exits, a start signal that reaches the same instance
      before onDestroy is a no-op: the menu is still marked running. */
  lemma StartAfterExitIsNoop(s: Snapshot, intent: Option<Intent>)
    requires s.running && s.hasView
    ensures Feasible(s, [UserExit, Start(intent)])
    ensures Run(s, [UserExit, Start(intent)]) == Outcome(s, ExitEffects)
  {
    var inputs := [UserExit, Start(intent)];
    assert inputs[1..] == [Start(intent)];
    assert Run(s, [Start(intent)]) == Outcome(s, []) by {
      assert [Start(intent)][1..] == [];
    }
    assert ExitEffects + [] == ExitEffects;
  }

  /** Once a view exists, "view present" no longer means "running": onDestroy
      keeps the reference. */
  lemma ViewOutlivesRunning(intent: Option<Intent>)
    ensures Feasible(Initial, [Start(intent), Destroy])
    ensures Run(Initial, [Start(intent), Destroy]).after == Snapshot(false, true)
  {
    var inputs := [Start(intent), Destroy];
    assert inputs[1..] == [Destroy];
    var running := Snapshot(true, true);
    assert Run(running, [Destroy]).after == Snapshot(false, true) by {
      assert [Destroy][1..] == [];
    }
  }

  /** onDestroy is idempotent: a second call does nothing. */
  lemma DestroyIsIdempotent(s: Snapshot)
    ensures Feasible(s, [Destroy, Destroy]) && Feasible(s, [Destroy])
    ensures Run(s, [Destroy, Destroy]) == Run(s, [Destroy])
    ensures !Run(s, [Destroy]).after.running
  {
  }

  /** close() may be called any number of times in any state, even before the
      first start: it changes nothing and only asks the platform to stop. */
  lemma {:induction false} ClosesOnlyStop(s: Snapshot, n: nat)
    ensures Feasible(s, Repeat(CloseCall, n))
    ensures Run(s, Repeat(CloseCall, n)) == Outcome(s, Repeat(StopSelfCall, n))
    decreases n
  {
    if n > 0 {
      ClosesOnlyStop(s, n - 1);
      assert Repeat(CloseCall, n)[1..] == Repeat(CloseCall, n - 1);
      assert [StopSelfCall] + Repeat(StopSelfCall, n - 1) == Repeat(StopSelfCall, n);
    }
  }

  /** The intended scenario: create, start, a duplicate start, then the user
      exits.  One view, one notification, and the exit actions once, in order. */
  lemma DuplicateStartThenExit(a: Option<Intent>, b: Option<Intent>)
    ensures Feasible(Initial, [Create, Start(a), Start(b), UserExit])
    ensures Run(Initial, [Create, Start(a), Start(b), UserExit])
            == Outcome(Snapshot(true, true),
                       [StartForeground(1234567089)] + LaunchEffects(a) + ExitEffects)
  {
    var running := Snapshot(true, true);
    var exitOnly := [UserExit];
    assert exitOnly[1..] == [];
    assert Run(running, exitOnly) == Outcome(running, ExitEffects + []);
    var second := [Start(b), UserExit];
    assert second[1..] == exitOnly;
    assert Run(running, second) == Outcome(running, [] + ExitEffects);
    var first := [Start(a), Start(b), UserExit];
    assert first[1..] == second;
    assert Run(Initial, first) == Outcome(running, LaunchEffects(a) + ExitEffects);
    var inputs := [Create, Start(a), Start(b), UserExit];
    assert inputs[1..] == first;
    assert Step(Initial, Create) == Outcome(Initial, [StartForeground(1234567089)]);
  }
}
