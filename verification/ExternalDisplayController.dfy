/** The controller as the object it is: fields updated by its methods and by the closures it queues.
    Each method is proved against the step of the same name, and says what its caller may rely on. */
module ExternalDisplayController {
  import opened Common
  import opened ExternalDisplay

  lemma OneMore(calls: seq<nat>, k: nat)
    requires k < |calls|
    ensures multiset(calls[..k + 1]) == multiset(calls[..k]) + multiset{calls[k]}
  {
    assert calls[..k + 1] == calls[..k] + [calls[k]];
  }

  class Controller {
    var alive: bool
    var extScene: Option<nat>
    var wantsWindow: bool
    var extEngine: Option<nat>
    var extWindow: bool
    var extViewChannel: bool
    var pendingScreenSize: seq<nat>
    var connectedNotified: bool
    var accessoryEnabled: Option<bool>

    // What the outside has received
    var queued: multiset<Timer>
    var enginesCreated: nat
    var enginesDestroyed: multiset<nat>
    var sizeCalls: nat
    var sizeReplies: multiset<nat>
    var told: seq<Told>

    ghost function View(): State
      reads this
    {
      State(alive, extScene, wantsWindow, extEngine, extWindow, extViewChannel, pendingScreenSize,
            connectedNotified, accessoryEnabled, queued, enginesCreated, enginesDestroyed, sizeCalls,
            sizeReplies, told)
    }

    constructor (adopted: Option<nat>, registered: bool)
      ensures View() == Begin(adopted, registered) && Inv(View())
    {
      alive, extScene, wantsWindow := true, adopted, false;
      extEngine, extWindow, extViewChannel := None, false, false;
      pendingScreenSize, connectedNotified := [], false;
      accessoryEnabled := if registered then Some(false) else None;
      queued, enginesCreated, enginesDestroyed := multiset{}, 0, multiset{};
      sizeCalls, sizeReplies, told := 0, multiset{}, [];
      new;
      BeginKeeps(adopted, registered);
    }

    method SetAccessoryEnabled(enabled: bool)
      modifies this
      ensures View() == SetAccessory(old(View()), enabled)
    {
      if accessoryEnabled.Some? && accessoryEnabled.value != enabled {
        accessoryEnabled := Some(enabled);
      }
    }

    /** One reply to each of the calls, in order. */
    method ReplyAll(calls: seq<nat>)
      modifies this`sizeReplies
      ensures sizeReplies == old(sizeReplies) + multiset(calls)
    {
      for k := 0 to |calls|
        invariant sizeReplies == old(sizeReplies) + multiset(calls[..k])
      {
        OneMore(calls, k);
        sizeReplies := sizeReplies + multiset{calls[k]};
      }
      assert calls[..|calls|] == calls;
    }

    /** Answers every queued call. */
    method FlushPendingScreenSize()
      modifies this`pendingScreenSize, this`sizeReplies
      ensures View() == FlushPending(old(View()))
    {
      var waiting := pendingScreenSize;
      pendingScreenSize := [];
      ReplyAll(waiting);
    }

    method OnShowWindow()
      modifies this
      ensures View() == ShowWindow(old(View()))
    {
      if extEngine.Some? || extWindow {
        return;
      }
      extEngine := Some(enginesCreated);
      enginesCreated := enginesCreated + 1;
      extWindow := true;
      extViewChannel := true;
      FlushPendingScreenSize();
    }

    method DestroyLater()
      requires extEngine.Some?
      modifies this
      ensures View() == DropEngine(old(View()))
    {
      var engine := extEngine.value;
      extEngine := None;
      extViewChannel := false;
      extWindow := false;
      queued := queued + multiset{DestroyEngine(engine)};
    }

    method OnCloseWindow()
      modifies this
      ensures View() == CloseWindow(old(View()))
    {
      if extEngine.None? {
        if !wantsWindow {
          SetAccessoryEnabled(false);
        }
        return;
      }
      DestroyLater();
      queued := queued + multiset{DisableAccessory};
    }

    method Tell(present: bool)
      modifies this
      ensures View() == Announce(old(View()), present)
    {
      connectedNotified := present;
      told := told + [Event(present)];
    }

    method OnRefreshConnected(env: Env)
      modifies this
      ensures View() == RefreshConnected(old(View()), env)
      ensures connectedNotified == MonitorPresent(View(), env)
    {
      var present := MonitorPresentNow(env);
      if present == connectedNotified {
        return;
      }
      Tell(present);
    }

    method MonitorPresentNow(env: Env) returns (present: bool)
      ensures present == MonitorPresent(View(), env)
    {
      if accessoryEnabled.Some? {
        return env.available;
      }
      if extScene.Some? {
        return true;
      }
      return env.screens > 1;
    }

    // Calls from Dart

    method OnIsConnected(env: Env) returns (reply: bool)
      requires alive
      modifies this
      ensures View() == IsConnected(old(View()), env)
      ensures reply == connectedNotified == MonitorPresent(View(), env)
    {
      reply := MonitorPresentNow(env);
      connectedNotified := reply;
      told := told + [Reply(reply)];
    }

    method OnScreenSize(env: Env)
      requires alive
      modifies this
      ensures View() == ScreenSize(old(View()), env)
    {
      var call := sizeCalls;
      sizeCalls := sizeCalls + 1;
      if env.screen {
        sizeReplies := sizeReplies + multiset{call};
      } else if wantsWindow {
        pendingScreenSize := pendingScreenSize + [call];
        queued := queued + multiset{FlushSizes};
      } else {
        sizeReplies := sizeReplies + multiset{call};
      }
    }

    method OnAttach()
      requires alive
      modifies this
      ensures View() == Attach(old(View()))
    {
      if wantsWindow {
        return;
      }
      wantsWindow := true;
      if extScene.Some? {
        OnShowWindow();
      } else {
        SetAccessoryEnabled(true);
      }
    }

    method OnDetach()
      requires alive
      modifies this
      ensures View() == Detach(old(View()))
      ensures !wantsWindow && extEngine.None? && pendingScreenSize == [] && extScene == old(extScene)
      ensures old(extEngine.Some?) ==>
                queued == old(queued + multiset{DestroyEngine(extEngine.value)} + multiset{DisableAccessory})
    {
      DetachLetsGo(View());
      wantsWindow := false;
      OnCloseWindow();
      FlushPendingScreenSize();
    }

    // Scene events

    method OnSceneConnected(scene: nat, env: Env)
      requires alive
      modifies this
      ensures View() == SceneConnected(old(View()), scene, env)
    {
      extScene := Some(scene);
      if wantsWindow {
        OnShowWindow();
      }
      OnRefreshConnected(env);
    }

    /** The system withdrew the scene: Dart is told, and will be told again if the monitor stays. */
    method OnWithdrawn()
      modifies this
      ensures View() == Withdrawn(old(View()))
    {
      SetAccessoryEnabled(false);
      if connectedNotified {
        Tell(false);
      }
    }

    method OnSceneDisconnected(scene: nat, env: Env)
      requires alive
      modifies this
      ensures View() == SceneDisconnected(old(View()), scene, env)
    {
      if extScene.Some? && extScene.value != scene {
        return;
      }
      extScene := None;
      var systemInitiated := wantsWindow;
      OnDetach();
      if systemInitiated {
        OnWithdrawn();
      }
      OnRefreshConnected(env);
    }

    // Closures and release

    method RunDestroy(engine: nat)
      requires DestroyEngine(engine) in queued
      modifies this
      ensures View() == Fire(old(View()), DestroyEngine(engine))
    {
      queued := queued - multiset{DestroyEngine(engine)};
      enginesDestroyed := enginesDestroyed + multiset{engine};
    }

    method RunDisable()
      requires DisableAccessory in queued
      modifies this
      ensures View() == Fire(old(View()), DisableAccessory)
    {
      queued := queued - multiset{DisableAccessory};
      if alive && !wantsWindow {
        SetAccessoryEnabled(false);
      }
    }

    method RunFlush()
      requires FlushSizes in queued
      modifies this
      ensures View() == Fire(old(View()), FlushSizes)
    {
      queued := queued - multiset{FlushSizes};
      if alive {
        FlushPendingScreenSize();
      }
    }

    method RunQueued(timer: Timer)
      requires timer in queued
      modifies this
      ensures View() == Fire(old(View()), timer)
    {
      match timer
      case DestroyEngine(engine) => RunDestroy(engine);
      case DisableAccessory => RunDisable();
      case FlushSizes => RunFlush();
    }

    method OnRelease()
      requires alive
      modifies this
      ensures View() == Deinit(old(View()))
      ensures !alive && extEngine.None? && accessoryEnabled.None?
      ensures old(extEngine.Some?) ==> old(DestroyEngine(extEngine.value)) in queued
    {
      if extEngine.Some? {
        DestroyLater();
      }
      alive := false;
      accessoryEnabled := None;
    }

    method HandleCall(i: Input)
      requires Inv(View()) && alive && IsCall(i)
      modifies this
      ensures View() == Step(old(View()), i) && Inv(View())
    {
      CallKeeps(View(), i);
      match i
      case AskConnected(env) => var _ := OnIsConnected(env);
      case AskSize(env) => OnScreenSize(env);
      case AskAttach => OnAttach();
      case AskDetach => OnDetach();
    }

    method HandleSceneEvent(i: Input)
      requires Inv(View()) && alive && IsSceneEvent(i)
      modifies this
      ensures View() == Step(old(View()), i) && Inv(View())
    {
      SceneEventKeeps(View(), i);
      match i
      case Connect(scene, env) => OnSceneConnected(scene, env);
      case Disconnect(scene, env) => OnSceneDisconnected(scene, env);
      case SceneReleased => extScene := None;
      case PresenceChanged(env) => OnRefreshConnected(env);
    }

    method HandleClosure(timer: Timer)
      requires Inv(View()) && timer in queued
      modifies this
      ensures View() == Fire(old(View()), timer) && Inv(View())
    {
      FireKeeps(View(), timer);
      RunQueued(timer);
    }

    method HandleRelease()
      requires Inv(View()) && alive
      modifies this
      ensures View() == Deinit(old(View())) && Inv(View())
    {
      DeinitKeeps(View());
      OnRelease();
    }

    /** Whatever happens next, the invariant is kept. */
    method Handle(i: Input)
      requires Inv(View()) && Possible(View(), i)
      modifies this
      ensures View() == Step(old(View()), i) && Inv(View())
    {
      if IsCall(i) {
        HandleCall(i);
      } else if IsSceneEvent(i) {
        HandleSceneEvent(i);
      } else if i.Run? {
        HandleClosure(i.timer);
      } else {
        HandleRelease();
      }
    }
  }
}
