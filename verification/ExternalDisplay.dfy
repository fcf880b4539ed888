/** The controller of an iPad's external monitor: the second Flutter engine and its window, the
    scene accessory that takes the monitor over, delayed closures, queued replies and the presence
    events sent to Dart. */
module ExternalDisplay {
  import opened Common

  /** A closure handed to the main queue. It may run in any later state. */
  datatype Timer = DestroyEngine(engine: nat) | DisableAccessory | FlushSizes

  /** A presence value told to Dart: pushed as an event, or as the reply to `isConnected`. */
  datatype Told = Event(present: bool) | Reply(present: bool)

  /** The controller's fields, then what has been done with them: closures queued, engines created
      and destroyed, `screenSize` calls made and answered, presence values told. `accessory` is the
      iPadOS 27 registration, if there is one, and whether it is enabled. */
  datatype State = State(
    alive: bool,
    scene: Option<nat>,
    wants: bool,
    engine: Option<nat>,
    window: bool,
    channel: bool,
    waiting: seq<nat>,
    notified: bool,
    accessory: Option<bool>,
    timers: multiset<Timer>,
    engines: nat,
    destroyed: multiset<nat>,
    calls: nat,
    answered: multiset<nat>,
    told: seq<Told>)

  /** What the system says when asked: the accessory is available, the number of screens, and
      whether the monitor's screen can be found. */
  datatype Env = Env(available: bool, screens: nat, screen: bool)

  function Begin(scene: Option<nat>, registered: bool): State {
    State(true, scene, false, None, false, false, [], false,
          if registered then Some(false) else None,
          multiset{}, 0, multiset{}, 0, multiset{}, [])
  }

  // The steps

  function SetAccessory(s: State, enabled: bool): State {
    if s.accessory.Some? then s.(accessory := Some(enabled)) else s
  }

  function FlushPending(s: State): State {
    s.(waiting := [], answered := s.answered + multiset(s.waiting))
  }

  function ShowWindow(s: State): State {
    if s.engine.Some? || s.window then s
    else FlushPending(s.(engine := Some(s.engines), engines := s.engines + 1, window := true, channel := true))
  }

  /** The engine leaves the fields; a closure that owns it will destroy it. */
  function DropEngine(s: State): State
    requires s.engine.Some?
  {
    s.(engine := None, channel := false, window := false,
       timers := s.timers + multiset{DestroyEngine(s.engine.value)})
  }

  function CloseWindow(s: State): State {
    if s.engine.None? then
      if s.wants then s else SetAccessory(s, false)
    else
      var s' := DropEngine(s);
      s'.(timers := s'.timers + multiset{DisableAccessory})
  }

  function MonitorPresent(s: State, env: Env): bool {
    if s.accessory.Some? then env.available else s.scene.Some? || env.screens > 1
  }

  function Announce(s: State, present: bool): State {
    s.(notified := present, told := s.told + [Event(present)])
  }

  function RefreshConnected(s: State, env: Env): State {
    var present := MonitorPresent(s, env);
    if present == s.notified then s else Announce(s, present)
  }

  function IsConnected(s: State, env: Env): State {
    var present := MonitorPresent(s, env);
    s.(notified := present, told := s.told + [Reply(present)])
  }

  function ScreenSize(s: State, env: Env): State {
    var call := s.calls;
    var s' := s.(calls := s.calls + 1);
    if env.screen || !s.wants then s'.(answered := s.answered + multiset{call})
    else s'.(waiting := s.waiting + [call], timers := s.timers + multiset{FlushSizes})
  }

  function Attach(s: State): State {
    if s.wants then s
    else
      var s' := s.(wants := true);
      if s.scene.Some? then ShowWindow(s') else SetAccessory(s', true)
  }

  function Detach(s: State): State {
    FlushPending(CloseWindow(s.(wants := false)))
  }

  function SceneConnected(s: State, scene: nat, env: Env): State {
    var s' := s.(scene := Some(scene));
    RefreshConnected(if s.wants then ShowWindow(s') else s', env)
  }

  /** The system took the scene back: give the monitor up and tell Dart. */
  function Withdrawn(s: State): State {
    var s' := SetAccessory(s, false);
    if s.notified then Announce(s', false) else s'
  }

  function SceneDisconnected(s: State, scene: nat, env: Env): State {
    if s.scene.Some? && s.scene.value != scene then s
    else
      var closed := Detach(s.(scene := None));
      RefreshConnected(if s.wants then Withdrawn(closed) else closed, env)
  }

  function Deinit(s: State): State {
    var s' := if s.engine.Some? then DropEngine(s) else s;
    s'.(alive := false, accessory := None)
  }

  /** A closure runs. Only the destroying one outlives the controller. */
  function Fire(s: State, timer: Timer): State {
    var s' := s.(timers := s.timers - multiset{timer});
    match timer
    case DestroyEngine(engine) => s'.(destroyed := s.destroyed + multiset{engine})
    case DisableAccessory => if s.alive && !s.wants then SetAccessory(s', false) else s'
    case FlushSizes => if s.alive then FlushPending(s') else s'
  }

  // What a caller may rely on

  /** A `screenSize` call is answered at once or queued with a closure that will answer it: none is
      lost and none is answered twice. */
  lemma SizeSettles(s: State, env: Env)
    ensures var s' := ScreenSize(s, env);
            && s'.answered + multiset(s'.waiting) == s.answered + multiset(s.waiting) + multiset{s.calls}
            && (s'.waiting != s.waiting <==> s.wants && !env.screen)
            && (s'.waiting != s.waiting ==> FlushSizes in s'.timers)
  {
  }

  /** The scene in use going away ends everything at once, whoever caused it, and Dart knows; another
      scene going away changes nothing. */
  lemma DisconnectLetsGo(s: State, scene: nat, env: Env)
    ensures var s' := SceneDisconnected(s, scene, env);
            if s.scene.Some? && s.scene.value != scene then s' == s
            else
              && s'.scene == None && !s'.wants && s'.engine == None && s'.waiting == []
              && (s.wants && s.accessory.Some? ==> s'.accessory == Some(false))
              && s'.notified == (if s.accessory.Some? then env.available else env.screens > 1)
  {
    if !(s.scene.Some? && s.scene.value != scene) {
      var closed := Detach(s.(scene := None));
      DetachLetsGo(s.(scene := None));
      RefreshTells(if s.wants then Withdrawn(closed) else closed, env);
    }
  }

  /** Letting go leaves no window, no engine and no unanswered call; the engine and the accessory are
      each handed to one closure. */
  lemma DetachLetsGo(s: State)
    ensures var s' := Detach(s);
            && !s'.wants && s'.engine == None && s'.waiting == [] && s'.scene == s.scene
            && s'.notified == s.notified && s'.accessory.Some? == s.accessory.Some?
            && (s.engine.None? ==> s'.timers == s.timers && s'.accessory != Some(true))
            && (s.engine.Some? ==> s'.accessory == s.accessory)
            && (s.engine.Some? ==>
                  s'.timers == s.timers + multiset{DestroyEngine(s.engine.value)} + multiset{DisableAccessory})
  {
  }

  /** Whatever Dart was told before, it now knows the truth, from at most one more event. */
  lemma RefreshTells(s: State, env: Env)
    ensures var s' := RefreshConnected(s, env);
            && s'.notified == MonitorPresent(s', env)
            && (s'.told == s.told || s'.told == s.told + [Event(!s.notified)])
            && s' == s.(notified := s'.notified, told := s'.told)
  {
  }

  datatype Input =
    | AskConnected(env: Env)
    | AskSize(env: Env)
    | AskAttach
    | AskDetach
    | Connect(scene: nat, env: Env)
    | Disconnect(scene: nat, env: Env)
    | SceneReleased
    | PresenceChanged(env: Env)
    | Run(timer: Timer)
    | Release

  predicate IsCall(i: Input) {
    i.AskConnected? || i.AskSize? || i.AskAttach? || i.AskDetach?
  }

  predicate IsSceneEvent(i: Input) {
    i.Connect? || i.Disconnect? || i.SceneReleased? || i.PresenceChanged?
  }

  predicate Possible(s: State, i: Input) {
    if i.Run? then i.timer in s.timers else s.alive
  }

  function Step(s: State, i: Input): State {
    match i
    case AskConnected(env) => IsConnected(s, env)
    case AskSize(env) => ScreenSize(s, env)
    case AskAttach => Attach(s)
    case AskDetach => Detach(s)
    case Connect(scene, env) => SceneConnected(s, scene, env)
    case Disconnect(scene, env) => SceneDisconnected(s, scene, env)
    case SceneReleased => s.(scene := None)
    case PresenceChanged(env) => RefreshConnected(s, env)
    case Run(timer) => Fire(s, timer)
    case Release => Deinit(s)
  }

  // What every step keeps

  function One(b: bool): nat {
    if b then 1 else 0
  }

  /** Engine, window and channel stand and fall together, and only while Dart wants them. */
  predicate Together(s: State) {
    && s.engine.Some? == s.window == s.channel
    && (s.engine.Some? ==> s.wants && s.alive)
  }

  /** Every engine created is exactly one of live, awaiting one destroy closure, or destroyed. */
  predicate EngineSettled(s: State, e: nat) {
    One(s.engine == Some(e)) + s.timers[DestroyEngine(e)] + s.destroyed[e] == One(e < s.engines)
  }

  ghost predicate EnginesAccounted(s: State) {
    forall e: nat :: EngineSettled(s, e)
  }

  /** An accessory left enabled without being wanted has a disabling closure on its way. */
  predicate AccessoryAccounted(s: State) {
    && (s.accessory == Some(true) && !s.wants ==> DisableAccessory in s.timers)
    && (!s.alive ==> s.accessory == None)
  }

  /** Every `screenSize` call is exactly one of queued or answered. */
  predicate CallSettled(s: State, c: nat) {
    multiset(s.waiting)[c] + s.answered[c] == One(c < s.calls)
  }

  ghost predicate CallsAccounted(s: State) {
    && (forall c: nat :: CallSettled(s, c))
    && (s.waiting != [] ==> s.wants)
    && (s.alive ==> |s.waiting| <= s.timers[FlushSizes])
  }

  function LastTold(told: seq<Told>): bool {
    if told == [] then false else told[|told| - 1].present
  }

  /** Every pushed event is the opposite of the presence value told before it. */
  predicate Alternates(told: seq<Told>) {
    forall i :: 0 <= i < |told| && told[i].Event? ==> told[i].present != LastTold(told[..i])
  }

  ghost predicate Inv(s: State) {
    && Together(s)
    && EnginesAccounted(s)
    && AccessoryAccounted(s)
    && CallsAccounted(s)
    && Alternates(s.told) && LastTold(s.told) == s.notified
  }

  lemma BeginKeeps(scene: Option<nat>, registered: bool)
    ensures Inv(Begin(scene, registered))
  {
  }

  lemma SameEngines(s: State, s': State)
    requires EnginesAccounted(s)
    requires s'.engine == s.engine && s'.engines == s.engines && s'.destroyed == s.destroyed
    requires forall e: nat :: s'.timers[DestroyEngine(e)] == s.timers[DestroyEngine(e)]
    ensures EnginesAccounted(s')
  {
    forall e: nat ensures EngineSettled(s', e) {
      assert EngineSettled(s, e);
    }
  }

  lemma SameCalls(s: State, s': State)
    requires forall c: nat :: CallSettled(s, c)
    requires s'.waiting == s.waiting && s'.calls == s.calls && s'.answered == s.answered
    ensures forall c: nat :: CallSettled(s', c)
  {
    forall c: nat ensures CallSettled(s', c) {
      assert CallSettled(s, c);
    }
  }

  lemma SceneKeeps(s: State, scene: Option<nat>)
    requires Inv(s)
    ensures Inv(s.(scene := scene))
  {
    var s' := s.(scene := scene);
    SameEngines(s, s');
    SameCalls(s, s');
  }

  lemma AccessoryKeeps(s: State, enabled: bool)
    requires Inv(s) && (enabled ==> s.wants)
    ensures Inv(SetAccessory(s, enabled))
  {
    var s' := SetAccessory(s, enabled);
    SameEngines(s, s');
    SameCalls(s, s');
  }

  lemma WantKeeps(s: State)
    requires Inv(s)
    ensures Inv(s.(wants := true))
  {
    var s' := s.(wants := true);
    SameEngines(s, s');
    SameCalls(s, s');
  }

  lemma FlushCalls(s: State, c: nat)
    requires CallSettled(s, c)
    ensures CallSettled(FlushPending(s), c)
  {
  }

  lemma FlushKeeps(s: State)
    requires Inv(s)
    ensures Inv(FlushPending(s))
  {
    var s' := FlushPending(s);
    SameEngines(s, s');
    forall c: nat ensures CallSettled(s', c) {
      FlushCalls(s, c);
    }
  }

  lemma OpenKeeps(s: State)
    requires Inv(s) && s.wants && s.alive && s.engine.None?
    ensures Inv(s.(engine := Some(s.engines), engines := s.engines + 1, window := true, channel := true))
  {
    var s' := s.(engine := Some(s.engines), engines := s.engines + 1, window := true, channel := true);
    forall e: nat ensures EngineSettled(s', e) {
      assert EngineSettled(s, e);
    }
    SameCalls(s, s');
  }

  lemma ShowKeeps(s: State)
    requires Inv(s) && s.wants && s.alive
    ensures Inv(ShowWindow(s))
  {
    if s.engine.None? {
      OpenKeeps(s);
      FlushKeeps(s.(engine := Some(s.engines), engines := s.engines + 1, window := true, channel := true));
    }
  }

  lemma DropEngines(s: State, e: nat)
    requires s.engine.Some? && EngineSettled(s, e)
    ensures EngineSettled(DropEngine(s), e)
  {
  }

  lemma CloseEngines(s: State, e: nat)
    requires EngineSettled(s, e)
    ensures EngineSettled(CloseWindow(s), e)
  {
    if s.engine.Some? {
      DropEngines(s, e);
    }
  }

  lemma DetachKeeps(s: State)
    requires Inv(s)
    ensures Inv(Detach(s))
  {
    var s0 := s.(wants := false);
    var s1 := CloseWindow(s0);
    var s' := FlushPending(s1);
    forall e: nat ensures EngineSettled(s', e) {
      assert EngineSettled(s, e);
      assert EngineSettled(s0, e);
      CloseEngines(s0, e);
      assert EngineSettled(s1, e);
    }
    forall c: nat ensures CallSettled(s', c) {
      assert CallSettled(s, c);
      assert CallSettled(s1, c);
      FlushCalls(s1, c);
    }
  }

  lemma ToldAppend(told: seq<Told>, x: Told)
    requires Alternates(told) && (x.Event? ==> x.present != LastTold(told))
    ensures Alternates(told + [x]) && LastTold(told + [x]) == x.present
  {
    var told' := told + [x];
    forall i | 0 <= i < |told'| && told'[i].Event? ensures told'[i].present != LastTold(told'[..i]) {
      assert told'[..i] == told[..i];
      if i == |told| {
        assert told[..i] == told;
      }
    }
  }

  lemma TellKeeps(s: State, x: Told)
    requires Inv(s) && (x.Event? ==> x.present != s.notified)
    ensures Inv(s.(notified := x.present, told := s.told + [x]))
  {
    var s' := s.(notified := x.present, told := s.told + [x]);
    ToldAppend(s.told, x);
    SameEngines(s, s');
    SameCalls(s, s');
  }

  lemma RefreshKeeps(s: State, env: Env)
    requires Inv(s)
    ensures Inv(RefreshConnected(s, env))
  {
    var present := MonitorPresent(s, env);
    if present != s.notified {
      TellKeeps(s, Event(present));
    }
  }

  lemma WithdrawnKeeps(s: State)
    requires Inv(s)
    ensures Inv(Withdrawn(s))
  {
    AccessoryKeeps(s, false);
    if s.notified {
      TellKeeps(SetAccessory(s, false), Event(false));
    }
  }

  lemma DisconnectKeeps(s: State, scene: nat, env: Env)
    requires Inv(s)
    ensures Inv(SceneDisconnected(s, scene, env))
  {
    if !(s.scene.Some? && s.scene.value != scene) {
      SceneKeeps(s, None);
      DetachKeeps(s.(scene := None));
      var closed := Detach(s.(scene := None));
      WithdrawnKeeps(closed);
      RefreshKeeps(if s.wants then Withdrawn(closed) else closed, env);
    }
  }

  lemma SizeCalls(s: State, env: Env, c: nat)
    requires CallSettled(s, c) && CallSettled(s, s.calls)
    ensures CallSettled(ScreenSize(s, env), c)
  {
  }

  lemma SizeKeeps(s: State, env: Env)
    requires Inv(s)
    ensures Inv(ScreenSize(s, env))
  {
    var s' := ScreenSize(s, env);
    SameEngines(s, s');
    forall c: nat ensures CallSettled(s', c) {
      SizeCalls(s, env, c);
    }
  }

  lemma DestroyKeeps(s: State, engine: nat)
    requires Inv(s) && DestroyEngine(engine) in s.timers
    ensures Inv(Fire(s, DestroyEngine(engine)))
  {
    var s' := Fire(s, DestroyEngine(engine));
    forall e: nat ensures EngineSettled(s', e) {
      assert EngineSettled(s, e);
    }
    SameCalls(s, s');
  }

  lemma FlushTimerKeeps(s: State)
    requires Inv(s) && FlushSizes in s.timers
    ensures Inv(Fire(s, FlushSizes))
  {
    var s0 := s.(timers := s.timers - multiset{FlushSizes});
    var s' := Fire(s, FlushSizes);
    SameEngines(s, s');
    SameCalls(s, s0);
    forall c: nat ensures CallSettled(s', c) {
      assert CallSettled(s0, c);
      FlushCalls(s0, c);
    }
  }

  lemma DisableKeeps(s: State)
    requires Inv(s) && DisableAccessory in s.timers
    ensures Inv(Fire(s, DisableAccessory))
  {
    var s' := Fire(s, DisableAccessory);
    SameEngines(s, s');
    SameCalls(s, s');
  }

  lemma DeinitKeeps(s: State)
    requires Inv(s)
    ensures Inv(Deinit(s))
  {
    var s0, s' := if s.engine.Some? then DropEngine(s) else s, Deinit(s);
    forall e: nat ensures EngineSettled(s0, e) {
      assert EngineSettled(s, e);
      if s.engine.Some? {
        DropEngines(s, e);
      }
    }
    SameEngines(s0, s');
    SameCalls(s, s');
  }

  lemma AttachKeeps(s: State)
    requires Inv(s) && s.alive
    ensures Inv(Attach(s))
  {
    WantKeeps(s);
    ShowKeeps(s.(wants := true));
    AccessoryKeeps(s.(wants := true), true);
  }

  lemma ConnectKeeps(s: State, scene: nat, env: Env)
    requires Inv(s) && s.alive
    ensures Inv(SceneConnected(s, scene, env))
  {
    SceneKeeps(s, Some(scene));
    var s' := s.(scene := Some(scene));
    if s.wants {
      ShowKeeps(s');
      RefreshKeeps(ShowWindow(s'), env);
    } else {
      RefreshKeeps(s', env);
    }
  }

  lemma CallKeeps(s: State, i: Input)
    requires Inv(s) && s.alive && IsCall(i)
    ensures Inv(Step(s, i))
  {
    match i
    case AskConnected(env) => TellKeeps(s, Reply(MonitorPresent(s, env)));
    case AskSize(env) => SizeKeeps(s, env);
    case AskAttach => AttachKeeps(s);
    case AskDetach => DetachKeeps(s);
  }

  lemma SceneEventKeeps(s: State, i: Input)
    requires Inv(s) && s.alive && IsSceneEvent(i)
    ensures Inv(Step(s, i))
  {
    match i
    case Connect(scene, env) => ConnectKeeps(s, scene, env);
    case Disconnect(scene, env) => DisconnectKeeps(s, scene, env);
    case SceneReleased => SceneKeeps(s, None);
    case PresenceChanged(env) => RefreshKeeps(s, env);
  }

  lemma FireKeeps(s: State, timer: Timer)
    requires Inv(s) && timer in s.timers
    ensures Inv(Fire(s, timer))
  {
    match timer
    case DestroyEngine(engine) => DestroyKeeps(s, engine);
    case DisableAccessory => DisableKeeps(s);
    case FlushSizes => FlushTimerKeeps(s);
  }

  lemma StepKeeps(s: State, i: Input)
    requires Inv(s) && Possible(s, i)
    ensures Inv(Step(s, i))
  {
    if IsCall(i) {
      CallKeeps(s, i);
    } else if IsSceneEvent(i) {
      SceneEventKeeps(s, i);
    } else if i.Run? {
      FireKeeps(s, i.timer);
    } else {
      DeinitKeeps(s);
    }
  }

  // Every run

  function RunAll(s: State, ins: seq<Input>): State {
    if |ins| == 0 then s else Step(RunAll(s, ins[..|ins| - 1]), ins[|ins| - 1])
  }

  predicate CanRun(s: State, ins: seq<Input>) {
    if |ins| == 0 then true
    else CanRun(s, ins[..|ins| - 1]) && Possible(RunAll(s, ins[..|ins| - 1]), ins[|ins| - 1])
  }

  /** The invariant holds in every reachable state: any order of calls from Dart, scene events and
      presence changes, and closures running in any order at any later time. */
  lemma {:induction false} EveryReachableState(scene: Option<nat>, registered: bool, ins: seq<Input>)
    requires CanRun(Begin(scene, registered), ins)
    ensures Inv(RunAll(Begin(scene, registered), ins))
  {
    var s := Begin(scene, registered);
    if |ins| == 0 {
      BeginKeeps(scene, registered);
    } else {
      var n := |ins| - 1;
      EveryReachableState(scene, registered, ins[..n]);
      StepKeeps(RunAll(s, ins[..n]), ins[n]);
    }
  }

  /** Showing the window and announcing presence touch neither the accessory nor who wants it. */
  predicate SameWish(s: State, s': State) {
    s'.alive == s.alive && s'.wants == s.wants && s'.accessory == s.accessory
  }

  lemma ShowFrame(s: State)
    ensures SameWish(s, ShowWindow(s))
  {
  }

  lemma RefreshFrame(s: State, env: Env)
    ensures SameWish(s, RefreshConnected(s, env))
  {
  }

  lemma ConnectFrame(s: State, scene: nat, env: Env)
    ensures SameWish(s, SceneConnected(s, scene, env))
  {
    var s' := s.(scene := Some(scene));
    ShowFrame(s');
    RefreshFrame(if s.wants then ShowWindow(s') else s', env);
  }

  lemma DetachFrame(s: State)
    ensures Detach(s).alive == s.alive && !Detach(s).wants
    ensures Detach(s).accessory.Some? == s.accessory.Some?
  {
  }

  lemma DisconnectFrame(s: State, scene: nat, env: Env)
    requires SceneDisconnected(s, scene, env).wants
    ensures SceneDisconnected(s, scene, env) == s
  {
    if !(s.scene.Some? && s.scene.value != scene) {
      var closed := Detach(s.(scene := None));
      DetachFrame(s.(scene := None));
      RefreshFrame(if s.wants then Withdrawn(closed) else closed, env);
    }
  }

  /** A step after which the window is wanted either made it so by attaching, or left the accessory
      as it was; and nothing brings a released controller back. */
  lemma WantedStep(s: State, i: Input)
    requires Possible(s, i) && Step(s, i).wants && Step(s, i).alive
    ensures s.alive
    ensures s.wants ==> Step(s, i).accessory == s.accessory
    ensures !s.wants ==> i.AskAttach?
  {
    match i
    case Connect(scene, env) => ConnectFrame(s, scene, env);
    case Disconnect(scene, env) => DisconnectFrame(s, scene, env);
    case PresenceChanged(env) => RefreshFrame(s, env);
    case AskDetach => DetachFrame(s);
    case _ =>
  }

  /** No step of any run switches the accessory off while the window is wanted. */
  lemma NeverDisabledWhileWanted(scene: Option<nat>, registered: bool, ins: seq<Input>, i: Input)
    requires CanRun(Begin(scene, registered), ins)
    requires Possible(RunAll(Begin(scene, registered), ins), i)
    ensures var s := RunAll(Begin(scene, registered), ins);
            s.accessory == Some(true) && Step(s, i).accessory != Some(true) ==>
              !Step(s, i).wants || !Step(s, i).alive
  {
    var s := RunAll(Begin(scene, registered), ins);
    if Step(s, i).wants && Step(s, i).alive {
      WantedStep(s, i);
    }
  }

  /** Once no flushing closure is queued, every `screenSize` call has been answered exactly once. */
  lemma AllCallsAnswered(scene: Option<nat>, registered: bool, ins: seq<Input>)
    requires CanRun(Begin(scene, registered), ins)
    requires var s := RunAll(Begin(scene, registered), ins); s.alive && FlushSizes !in s.timers
    ensures var s := RunAll(Begin(scene, registered), ins);
            s.waiting == [] && forall c: nat :: s.answered[c] == One(c < s.calls)
  {
    EveryReachableState(scene, registered, ins);
    var s := RunAll(Begin(scene, registered), ins);
    forall c: nat ensures s.answered[c] == One(c < s.calls) {
      assert CallSettled(s, c);
    }
  }

  // When a wanted window has its accessory enabled

  /** An attach enables the accessory exactly when no scene is at hand or it is enabled already. */
  predicate Enabling(s: State) {
    s.scene.None? || s.accessory == Some(true)
  }

  lemma AttachEnables(s: State)
    requires s.accessory.Some? && !s.wants
    ensures Attach(s).accessory == Some(true) <==> Enabling(s)
  {
  }

  /** Whether the last attach of the run that took effect was an enabling one. */
  function LastAttachEnabled(s: State, ins: seq<Input>): bool {
    if |ins| == 0 then true
    else
      var n := |ins| - 1;
      var before := RunAll(s, ins[..n]);
      if ins[n].AskAttach? && !before.wants then Enabling(before) else LastAttachEnabled(s, ins[..n])
  }

  /** Over every run, a wanted window has its accessory enabled if and only if the last attach that
      took effect met no scene, or an accessory still enabled. */
  lemma {:induction false} EnabledIffAttachedSo(scene: Option<nat>, registered: bool, ins: seq<Input>)
    requires CanRun(Begin(scene, registered), ins)
    ensures var s := RunAll(Begin(scene, registered), ins);
            s.alive && s.wants && s.accessory.Some? ==>
              (s.accessory == Some(true) <==> LastAttachEnabled(Begin(scene, registered), ins))
  {
    var b := Begin(scene, registered);
    if |ins| > 0 {
      var n := |ins| - 1;
      var before, i := RunAll(b, ins[..n]), ins[n];
      var s := Step(before, i);
      EnabledIffAttachedSo(scene, registered, ins[..n]);
      if s.alive && s.wants && s.accessory.Some? {
        WantedStep(before, i);
        if !before.wants {
          AttachEnables(before);
        } else if i.AskAttach? {
          assert s == before;
        }
      }
    }
  }

  /** Two runs that give Dart a window with the accessory disabled: attaching to a scene adopted at the
      start, and attaching again before a detached scene is gone. */
  lemma WantedYetDisabled(scene: nat, env: Env) returns (first: seq<Input>, second: seq<Input>)
    ensures CanRun(Begin(Some(scene), true), first) && CanRun(Begin(None, true), second)
    ensures var s := RunAll(Begin(Some(scene), true), first);
            s.wants && s.engine.Some? && s.accessory == Some(false)
    ensures var s := RunAll(Begin(None, true), second);
            s.wants && s.engine.Some? && s.accessory == Some(false)
  {
    first := Then(Begin(Some(scene), true), [], AskAttach);
    var b := Begin(None, true);
    second := Then(b, [], AskAttach);
    second := Then(b, second, Connect(scene, env));
    ShownAfterConnect(scene, env);
    var s := RunAll(b, second);
    AttachedAgain(s);
    second := Then(b, second, AskDetach);
    second := Then(b, second, Run(DisableAccessory));
    second := Then(b, second, AskAttach);
  }

  lemma Then(s: State, ins: seq<Input>, i: Input) returns (more: seq<Input>)
    requires CanRun(s, ins) && Possible(RunAll(s, ins), i)
    ensures CanRun(s, more) && RunAll(s, more) == Step(RunAll(s, ins), i)
  {
    more := ins + [i];
    assert more[..|ins|] == ins;
  }

  predicate Showing(s: State) {
    s.alive && s.scene.Some? && s.engine.Some? && s.accessory == Some(true)
  }

  lemma ShownAfterConnect(scene: nat, env: Env)
    ensures Showing(Step(Step(Begin(None, true), AskAttach), Connect(scene, env)))
  {
    var s := Step(Begin(None, true), AskAttach);
    assert s.wants && s.engine == None && !s.window && s.accessory == Some(true) && s.alive;
    var s' := s.(scene := Some(scene));
    assert Showing(ShowWindow(s'));
  }

  lemma AttachedAgain(s: State)
    requires Showing(s)
    ensures var s1 := Step(s, AskDetach);
            var s2 := Step(s1, Run(DisableAccessory));
            var s3 := Step(s2, AskAttach);
            && Possible(s, AskDetach) && Possible(s1, Run(DisableAccessory)) && Possible(s2, AskAttach)
            && s3.wants && s3.engine.Some? && s3.accessory == Some(false)
  {
    var s1 := Detach(s);
    assert DisableAccessory in s1.timers && !s1.wants && s1.alive;
    assert s1.scene == s.scene && s1.engine == None && !s1.window && s1.accessory == s.accessory;
    var s2 := Fire(s1, DisableAccessory);
    assert s2.accessory == Some(false) && !s2.wants && s2.alive;
    assert s2.scene == s.scene && s2.engine == None && !s2.window;
  }

  /** Once Dart has let go and every closure has run, nothing is left over: each engine created was
      destroyed exactly once, each call answered exactly once, and the accessory is disabled. */
  lemma NothingLeftOver(scene: Option<nat>, registered: bool, ins: seq<Input>)
    requires CanRun(Begin(scene, registered), ins)
    requires var s := RunAll(Begin(scene, registered), ins);
             s.alive && !s.wants && s.timers == multiset{}
    ensures var s := RunAll(Begin(scene, registered), ins);
            && s.engine == None && s.accessory != Some(true)
            && (forall e: nat :: s.destroyed[e] == One(e < s.engines))
            && (forall c: nat :: s.answered[c] == One(c < s.calls))
  {
    AllCallsAnswered(scene, registered, ins);
    EveryReachableState(scene, registered, ins);
    var s := RunAll(Begin(scene, registered), ins);
    forall e: nat ensures s.destroyed[e] == One(e < s.engines) {
      assert EngineSettled(s, e);
    }
  }
}
