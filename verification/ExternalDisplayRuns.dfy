/** What whole runs of the external monitor's controller come to, told from the inputs alone: the scene,
    the window, the accessory and the waiting calls, and every presence value Dart is told. */
module ExternalDisplayRuns {
  import opened Common
  import opened ExternalDisplay

  // The controller's fields

  /** What the inputs alone tell of the controller: the scene at hand, whether Dart wants the window and
      has it, whether the accessory is enabled, and which of how many `screenSize` calls still wait. */
  datatype Summary = Summary(held: Option<nat>, wished: bool, shown: bool, enabled: bool, queue: seq<nat>,
                             calls: nat)

  /** A scene taken away counts if it is the one at hand, or none is. */
  predicate Withdraws(o: Summary, i: Input) {
    i.Disconnect? && (o.held == None || o.held == Some(i.scene))
  }

  function Noting(o: Summary, i: Input): Summary {
    match i
    case AskSize(env) =>
      o.(calls := o.calls + 1, queue := o.queue + (if o.wished && !env.screen then [o.calls] else []))
    case AskAttach =>
      if o.wished then o
      else if o.held == None then o.(wished := true, enabled := true)
      else o.(wished := true, shown := true, queue := [])
    case AskDetach => o.(wished := false, shown := false, enabled := o.shown && o.enabled, queue := [])
    case Connect(scene, _) =>
      o.(held := Some(scene), shown := o.wished, queue := if o.wished && !o.shown then [] else o.queue)
    case Disconnect(_, _) => if Withdraws(o, i) then Summary(None, false, false, false, [], o.calls) else o
    case SceneReleased => o.(held := None)
    case Run(DisableAccessory) => o.(enabled := o.wished && o.enabled)
    case Run(FlushSizes) => o.(queue := [])
    case _ => o
  }

  function Summed(scene: Option<nat>, ins: seq<Input>): Summary {
    if |ins| == 0 then Summary(scene, false, false, false, [], 0)
    else Noting(Summed(scene, ins[..|ins| - 1]), ins[|ins| - 1])
  }

  predicate Fits(s: State, o: Summary, registered: bool) {
    && s.scene == o.held && s.wants == o.wished && s.engine.Some? == o.shown
    && s.accessory == (if registered then Some(o.enabled) else None)
    && s.waiting == o.queue && s.calls == o.calls
  }

  lemma RefreshFits(s: State, env: Env, o: Summary, registered: bool)
    requires Fits(s, o, registered)
    ensures Fits(RefreshConnected(s, env), o, registered)
  {
  }

  lemma DetachFits(s: State, o: Summary, registered: bool)
    requires Together(s) && Fits(s, o, registered)
    ensures Fits(Detach(s), Noting(o, AskDetach), registered)
  {
  }

  lemma AttachFits(s: State, o: Summary, registered: bool)
    requires Together(s) && Fits(s, o, registered)
    ensures Fits(Attach(s), Noting(o, AskAttach), registered)
  {
  }

  lemma SizeFits(s: State, env: Env, o: Summary, registered: bool)
    requires Fits(s, o, registered)
    ensures Fits(ScreenSize(s, env), Noting(o, AskSize(env)), registered)
  {
  }

  lemma CallFits(s: State, i: Input, o: Summary, registered: bool)
    requires Together(s) && Fits(s, o, registered) && IsCall(i)
    ensures Fits(Step(s, i), Noting(o, i), registered)
  {
    match i
    case AskConnected(_) =>
    case AskSize(env) => SizeFits(s, env, o, registered);
    case AskAttach => AttachFits(s, o, registered);
    case AskDetach => DetachFits(s, o, registered);
  }

  lemma DisconnectFits(s: State, scene: nat, env: Env, o: Summary, registered: bool)
    requires Together(s) && Fits(s, o, registered)
    ensures Fits(SceneDisconnected(s, scene, env), Noting(o, Disconnect(scene, env)), registered)
  {
    if Withdraws(o, Disconnect(scene, env)) {
      var s0, o0 := s.(scene := None), o.(held := None);
      DetachFits(s0, o0, registered);
      var closed, o1 := Detach(s0), Noting(o0, AskDetach);
      var s1 := if s.wants then Withdrawn(closed) else closed;
      assert Fits(s1, o1.(enabled := false), registered);
      RefreshFits(s1, env, o1.(enabled := false), registered);
    }
  }

  lemma ConnectFits(s: State, scene: nat, env: Env, o: Summary, registered: bool)
    requires Together(s) && Fits(s, o, registered)
    ensures Fits(SceneConnected(s, scene, env), Noting(o, Connect(scene, env)), registered)
  {
    var s' := s.(scene := Some(scene));
    var s1 := if s.wants then ShowWindow(s') else s';
    assert Fits(s1, Noting(o, Connect(scene, env)), registered);
    RefreshFits(s1, env, Noting(o, Connect(scene, env)), registered);
  }

  lemma SceneEventFits(s: State, i: Input, o: Summary, registered: bool)
    requires Together(s) && Fits(s, o, registered) && IsSceneEvent(i)
    ensures Fits(Step(s, i), Noting(o, i), registered)
  {
    match i
    case Connect(scene, env) => ConnectFits(s, scene, env, o, registered);
    case Disconnect(scene, env) => DisconnectFits(s, scene, env, o, registered);
    case SceneReleased =>
    case PresenceChanged(env) => RefreshFits(s, env, o, registered);
  }

  lemma DisableFits(s: State, o: Summary, registered: bool)
    requires Fits(s, o, registered) && s.alive
    ensures Fits(Fire(s, DisableAccessory), Noting(o, Run(DisableAccessory)), registered)
  {
  }

  lemma FlushFits(s: State, o: Summary, registered: bool)
    requires Fits(s, o, registered) && s.alive
    ensures Fits(Fire(s, FlushSizes), Noting(o, Run(FlushSizes)), registered)
  {
  }

  lemma FireFits(s: State, timer: Timer, o: Summary, registered: bool)
    requires Fits(s, o, registered) && s.alive
    ensures Fits(Fire(s, timer), Noting(o, Run(timer)), registered)
  {
    match timer
    case DestroyEngine(_) =>
    case DisableAccessory => DisableFits(s, o, registered);
    case FlushSizes => FlushFits(s, o, registered);
  }

  lemma StepFits(s: State, i: Input, o: Summary, registered: bool)
    requires Together(s) && Fits(s, o, registered) && s.alive && !i.Release?
    ensures Fits(Step(s, i), Noting(o, i), registered)
  {
    if IsCall(i) {
      CallFits(s, i, o, registered);
    } else if IsSceneEvent(i) {
      SceneEventFits(s, i, o, registered);
    } else {
      FireFits(s, i.timer, o, registered);
    }
  }

  lemma AliveBefore(s: State, i: Input)
    requires Possible(s, i) && Step(s, i).alive
    ensures s.alive && !i.Release?
  {
  }

  /** Until it is released, the controller is after every run what its inputs alone come to: which scene
      it has, whether the window is wanted and open, whether the accessory is enabled, which calls wait. */
  lemma {:induction false} RunFits(scene: Option<nat>, registered: bool, ins: seq<Input>)
    requires CanRun(Begin(scene, registered), ins) && RunAll(Begin(scene, registered), ins).alive
    ensures Fits(RunAll(Begin(scene, registered), ins), Summed(scene, ins), registered)
  {
    if |ins| > 0 {
      var n := |ins| - 1;
      var s := RunAll(Begin(scene, registered), ins[..n]);
      AliveBefore(s, ins[n]);
      RunFits(scene, registered, ins[..n]);
      EveryReachableState(scene, registered, ins[..n]);
      StepFits(s, ins[n], Summed(scene, ins[..n]), registered);
    }
  }

  // What Dart is told

  /** A presence value is pushed if it differs from the one told before. */
  function Pushed(told: seq<Told>, present: bool): seq<Told> {
    if present == LastTold(told) then told else told + [Event(present)]
  }

  /** Whether a monitor is present: what the system says of the accessory if one is registered, else that a
      scene is at hand or there is more than one screen. */
  predicate Present(env: Env, held: Option<nat>, registered: bool) {
    if registered then env.available else held != None || env.screens > 1
  }

  /** What Dart has been told once the input is handled, given the scene then at hand. */
  function ToldAfter(told: seq<Told>, i: Input, o: Summary, registered: bool): seq<Told> {
    match i
    case AskConnected(env) => told + [Reply(Present(env, o.held, registered))]
    case PresenceChanged(env) => Pushed(told, Present(env, o.held, registered))
    case Connect(scene, env) => Pushed(told, Present(env, Some(scene), registered))
    case Disconnect(_, env) =>
      if !Withdraws(o, i) then told
      else Pushed(if o.wished then Pushed(told, false) else told, Present(env, None, registered))
    case _ => told
  }

  lemma RefreshTold(s: State, env: Env)
    requires LastTold(s.told) == s.notified
    ensures RefreshConnected(s, env).told == Pushed(s.told, MonitorPresent(s, env))
  {
  }

  lemma DetachTold(s: State)
    ensures var s' := Detach(s);
            && s'.told == s.told && s'.notified == s.notified && s'.scene == s.scene
            && s'.accessory.Some? == s.accessory.Some?
  {
  }

  lemma WithdrawnTold(s: State)
    requires LastTold(s.told) == s.notified
    ensures var s' := Withdrawn(s);
            && s'.told == Pushed(s.told, false) && LastTold(s'.told) == s'.notified
            && s'.scene == s.scene && s'.accessory.Some? == s.accessory.Some?
  {
  }

  lemma DisconnectTold(s: State, scene: nat, env: Env, o: Summary, registered: bool)
    requires Together(s) && Fits(s, o, registered) && LastTold(s.told) == s.notified
    ensures SceneDisconnected(s, scene, env).told == ToldAfter(s.told, Disconnect(scene, env), o, registered)
  {
    if Withdraws(o, Disconnect(scene, env)) {
      var closed := Detach(s.(scene := None));
      DetachTold(s.(scene := None));
      var s1 := if s.wants then Withdrawn(closed) else closed;
      WithdrawnTold(closed);
      RefreshTold(s1, env);
    }
  }

  lemma ConnectTold(s: State, scene: nat, env: Env, o: Summary, registered: bool)
    requires Together(s) && Fits(s, o, registered) && LastTold(s.told) == s.notified
    ensures SceneConnected(s, scene, env).told == ToldAfter(s.told, Connect(scene, env), o, registered)
  {
    var s' := s.(scene := Some(scene));
    RefreshTold(if s.wants then ShowWindow(s') else s', env);
  }

  lemma AttachTold(s: State)
    ensures Attach(s).told == s.told
  {
  }

  lemma CallTold(s: State, i: Input, o: Summary, registered: bool)
    requires Fits(s, o, registered) && IsCall(i)
    ensures Step(s, i).told == ToldAfter(s.told, i, o, registered)
  {
    match i
    case AskConnected(_) =>
    case AskSize(_) =>
    case AskAttach => AttachTold(s);
    case AskDetach => DetachTold(s);
  }

  lemma SceneTold(s: State, i: Input, o: Summary, registered: bool)
    requires Together(s) && Fits(s, o, registered) && LastTold(s.told) == s.notified && IsSceneEvent(i)
    ensures Step(s, i).told == ToldAfter(s.told, i, o, registered)
  {
    match i
    case Connect(scene, env) => ConnectTold(s, scene, env, o, registered);
    case Disconnect(scene, env) => DisconnectTold(s, scene, env, o, registered);
    case SceneReleased =>
    case PresenceChanged(env) => RefreshTold(s, env);
  }

  lemma OtherTold(s: State, i: Input)
    requires i.Run? || i.Release?
    ensures Step(s, i).told == s.told
  {
  }

  lemma StepTold(s: State, i: Input, o: Summary, registered: bool)
    requires Together(s) && Fits(s, o, registered) && LastTold(s.told) == s.notified
    ensures Step(s, i).told == ToldAfter(s.told, i, o, registered)
  {
    if IsCall(i) {
      CallTold(s, i, o, registered);
    } else if IsSceneEvent(i) {
      SceneTold(s, i, o, registered);
    } else {
      OtherTold(s, i);
    }
  }

  /** In every run Dart is told the truth: with an accessory registered what the system says of it, without
      one that a scene is at hand after the step or there is more than one screen. It is told so in reply,
      or pushed where it differs from the last value; a scene withdrawn while wanted is reported first. */
  lemma PresenceTruth(scene: Option<nat>, registered: bool, ins: seq<Input>, i: Input)
    requires CanRun(Begin(scene, registered), ins) && RunAll(Begin(scene, registered), ins).alive
    ensures var s := RunAll(Begin(scene, registered), ins);
            Step(s, i).told == ToldAfter(s.told, i, Summed(scene, ins), registered)
  {
    RunFits(scene, registered, ins);
    EveryReachableState(scene, registered, ins);
    StepTold(RunAll(Begin(scene, registered), ins), i, Summed(scene, ins), registered);
  }
}
