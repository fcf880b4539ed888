/** Scroll gestures turned into wheel steps while the pointer is captured: a quantum of seven
    points, the remainder carried on, and one step forced out of a gesture that was too short. */
module ScrollWheel {
  const QUANTUM := 7.0

  datatype Point = Point(x: real, y: real)
  datatype Steps = Steps(dx: int, dy: int)

  const Zero := Point(0.0, 0.0)

  /** Conversion to an integer drops the fraction, towards zero. */
  function Trunc(x: real): int {
    if x >= 0.0 then x.Floor else -(-x).Floor
  }

  function Abs(x: real): real {
    if x >= 0.0 then x else -x
  }

  datatype Scroll = Scroll(last: Point, accum: Point, stepped: bool, sent: seq<Steps>)

  function SentSteps(s: Scroll, dx: int, dy: int): Scroll {
    s.(stepped := true, sent := s.sent + [Steps(dx, dy)])
  }

  function Quanta(a: Point): Steps {
    Steps(Trunc(a.x / QUANTUM), Trunc(a.y / QUANTUM))
  }

  /** The whole quanta `n` of an accumulated `a` are sent, the rest is carried. */
  function Carried(s: Scroll, a: Point, n: Steps): Scroll {
    if n.dx != 0 || n.dy != 0 then
      SentSteps(s.(accum := Point(a.x - n.dx as real * QUANTUM, a.y - n.dy as real * QUANTUM)), n.dx, n.dy)
    else s.(accum := a)
  }

  function Accumulated(s: Scroll, dx: real, dy: real): Scroll {
    var a := Point(s.accum.x + dx, s.accum.y + dy);
    Carried(s, a, Quanta(a))
  }

  function Consumed(s: Scroll, t: Point): Scroll {
    var s' := s.(last := t);
    if t == s.last then s' else Accumulated(s', t.x - s.last.x, t.y - s.last.y)
  }

  function Started(s: Scroll, t: Point): Scroll {
    Consumed(s.(last := Zero, accum := Zero, stepped := false), t)
  }

  /** A gesture that moved but sent nothing sends one step along its longer axis. */
  function Forced(s: Scroll, t: Point): Scroll {
    if s.stepped || t == Zero then s
    else if Abs(t.y) >= Abs(t.x) then SentSteps(s, 0, if t.y > 0.0 then 1 else -1)
    else SentSteps(s, if t.x > 0.0 then 1 else -1, 0)
  }

  function Ended(s: Scroll, t: Point): Scroll {
    Forced(Consumed(s, t), t).(last := Zero, accum := Zero)
  }

  datatype Phase = Began | Changed | Finished

  /** One callback: its phase, the translation so far, and whether it counts as pure scrolling
      (capture is active and no finger is down). */
  datatype Pan = Pan(phase: Phase, t: Point, pure: bool)

  function Panned(s: Scroll, p: Pan): Scroll {
    if !p.pure then s
    else match p.phase
      case Began => Started(s, p.t)
      case Changed => Consumed(s, p.t)
      case Finished => Ended(s, p.t)
  }

  class PointerCaptureBridge {
    var lastScrollPan: Point
    var scrollAccum: Point
    var scrollStepsSent: bool
    var wheel: seq<Steps> // sent to Dart

    ghost function View(): Scroll
      reads this
    {
      Scroll(lastScrollPan, scrollAccum, scrollStepsSent, wheel)
    }

    method SendWheelSteps(dx: int, dy: int)
      modifies this
      ensures View() == SentSteps(old(View()), dx, dy)
    {
      scrollStepsSent := true;
      wheel := wheel + [Steps(dx, dy)];
    }

    method AccumulateScroll(dx: real, dy: real)
      modifies this
      ensures View() == Accumulated(old(View()), dx, dy)
      ensures lastScrollPan == old(lastScrollPan)
    {
      scrollAccum := Point(scrollAccum.x + dx, scrollAccum.y + dy);
      var sx := Trunc(scrollAccum.x / QUANTUM);
      var sy := Trunc(scrollAccum.y / QUANTUM);
      if sx != 0 || sy != 0 {
        scrollAccum := Point(scrollAccum.x - sx as real * QUANTUM, scrollAccum.y - sy as real * QUANTUM);
        SendWheelSteps(sx, sy);
      }
    }

    method ConsumeScroll(t: Point)
      modifies this
      ensures View() == Consumed(old(View()), t)
      ensures forall before :: Balanced(old(View()), before) ==> Balanced(View(), before)
    {
      KeepsBalance(View(), t);
      var dx := t.x - lastScrollPan.x;
      var dy := t.y - lastScrollPan.y;
      lastScrollPan := t;
      if dx == 0.0 && dy == 0.0 {
        return;
      }
      AccumulateScroll(dx, dy);
    }

    method OnScrollPan(p: Pan)
      modifies this
      ensures View() == Panned(old(View()), p)
      ensures p.pure && p.phase == Began ==> Balanced(View(), old(wheel))
      ensures p.pure && p.phase == Finished ==> lastScrollPan == Zero && scrollAccum == Zero
      ensures p.phase == Finished ==> forall before :: Balanced(old(View()), before) && p.pure ==>
        before <= wheel && Exact(wheel[|before|..], p.t)
    {
      if !p.pure {
        return;
      }
      ghost var s := View();
      var t := p.t;
      match p.phase
      case Began =>
        lastScrollPan := Zero;
        scrollAccum := Zero;
        scrollStepsSent := false;
        assert Balanced(View(), wheel);
        ConsumeScroll(t);
      case Changed =>
        ConsumeScroll(t);
      case Finished =>
        forall before | Balanced(s, before)
          ensures var w := Forced(Consumed(s, t), t).sent; before <= w && Exact(w[|before|..], t)
        {
          ConsumedBalanced(s, t, before);
          ForcedIsExact(Consumed(s, t), t, before);
        }
        ConsumeScroll(t);
        if !scrollStepsSent && (t.x != 0.0 || t.y != 0.0) {
          if Abs(t.y) >= Abs(t.x) {
            SendWheelSteps(0, if t.y > 0.0 then 1 else -1);
          } else {
            SendWheelSteps(if t.x > 0.0 then 1 else -1, 0);
          }
        }
        lastScrollPan := Zero;
        scrollAccum := Zero;
    }
  }

  // Whole gestures

  function SumX(steps: seq<Steps>): int {
    if |steps| == 0 then 0 else SumX(steps[..|steps| - 1]) + steps[|steps| - 1].dx
  }

  function SumY(steps: seq<Steps>): int {
    if |steps| == 0 then 0 else SumY(steps[..|steps| - 1]) + steps[|steps| - 1].dy
  }

  lemma SumSnoc(steps: seq<Steps>, s: Steps)
    ensures SumX(steps + [s]) == SumX(steps) + s.dx && SumY(steps + [s]) == SumY(steps) + s.dy
  {
    assert (steps + [s])[..|steps|] == steps;
  }

  lemma Remainder(a: real)
    ensures Abs(a - Trunc(a / QUANTUM) as real * QUANTUM) < QUANTUM
  {
    var q := a / QUANTUM;
    assert a == q * QUANTUM;
    var r := q - Trunc(q) as real;
    assert -1.0 < r < 1.0;
    assert a - Trunc(q) as real * QUANTUM == r * QUANTUM;
  }

  /** Within a gesture: the steps sent since it began and the carried remainder make up the
      translation, and the remainder is less than a quantum. */
  predicate Balanced(s: Scroll, before: seq<Steps>) {
    && |before| <= |s.sent| && s.sent[..|before|] == before
    && (var steps := s.sent[|before|..];
        && SumX(steps) as real * QUANTUM + s.accum.x == s.last.x
        && SumY(steps) as real * QUANTUM + s.accum.y == s.last.y
        && s.stepped == (steps != []))
    && Abs(s.accum.x) < QUANTUM && Abs(s.accum.y) < QUANTUM
  }

  /** One axis: moving from `last` to `t` and sending the whole quanta keeps the balance. */
  lemma AxisBalanced(sum: int, accum: real, last: real, t: real, a: real, n: int)
    requires sum as real * QUANTUM + accum == last
    requires a == accum + (t - last) && n == Trunc(a / QUANTUM)
    ensures (sum + n) as real * QUANTUM + (a - n as real * QUANTUM) == t
    ensures Abs(a - n as real * QUANTUM) < QUANTUM
  {
    Remainder(a);
  }

  lemma CarriedBalanced(s: Scroll, t: Point, a: Point, n: Steps, before: seq<Steps>)
    requires |before| <= |s.sent| && s.sent[..|before|] == before
    requires s.stepped == (s.sent[|before|..] != []) && s.last == t
    requires var steps := s.sent[|before|..];
             && (SumX(steps) + n.dx) as real * QUANTUM + (a.x - n.dx as real * QUANTUM) == t.x
             && (SumY(steps) + n.dy) as real * QUANTUM + (a.y - n.dy as real * QUANTUM) == t.y
    requires Abs(a.x - n.dx as real * QUANTUM) < QUANTUM && Abs(a.y - n.dy as real * QUANTUM) < QUANTUM
    ensures Balanced(Carried(s, a, n), before)
  {
    var steps := s.sent[|before|..];
    SumSnoc(steps, n);
    assert (s.sent + [n])[|before|..] == steps + [n];
    assert (s.sent + [n])[..|before|] == before;
  }

  lemma AccumulatedIs(s: Scroll, dx: real, dy: real, a: Point)
    requires a == Point(s.accum.x + dx, s.accum.y + dy)
    ensures Accumulated(s, dx, dy) == Carried(s, a, Quanta(a))
  {
  }

  lemma AccumulatedBalanced(s: Scroll, t: Point, s': Scroll, before: seq<Steps>)
    requires Balanced(s, before) && s' == Accumulated(s.(last := t), t.x - s.last.x, t.y - s.last.y)
    ensures Balanced(s', before)
  {
    var steps := s.sent[|before|..];
    var a := Point(s.accum.x + (t.x - s.last.x), s.accum.y + (t.y - s.last.y));
    AccumulatedIs(s.(last := t), t.x - s.last.x, t.y - s.last.y, a);
    var n := Quanta(a);
    AxisBalanced(SumX(steps), s.accum.x, s.last.x, t.x, a.x, n.dx);
    AxisBalanced(SumY(steps), s.accum.y, s.last.y, t.y, a.y, n.dy);
    CarriedBalanced(s.(last := t), t, a, n, before);
  }

  lemma ConsumedLast(s: Scroll, t: Point)
    ensures Consumed(s, t).last == t
    ensures Consumed(s, t) == if t == s.last then s
                              else Accumulated(s.(last := t), t.x - s.last.x, t.y - s.last.y)
  {
  }

  lemma ConsumedBalanced(s: Scroll, t: Point, before: seq<Steps>)
    requires Balanced(s, before)
    ensures Balanced(Consumed(s, t), before) && Consumed(s, t).last == t
  {
    var s' := Consumed(s, t);
    ConsumedLast(s, t);
    if t != s.last {
      AccumulatedBalanced(s, t, s', before);
    }
  }

  lemma KeepsBalance(s: Scroll, t: Point)
    ensures forall before :: Balanced(s, before) ==> Balanced(Consumed(s, t), before)
  {
    forall before | Balanced(s, before) ensures Balanced(Consumed(s, t), before) {
      ConsumedBalanced(s, t, before);
    }
  }

  function AllPanned(s: Scroll, ps: seq<Pan>): Scroll {
    if |ps| == 0 then s else Panned(AllPanned(s, ps[..|ps| - 1]), ps[|ps| - 1])
  }

  lemma {:induction false} MovesBalanced(s: Scroll, ps: seq<Pan>, before: seq<Steps>)
    requires Balanced(s, before) && forall i :: 0 <= i < |ps| ==> ps[i].phase == Changed
    ensures Balanced(AllPanned(s, ps), before)
  {
    if |ps| > 0 {
      var n := |ps| - 1;
      MovesBalanced(s, ps[..n], before);
      if ps[n].pure {
        ConsumedBalanced(AllPanned(s, ps[..n]), ps[n].t, before);
      }
    }
  }

  /** A gesture that began and ended as pure scrolling, whatever came in between. */
  function Gesture(t0: Point, moves: seq<Pan>, t: Point): seq<Pan> {
    [Pan(Began, t0, true)] + moves + [Pan(Finished, t, true)]
  }

  /** From any state left behind, such a gesture sends steps that differ from its translation by less
      than one quantum on each axis, a forced step included, and sends at least one if it moved. */
  lemma GestureIsExact(s: Scroll, t0: Point, moves: seq<Pan>, t: Point)
    requires forall i :: 0 <= i < |moves| ==> moves[i].phase == Changed
    ensures var s' := AllPanned(s, Gesture(t0, moves, t));
            && |s.sent| <= |s'.sent| && s'.sent[..|s.sent|] == s.sent
            && Exact(s'.sent[|s.sent|..], t)
  {
    var before := s.sent;
    var s1 := Started(s, t0);
    assert before[|before|..] == [];
    ConsumedBalanced(s.(last := Zero, accum := Zero, stepped := false), t0, before);
    MovesBalanced(s1, moves, before);
    var s2 := AllPanned(s1, moves);
    SplitGesture(s, t0, moves, t);
    ConsumedBalanced(s2, t, before);
    ForcedIsExact(Consumed(s2, t), t, before);
  }

  lemma {:induction false} AllPannedFrom(s: Scroll, p: Pan, ps: seq<Pan>)
    ensures AllPanned(s, [p] + ps) == AllPanned(Panned(s, p), ps)
  {
    if |ps| == 0 {
      assert ([p] + ps)[..0] == [];
    } else {
      var n := |ps| - 1;
      AllPannedFrom(s, p, ps[..n]);
      assert ([p] + ps)[..n + 1] == [p] + ps[..n];
    }
  }

  lemma SplitGesture(s: Scroll, t0: Point, moves: seq<Pan>, t: Point)
    ensures AllPanned(s, Gesture(t0, moves, t)) == Ended(AllPanned(Started(s, t0), moves), t)
  {
    var p, e := Pan(Began, t0, true), Pan(Finished, t, true);
    assert Gesture(t0, moves, t) == [p] + (moves + [e]);
    AllPannedFrom(s, p, moves + [e]);
    assert (moves + [e])[..|moves|] == moves;
  }

  /** The result of a gesture whose steps, summed, are within a quantum of its translation. */
  predicate Exact(steps: seq<Steps>, t: Point) {
    && Abs(SumX(steps) as real * QUANTUM - t.x) < QUANTUM
    && Abs(SumY(steps) as real * QUANTUM - t.y) < QUANTUM
    && (t != Zero ==> steps != [])
  }

  lemma BalancedIsExact(s: Scroll, before: seq<Steps>)
    requires Balanced(s, before) && (s.last != Zero ==> s.stepped)
    ensures Exact(s.sent[|before|..], s.last)
  {
  }

  /** A forced step moves its axis by one quantum, towards a translation of less than one. */
  lemma ForcedStep(t: Point, step: Steps)
    requires Abs(t.x) < QUANTUM && Abs(t.y) < QUANTUM && t != Zero
    requires step == if Abs(t.y) >= Abs(t.x) then Steps(0, if t.y > 0.0 then 1 else -1)
                     else Steps(if t.x > 0.0 then 1 else -1, 0)
    ensures Exact([step], t)
  {
    SumSnoc([], step);
    assert [] + [step] == [step];
  }

  lemma ForcedIsExact(s: Scroll, t: Point, before: seq<Steps>)
    requires Balanced(s, before) && s.last == t
    ensures var s' := Forced(s, t);
            |before| <= |s'.sent| && s'.sent[..|before|] == before && Exact(s'.sent[|before|..], t)
  {
    if s.stepped || t == Zero {
      BalancedIsExact(s, before);
    } else {
      var s' := Forced(s, t);
      var step := s'.sent[|before|];
      assert s'.sent[|before|..] == [step];
      assert s.sent == before;
      ForcedStep(t, step);
    }
  }

  // What every callback keeps

  const Idle := Scroll(Zero, Zero, false, [])

  /** Less than a quantum is ever carried. */
  predicate Bounded(s: Scroll) {
    Abs(s.accum.x) < QUANTUM && Abs(s.accum.y) < QUANTUM
  }

  lemma AccumulatedBounded(s: Scroll, dx: real, dy: real)
    ensures Bounded(Accumulated(s, dx, dy))
  {
    var a := Point(s.accum.x + dx, s.accum.y + dy);
    var n := Quanta(a);
    AccumulatedIs(s, dx, dy, a);
    Remainder(a.x);
    Remainder(a.y);
  }

  lemma ConsumedBounded(s: Scroll, t: Point)
    requires Bounded(s)
    ensures Bounded(Consumed(s, t))
  {
    ConsumedLast(s, t);
    AccumulatedBounded(s.(last := t), t.x - s.last.x, t.y - s.last.y);
  }

  lemma PannedBounded(s: Scroll, p: Pan)
    requires Bounded(s)
    ensures Bounded(Panned(s, p))
  {
    if p.pure && p.phase == Began {
      ConsumedBounded(s.(last := Zero, accum := Zero, stepped := false), p.t);
    } else if p.pure {
      ConsumedBounded(s, p.t);
    }
  }

  /** After any callbacks at all, in any order, less than a quantum is carried. */
  lemma {:induction false} AlwaysBounded(ps: seq<Pan>)
    ensures Bounded(AllPanned(Idle, ps))
  {
    if |ps| > 0 {
      var n := |ps| - 1;
      AlwaysBounded(ps[..n]);
      PannedBounded(AllPanned(Idle, ps[..n]), ps[n]);
    }
  }

  // When a gesture sends anything at all, whichever of its callbacks were ignored

  predicate IsGesture(ps: seq<Pan>) {
    && |ps| >= 2 && ps[0].phase == Began && ps[|ps| - 1].phase == Finished
    && forall i :: 0 < i < |ps| - 1 ==> ps[i].phase == Changed
  }

  /** Where the gesture is measured from: its start if the first callback is acted on, else the point
      that leaves what was carried before. */
  function Origin(s: Scroll, first: Pan): Point {
    if first.pure then Zero else Point(s.last.x - s.accum.x, s.last.y - s.accum.y)
  }

  /** A callback that is acted on and finds the translation a quantum or more away on some axis. */
  predicate Reaches(p: Pan, o: Point) {
    p.pure && (Abs(p.t.x - o.x) >= QUANTUM || Abs(p.t.y - o.y) >= QUANTUM)
  }

  predicate SomeReach(ps: seq<Pan>, o: Point) {
    exists i :: 0 <= i < |ps| && Reaches(ps[i], o)
  }

  /** Nothing sent yet: all of the way from the origin is carried, and the flag is as the gesture found it. */
  predicate Silent(s: Scroll, before: seq<Steps>, flag: bool, o: Point) {
    && s.sent == before && s.stepped == flag && Bounded(s)
    && s.accum.x == s.last.x - o.x && s.accum.y == s.last.y - o.y
  }

  lemma WholeQuantum(a: real)
    ensures Trunc(a / QUANTUM) != 0 <==> Abs(a) >= QUANTUM
  {
    Remainder(a);
  }

  lemma ConsumedSends(s: Scroll, t: Point, before: seq<Steps>, flag: bool, o: Point)
    requires Silent(s, before, flag, o)
    ensures if Reaches(Pan(Changed, t, true), o) then |Consumed(s, t).sent| > |before|
            else Silent(Consumed(s, t), before, flag, o)
    ensures Consumed(s, t).last == t
  {
    WholeQuantum(t.x - o.x);
    WholeQuantum(t.y - o.y);
  }

  lemma PannedGrows(s: Scroll, p: Pan)
    ensures |Panned(s, p).sent| >= |s.sent|
  {
  }

  lemma SomeReachSnoc(ps: seq<Pan>, p: Pan, o: Point)
    ensures SomeReach(ps + [p], o) <==> SomeReach(ps, o) || Reaches(p, o)
  {
    if SomeReach(ps, o) {
      var i :| 0 <= i < |ps| && Reaches(ps[i], o);
      assert (ps + [p])[i] == ps[i];
    }
    assert (ps + [p])[|ps|] == p;
  }

  /** The flag that tells the end of the gesture whether to force a step: down if the first callback
      was acted on, else what an earlier gesture left. */
  function FlagOf(s: Scroll, p: Pan): bool {
    !p.pure && s.stepped
  }

  /** What the callbacks so far come to. */
  predicate SoFar(w: Scroll, ps: seq<Pan>, before: seq<Steps>, flag: bool, o: Point) {
    if SomeReach(ps, o) then |w.sent| > |before| else Silent(w, before, flag, o)
  }

  lemma FirstSoFar(s: Scroll, p: Pan)
    requires Bounded(s) && p.phase == Began
    ensures SoFar(Panned(s, p), [] + [p], s.sent, FlagOf(s, p), Origin(s, p))
  {
    var o := Origin(s, p);
    SomeReachSnoc([], p, o);
    if p.pure {
      ConsumedSends(s.(last := Zero, accum := Zero, stepped := false), p.t, s.sent, false, o);
    }
  }

  lemma NextSoFar(w: Scroll, ps: seq<Pan>, p: Pan, before: seq<Steps>, flag: bool, o: Point)
    requires SoFar(w, ps, before, flag, o) && p.phase == Changed
    ensures SoFar(Panned(w, p), ps + [p], before, flag, o)
  {
    SomeReachSnoc(ps, p, o);
    PannedGrows(w, p);
    if p.pure && !SomeReach(ps, o) {
      ConsumedSends(w, p.t, before, flag, o);
    }
  }

  lemma {:induction false} SentSoFar(s: Scroll, ps: seq<Pan>)
    requires Bounded(s)
    requires |ps| >= 1 && ps[0].phase == Began && forall i :: 0 < i < |ps| ==> ps[i].phase == Changed
    ensures SoFar(AllPanned(s, ps), ps, s.sent, FlagOf(s, ps[0]), Origin(s, ps[0]))
  {
    var n := |ps| - 1;
    assert ps[..n] + [ps[n]] == ps;
    if n == 0 {
      FirstSoFar(s, ps[0]);
      assert ps[..0] == [];
    } else {
      SentSoFar(s, ps[..n]);
      NextSoFar(AllPanned(s, ps[..n]), ps[..n], ps[n], s.sent, FlagOf(s, ps[0]), Origin(s, ps[0]));
    }
  }

  lemma SendsFrom(s: Scroll, ps: seq<Pan>)
    requires Bounded(s) && IsGesture(ps)
    ensures var e := ps[|ps| - 1];
            AllPanned(s, ps).sent != s.sent <==>
              SomeReach(ps, Origin(s, ps[0])) || (e.pure && e.t != Zero && !FlagOf(s, ps[0]))
  {
    var n, o := |ps| - 1, Origin(s, ps[0]);
    var w, e := AllPanned(s, ps[..n]), ps[n];
    SentSoFar(s, ps[..n]);
    assert ps[..n] + [e] == ps;
    SomeReachSnoc(ps[..n], e, o);
    PannedGrows(w, e);
    if e.pure && !SomeReach(ps[..n], o) {
      ConsumedSends(w, e.t, s.sent, FlagOf(s, ps[0]), o);
    }
  }

  /** After any callbacks whatever, a gesture sends something if and only if a callback that was acted on
      found it a quantum away from its origin, or its last callback was acted on after some movement and
      met the flag down. Origin and flag are the gesture's own unless its first callback was ignored;
      then they are what came before it. */
  lemma GestureSends(before: seq<Pan>, ps: seq<Pan>)
    requires IsGesture(ps)
    ensures var s, e := AllPanned(Idle, before), ps[|ps| - 1];
            AllPanned(s, ps).sent != s.sent <==>
              SomeReach(ps, Origin(s, ps[0])) || (e.pure && e.t != Zero && (ps[0].pure || !s.stepped))
  {
    AlwaysBounded(before);
    SendsFrom(AllPanned(Idle, before), ps);
  }

  /** The step of a gesture too short to send one: along its longer axis, the vertical one if they are
      equal, and in the direction of the translation. */
  function OneStep(t: Point): Steps {
    if Abs(t.x) > Abs(t.y) then (if t.x < 0.0 then Steps(-1, 0) else Steps(1, 0))
    else if t.y < 0.0 then Steps(0, -1) else Steps(0, 1)
  }

  lemma ForcedAxis(s: Scroll, t: Point)
    requires !s.stepped && t != Zero
    ensures Forced(s, t).sent == s.sent + [OneStep(t)]
  {
  }

  lemma EndsShort(w: Scroll, t: Point, before: seq<Steps>, o: Point)
    requires Silent(w, before, false, o) && !Reaches(Pan(Changed, t, true), o) && t != Zero
    ensures Ended(w, t).sent == before + [OneStep(t)]
  {
    ConsumedSends(w, t, before, false, o);
    ForcedAxis(Consumed(w, t), t);
  }

  lemma SilentSoFar(s: Scroll, ps: seq<Pan>, n: nat, o: Point)
    requires Bounded(s) && IsGesture(ps) && n == |ps| - 1 && o == Origin(s, ps[0])
    requires !SomeReach(ps, o) && (ps[0].pure || !s.stepped)
    ensures Silent(AllPanned(s, ps[..n]), s.sent, false, o) && !Reaches(ps[n], o)
  {
    SentSoFar(s, ps[..n]);
    assert ps[..n] + [ps[n]] == ps;
    SomeReachSnoc(ps[..n], ps[n], o);
  }

  lemma LastPanned(s: Scroll, ps: seq<Pan>, t: Point)
    requires |ps| > 0 && ps[|ps| - 1] == Pan(Finished, t, true)
    ensures AllPanned(s, ps) == Ended(AllPanned(s, ps[..|ps| - 1]), t)
  {
  }

  /** A gesture that moved, but never got a quantum away, sends exactly that one step. */
  lemma ShortGesture(before: seq<Pan>, ps: seq<Pan>, s: Scroll, t: Point)
    requires IsGesture(ps) && s == AllPanned(Idle, before) && !SomeReach(ps, Origin(s, ps[0]))
    requires ps[|ps| - 1] == Pan(Finished, t, true) && t != Zero && (ps[0].pure || !s.stepped)
    ensures AllPanned(s, ps).sent == s.sent + [OneStep(t)]
  {
    var n, o := |ps| - 1, Origin(s, ps[0]);
    AlwaysBounded(before);
    SilentSoFar(s, ps, n, o);
    LastPanned(s, ps, t);
    EndsShort(AllPanned(s, ps[..n]), t, s.sent, o);
  }

  // Two gestures from rest of which the second is lost

  function Short(t0: Point, pure0: bool, t: Point, pure: bool): seq<Pan> {
    [Pan(Began, t0, pure0), Pan(Finished, t, pure)]
  }

  lemma TwoCallbacks(s: Scroll, p: Pan, e: Pan)
    ensures AllPanned(s, [p, e]) == Panned(Panned(s, p), e)
  {
    assert [p, e][..1] == [p] && [p][..0] == [];
    assert AllPanned(s, [p]) == Panned(AllPanned(s, []), p);
  }

  lemma NoneReaches(ps: seq<Pan>, o: Point)
    requires |ps| == 2 && !Reaches(ps[0], o) && !Reaches(ps[1], o)
    ensures !SomeReach(ps, o)
  {
  }

  /** The first sends a step and leaves the flag up; the first callback of the second is ignored, and
      its translation stays below a quantum. */
  lemma StaleFlag(t0: Point, t: Point)
    requires Abs(t.x) < QUANTUM && Abs(t.y) < QUANTUM
    ensures var s := AllPanned(Idle, Short(Point(0.0, 8.0), true, Point(0.0, 8.0), true));
            s.sent != [] && AllPanned(s, Short(t0, false, t, true)).sent == s.sent
  {
    var eight := Point(0.0, 8.0);
    TwoCallbacks(Idle, Pan(Began, eight, true), Pan(Finished, eight, true));
    var s1 := Panned(Idle, Pan(Began, eight, true));
    assert Trunc(8.0 / QUANTUM) == 1 && Trunc(0.0 / QUANTUM) == 0;
    assert s1 == Scroll(eight, Point(0.0, 1.0), true, [Steps(0, 1)]);
    var s := Panned(s1, Pan(Finished, eight, true));
    assert s == Scroll(Zero, Zero, true, [Steps(0, 1)]);
    NoneReaches(Short(t0, false, t, true), Zero);
    SendsFrom(s, Short(t0, false, t, true));
  }

  /** The last callback of the first and the first of the second are ignored: the second is measured
      from where the first was, and lost although it ends more than a quantum away. */
  lemma StaleOrigin()
    ensures var s := AllPanned(Idle, Short(Point(0.0, 8.0), true, Point(0.0, 8.0), false));
            s.sent != [] && AllPanned(s, Short(Zero, false, Point(0.0, 9.0), true)).sent == s.sent
  {
    var eight, nine := Point(0.0, 8.0), Point(0.0, 9.0);
    TwoCallbacks(Idle, Pan(Began, eight, true), Pan(Finished, eight, false));
    assert Trunc(8.0 / QUANTUM) == 1 && Trunc(0.0 / QUANTUM) == 0;
    var s := Panned(Idle, Pan(Began, eight, true));
    assert s == Scroll(eight, Point(0.0, 1.0), true, [Steps(0, 1)]);
    NoneReaches(Short(Zero, false, nine, true), Point(0.0, 7.0));
    SendsFrom(s, Short(Zero, false, nine, true));
  }
}
