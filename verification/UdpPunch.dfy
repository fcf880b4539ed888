/** Punching a hole through a NAT: empty packets at growing intervals until something is heard or
    twenty seconds have passed. Times are in milliseconds, one clock reading per wake-up. */
module UdpPunch {
  const FIRST_INTERVAL := 20
  const MAX_INTERVAL := 200
  const MAX_TIME := 20000

  datatype Wake = Slept(now: nat) | Datagram(size: nat) | ReceiveError

  datatype Outcome = TimedOut | Failed | Heard | HeardData(size: nat) | Waiting

  function Elapsed(since: nat, now: nat): nat {
    if now >= since then now - since else 0
  }

  function Longer(interval: nat): nat {
    var longer := interval * 3 / 2;
    if longer <= MAX_INTERVAL then longer else MAX_INTERVAL
  }

  /** The interval in force after `k` retries. */
  function Interval(k: nat): nat {
    if k == 0 then FIRST_INTERVAL else Longer(Interval(k - 1))
  }

  /** The least time from the first packet to the n-th. */
  function Spread(n: nat): nat {
    if n <= 1 then 0 else Spread(n - 1) + Interval(n - 2)
  }

  lemma {:induction false} IntervalGrows(k: nat)
    ensures FIRST_INTERVAL <= Interval(k) <= Interval(k + 1) <= MAX_INTERVAL
  {
    if k > 0 {
      IntervalGrows(k - 1);
    }
  }

  lemma IntervalNext(k: nat)
    ensures Interval(k + 1) == Longer(Interval(k))
  {
  }

  lemma FirstIntervals()
    ensures Interval(0) == 20 && Interval(1) == 30 && Interval(2) == 45 && Interval(3) == 67
    ensures Interval(4) == 100 && Interval(5) == 150 && Interval(6) == 200
  {
    assert Interval(3) == 67;
    assert Interval(5) == 150;
  }

  /** Six retries bring the interval to its maximum, and it stays there. */
  lemma {:induction false} IntervalSettles(k: nat)
    requires k >= 6
    ensures Interval(k) == MAX_INTERVAL
  {
    if k == 6 {
      FirstIntervals();
    } else {
      IntervalSettles(k - 1);
    }
  }

  /** Seven packets take 412 ms, every further one 200 ms more. */
  lemma {:induction false} SpreadFrom7(n: nat)
    requires n >= 7
    ensures Spread(n) == 412 + 200 * (n - 7)
  {
    if n == 7 {
      FirstIntervals();
      assert Spread(3) == 50;
      assert Spread(5) == 162;
    } else {
      SpreadFrom7(n - 1);
      IntervalSettles(n - 2);
    }
  }

  /** Packets no closer together than the interval of their turn. */
  predicate Paced(sent: seq<nat>) {
    forall i :: 0 < i < |sent| ==> sent[i] >= sent[i - 1] + Interval(i - 1)
  }

  lemma {:induction false} PacedSpread(sent: seq<nat>)
    requires |sent| > 0 && Paced(sent)
    ensures sent[|sent| - 1] >= sent[0] + Spread(|sent|)
  {
    if |sent| > 1 {
      PacedSpread(sent[..|sent| - 1]);
    }
  }

  /** At most 104 packets fit between the first one and the cut-off. */
  lemma AtMost104(sent: seq<nat>)
    requires |sent| > 0 && Paced(sent) && sent[|sent| - 1] <= sent[0] + MAX_TIME
    ensures |sent| <= 104
  {
    PacedSpread(sent);
    if |sent| >= 7 {
      SpreadFrom7(|sent|);
    }
  }

  // The loop

  datatype Punch = Punch(outcome: Outcome, sent: seq<nat>)

  /** One wake-up: give up, send what is due, or stop because of what was received. */
  function Woken(p: Punch, listen: bool, w: Wake): Punch
    requires |p.sent| > 0
  {
    if !p.outcome.Waiting? then p
    else
      match w
      case Slept(now) =>
        if Elapsed(p.sent[0], now) > MAX_TIME then p.(outcome := TimedOut)
        else if Elapsed(p.sent[|p.sent| - 1], now) >= Interval(|p.sent| - 1) then p.(sent := p.sent + [now])
        else p
      case ReceiveError => p.(outcome := Failed)
      case Datagram(size) =>
        if !listen then p.(outcome := Heard)
        else if size > 0 then p.(outcome := HeardData(size))
        else p
  }

  function Punched(start: nat, listen: bool, wakes: seq<Wake>): (p: Punch)
    ensures |p.sent| > 0
  {
    if |wakes| == 0 then Punch(Waiting, [start])
    else Woken(Punched(start, listen, wakes[..|wakes| - 1]), listen, wakes[|wakes| - 1])
  }

  lemma PunchedNext(start: nat, listen: bool, wakes: seq<Wake>, i: nat)
    requires i < |wakes|
    ensures Punched(start, listen, wakes[..i + 1]) == Woken(Punched(start, listen, wakes[..i]), listen, wakes[i])
  {
    assert wakes[..i + 1][..i] == wakes[..i];
  }

  lemma {:induction false} PunchedIsFinal(start: nat, listen: bool, wakes: seq<Wake>, k: nat)
    requires k <= |wakes| && !Punched(start, listen, wakes[..k]).outcome.Waiting?
    ensures Punched(start, listen, wakes) == Punched(start, listen, wakes[..k])
  {
    var n := |wakes| - 1;
    if k <= n {
      assert wakes[..n][..k] == wakes[..k];
      PunchedIsFinal(start, listen, wakes[..n], k);
    } else {
      assert wakes[..k] == wakes;
    }
  }

  predicate InTime(sent: seq<nat>, start: nat) {
    |sent| > 0 && sent[0] == start && Paced(sent) && sent[|sent| - 1] <= start + MAX_TIME
  }

  lemma WokenInTime(p: Punch, listen: bool, w: Wake, start: nat)
    requires InTime(p.sent, start)
    ensures InTime(Woken(p, listen, w).sent, start)
  {
    IntervalGrows(|p.sent| - 1);
  }

  lemma {:induction false} PunchedInTime(start: nat, listen: bool, wakes: seq<Wake>)
    ensures InTime(Punched(start, listen, wakes).sent, start)
  {
    if |wakes| > 0 {
      var n := |wakes| - 1;
      PunchedInTime(start, listen, wakes[..n]);
      WokenInTime(Punched(start, listen, wakes[..n]), listen, wakes[n], start);
    }
  }

  /** However the wake-ups fall, the packets keep their pace and stop at the cut-off: at most 104. */
  lemma PunchIsPaced(start: nat, listen: bool, wakes: seq<Wake>)
    ensures var sent := Punched(start, listen, wakes).sent;
            && InTime(sent, start) && |sent| <= 104
            && (|sent| >= 7 ==> sent[|sent| - 1] >= start + 412 + 200 * (|sent| - 7))
  {
    PunchedInTime(start, listen, wakes);
    var sent := Punched(start, listen, wakes).sent;
    AtMost104(sent);
    PacedSpread(sent);
    if |sent| >= 7 {
      SpreadFrom7(|sent|);
    }
  }

  /** What a wake-up decides, taken for itself: nothing, while twenty seconds have not passed and nothing
      that counts was received. */
  function Verdict(start: nat, listen: bool, w: Wake): Outcome {
    match w
    case Slept(now) => if now > start + 20_000 then TimedOut else Waiting
    case ReceiveError => Failed
    case Datagram(size) => if !listen then Heard else if size > 0 then HeardData(size) else Waiting
  }

  lemma WokenVerdict(p: Punch, listen: bool, w: Wake)
    requires |p.sent| > 0 && p.outcome == Waiting
    ensures Woken(p, listen, w).outcome == Verdict(p.sent[0], listen, w)
  {
  }

  lemma {:induction false} StillWaiting(start: nat, listen: bool, wakes: seq<Wake>)
    requires forall i :: 0 <= i < |wakes| ==> Verdict(start, listen, wakes[i]) == Waiting
    ensures Punched(start, listen, wakes).outcome == Waiting
  {
    if |wakes| > 0 {
      var n := |wakes| - 1;
      StillWaiting(start, listen, wakes[..n]);
      PunchedInTime(start, listen, wakes[..n]);
      WokenVerdict(Punched(start, listen, wakes[..n]), listen, wakes[n]);
    }
  }

  /** The first wake-up that decides anything decides the outcome, whatever follows; without one it is
      still waiting. `k` is the number of wake-ups before it. */
  lemma OutcomeExactly(start: nat, listen: bool, wakes: seq<Wake>, k: nat)
    requires k <= |wakes| && forall i :: 0 <= i < k ==> Verdict(start, listen, wakes[i]) == Waiting
    requires k < |wakes| ==> Verdict(start, listen, wakes[k]) != Waiting
    ensures Punched(start, listen, wakes).outcome
         == if k < |wakes| then Verdict(start, listen, wakes[k]) else Waiting
  {
    StillWaiting(start, listen, wakes[..k]);
    if k < |wakes| {
      PunchedInTime(start, listen, wakes[..k]);
      PunchedNext(start, listen, wakes, k);
      WokenVerdict(Punched(start, listen, wakes[..k]), listen, wakes[k]);
      PunchedIsFinal(start, listen, wakes, k + 1);
    } else {
      assert wakes[..k] == wakes;
    }
  }

  lemma WokenSends(p: Punch, listen: bool, w: Wake)
    requires |p.sent| > 0
    ensures var p' := Woken(p, listen, w);
            && (p'.sent == p.sent || (w.Slept? && p'.sent == p.sent + [w.now]))
            && (p'.outcome == Waiting && w.Slept? ==> w.now < p'.sent[|p'.sent| - 1] + Interval(|p'.sent| - 1))
  {
    IntervalGrows(|p.sent|);
  }

  /** Every packet after the first goes out at a wake-up. */
  lemma {:induction false} SentAtWakes(start: nat, listen: bool, wakes: seq<Wake>, i: nat)
    requires 0 < i < |Punched(start, listen, wakes).sent|
    ensures Slept(Punched(start, listen, wakes).sent[i]) in wakes
  {
    if |wakes| > 0 {
      var n := |wakes| - 1;
      var p := Punched(start, listen, wakes[..n]);
      WokenSends(p, listen, wakes[n]);
      if i < |p.sent| {
        SentAtWakes(start, listen, wakes[..n], i);
      }
    }
  }

  /** A packet that is due is sent: after a wake-up that did not end it, the last packet is younger than
      the interval of its turn. */
  lemma DueIsSent(start: nat, listen: bool, wakes: seq<Wake>, now: nat)
    requires |wakes| > 0 && wakes[|wakes| - 1] == Slept(now)
    requires Punched(start, listen, wakes).outcome == Waiting
    ensures var sent := Punched(start, listen, wakes).sent; now < sent[|sent| - 1] + Interval(|sent| - 1)
  {
    WokenSends(Punched(start, listen, wakes[..|wakes| - 1]), listen, Slept(now));
  }

  /** `k` packets after the first, each sent the moment it was due. */
  predicate OnTheDot(start: nat, p: Punch, k: nat) {
    p.outcome == Waiting && |p.sent| == k + 1 && p.sent[0] == start && p.sent[k] == start + Spread(k + 1)
  }

  lemma DueStep(start: nat, p: Punch, listen: bool, k: nat)
    requires OnTheDot(start, p, k) && Spread(k + 2) <= MAX_TIME
    ensures OnTheDot(start, Woken(p, listen, Slept(start + Spread(k + 2))), k + 1)
  {
    assert Spread(k + 2) == Spread(k + 1) + Interval(k);
  }

  lemma Snoc(start: nat, listen: bool, before: seq<Wake>, w: Wake) returns (wakes: seq<Wake>)
    ensures Punched(start, listen, wakes) == Woken(Punched(start, listen, before), listen, w)
  {
    wakes := before + [w];
    assert wakes[..|before|] == before;
  }

  lemma {:induction false} DueSends(start: nat, listen: bool, k: nat) returns (wakes: seq<Wake>)
    requires k <= 103
    ensures OnTheDot(start, Punched(start, listen, wakes), k)
  {
    if k == 0 {
      wakes := [];
    } else {
      var before := DueSends(start, listen, k - 1);
      wakes := DueNext(start, listen, before, k - 1);
    }
  }

  lemma DueNext(start: nat, listen: bool, before: seq<Wake>, k: nat) returns (wakes: seq<Wake>)
    requires k < 103 && OnTheDot(start, Punched(start, listen, before), k)
    ensures OnTheDot(start, Punched(start, listen, wakes), k + 1)
  {
    var p, due := Punched(start, listen, before), Slept(start + Spread(k + 2));
    SpreadFits(k + 2);
    DueStep(start, p, listen, k);
    wakes := Snoc(start, listen, before, due);
  }

  /** The bound is reached: waking up exactly when a packet is due sends 104. */
  lemma Reaches104(start: nat, listen: bool) returns (wakes: seq<Wake>)
    ensures |Punched(start, listen, wakes).sent| == 104
  {
    wakes := DueSends(start, listen, 103);
  }

  lemma SpreadFits(n: nat)
    requires n <= 104
    ensures Spread(n) <= MAX_TIME
  {
    if n >= 7 {
      SpreadFrom7(n);
    } else {
      SpreadFrom7(7);
      SpreadMonotone(n, 7);
    }
  }

  lemma {:induction false} SpreadMonotone(m: nat, n: nat)
    requires m <= n
    ensures Spread(m) <= Spread(n)
  {
    if m < n {
      SpreadMonotone(m, n - 1);
    }
  }

  /** One turn of the loop. */
  method OnWake(listen: bool, w: Wake, sent0: seq<nat>, interval0: nat)
      returns (outcome: Outcome, sent: seq<nat>, interval: nat)
    requires |sent0| > 0 && interval0 == Interval(|sent0| - 1)
    ensures Punch(outcome, sent) == Woken(Punch(Waiting, sent0), listen, w)
    ensures |sent| > 0 && interval == Interval(|sent| - 1)
  {
    outcome, sent, interval := Waiting, sent0, interval0;
    match w
    case Slept(now) =>
      if Elapsed(sent[0], now) > MAX_TIME {
        outcome := TimedOut;
      } else if Elapsed(sent[|sent| - 1], now) >= interval {
        IntervalNext(|sent| - 1);
        sent := sent + [now];
        interval := Longer(interval);
      }
    case ReceiveError =>
      outcome := Failed;
    case Datagram(size) =>
      if !listen {
        outcome := Heard;
      } else if size > 0 {
        outcome := HeardData(size);
      }
  }

  method PunchUdp(start: nat, listen: bool, wakes: seq<Wake>) returns (outcome: Outcome, sent: seq<nat>)
    ensures Punch(outcome, sent) == Punched(start, listen, wakes)
  {
    var retryInterval := FIRST_INTERVAL;
    sent := [start];
    for i := 0 to |wakes|
      invariant Punched(start, listen, wakes[..i]) == Punch(Waiting, sent)
      invariant |sent| > 0 && retryInterval == Interval(|sent| - 1)
    {
      PunchedNext(start, listen, wakes, i);
      outcome, sent, retryInterval := OnWake(listen, wakes[i], sent, retryInterval);
      if !outcome.Waiting? {
        PunchedIsFinal(start, listen, wakes, i + 1);
        return;
      }
    }
    assert wakes[..|wakes|] == wakes;
    return Waiting, sent;
  }
}
