/** Whole frames with any number of channels: at which rates the statistics may drop part of a frame. */
module AudioFrames {
  import opened Common
  import opened AudioBuffer
  import opened AudioRuns

  /** An empty buffer resized to the given number of samples a second. */
  function At(rate: nat): World<real>
    requires rate > 0
  {
    Step(Begin(), Resize(rate))
  }

  // Runs as they happen

  /** The occupancy the last packet left, while it is still to be recorded. */
  function Due(w: World<real>, es: seq<Event<real>>): Option<nat>
    requires Valid(w.s) && AllPossible(es)
  {
    if |es| == 0 || es[|es| - 1].Shrink? then None
    else if es[|es| - 1].Append? then Some(|Run(w, es).s.held|)
    else Due(w, es[..|es| - 1])
  }

  /** What can come next: a packet of at most `most` samples once the one before is recorded, the record
      of the occupancy a packet left, playback, and other buffers; everything by frames of `c` samples. */
  predicate Next(e: Event<real>, due: Option<nat>, c: nat, most: nat)
    requires c > 0
  {
    match e
    case Append(pcm) => due == None && 0 < |pcm| <= most && |pcm| % c == 0
    case Shrink(having, _) => due == Some(having)
    case Pop(n) => n % c == 0
    case Elsewhere(_) => true
    case Resize(_) => false
  }

  predicate Live(w: World<real>, es: seq<Event<real>>, c: nat, most: nat)
    requires Valid(w.s) && c > 0
  {
    |es| > 0 ==>
      && Live(w, es[..|es| - 1], c, most)
      && AllPossible(es[..|es| - 1])
      && Next(es[|es| - 1], Due(w, es[..|es| - 1]), c, most)
  }

  /** No run at this rate, fed by packets of at most `most` samples, ends inside a frame. */
  ghost predicate KeepsFrames(rate: nat, c: nat, most: nat)
    requires rate > 0 && c > 0
  {
    forall es: seq<Event<real>> :: AllPossible(es) && Live(At(rate), es, c, most) ==>
      |Run(At(rate), es).s.held| % c == 0
  }

  /** An occupancy that can be recorded: whole frames that fit. */
  predicate Fits(having: nat, rate: nat, c: nat)
    requires c > 0
  {
    having % c == 0 && having <= 3 * rate
  }

  /** Every drop that two such occupancies can lead to is a whole number of frames. */
  ghost predicate DropsFrames(rate: nat, c: nat)
    requires rate > 0 && c > 0
  {
    forall low: nat, peak: nat ::
      Fits(low, rate, c) && Fits(peak, rate, c) && Bucket(low, rate) <= Bucket(peak, rate) ==>
        Droppable(3 * rate, Bucket(low, rate), Bucket(peak, rate)) % c == 0
  }

  lemma ModSum(a: nat, b: nat, c: nat)
    requires c > 0 && b % c == 0
    ensures (a + b) % c == a % c
    ensures b <= a ==> (a - b) % c == a % c
  {
    var k := b / c;
    assert b == c * k;
    ModShift(a, k, c);
    if b <= a {
      ModShift(a - b, k, c);
    }
  }

  lemma ModShift(a: nat, k: nat, c: nat)
    requires c > 0
    ensures (a + c * k) % c == a % c
  {
    var q := a / c;
    assert a + c * k == c * (q + k) + a % c;
    ModUnique(a + c * k, q + k, a % c, c);
  }

  lemma ModUnique(x: nat, q: nat, r: nat, c: nat)
    requires c > 0 && r < c && x == c * q + r
    ensures x % c == r && x / c == q
  {
    var d := x / c - q;
    assert c * d + x % c == r;
    Scaled(c, d);
  }

  lemma Scaled(c: nat, d: int)
    ensures d > 0 ==> c * d >= c
    ensures d < 0 ==> c * d + c <= 0
  {
  }

  // If every drop is whole, so is the buffer

  ghost predicate Steady(w: World<real>, due: Option<nat>, rate: nat, c: nat)
    requires c > 0
  {
    && Valid(w.s) && w.s.rate == rate && Counted(w) && |w.s.held| % c == 0
    && (due.Some? ==> Fits(due.value, rate, c))
    && forall i :: 0 <= i < |w.window| ==> w.window[i].rate == rate && Fits(w.window[i].having, rate, c)
  }

  lemma {:induction false} Witnessed(window: seq<Reading>, b: nat) returns (k: nat)
    requires forall i :: 0 <= i < |window| ==> window[i].rate > 0
    requires b < BUCKETS && Tally(window)[b] > 0
    ensures k < |window| && Bucket(window[k].having, window[k].rate) == b
  {
    var n := |window| - 1;
    if Bucket(window[n].having, window[n].rate) == b {
      k := n;
    } else {
      k := Witnessed(window[..n], b);
    }
  }

  /** Both marks are buckets some reading fell into, and the lowest is not above the fullest. */
  lemma MarksRead(window: seq<Reading>, h: seq<nat>) returns (i: nat, j: nat)
    requires |window| > 0 && forall i :: 0 <= i < |window| ==> window[i].rate > 0
    requires h == Tally(window) && PeakUpTo(h, BUCKETS) > 0
    ensures i < |window| && Bucket(window[i].having, window[i].rate) == Lowest(h)
    ensures j < |window| && Bucket(window[j].having, window[j].rate) == PeakUpTo(h, BUCKETS)
    ensures Lowest(h) <= PeakUpTo(h, BUCKETS)
  {
    var max := PeakUpTo(h, BUCKETS);
    assert h[..BUCKETS] == h;
    assert h[max] > 0;
    i := Witnessed(window, Lowest(h));
    j := Witnessed(window, max);
  }

  /** The two occupancies an evaluation goes by. */
  lemma ReadingsOf(w: World<real>, due: Option<nat>, rate: nat, c: nat, having: nat) returns (low: nat, peak: nat)
    requires rate > 0 && c > 0 && Steady(w, due, rate, c) && due == Some(having)
    requires PeakUpTo(Recorded(w.s, having).hist, BUCKETS) > 0
    ensures Fits(low, rate, c) && Fits(peak, rate, c)
    ensures var h := Recorded(w.s, having).hist;
            Bucket(low, rate) == Lowest(h) <= PeakUpTo(h, BUCKETS) == Bucket(peak, rate)
  {
    var window := w.window + [Reading(having, rate)];
    RecordedTally(w, having);
    var i, j := MarksRead(window, Recorded(w.s, having).hist);
    low, peak := window[i].having, window[j].having;
  }

  lemma WholeByReadings(rate: nat, c: nat, low: nat, peak: nat, zero: nat, max: nat)
    requires rate > 0 && c > 0 && DropsFrames(rate, c) && Fits(low, rate, c) && Fits(peak, rate, c)
    requires Bucket(low, rate) == zero <= max == Bucket(peak, rate)
    ensures Droppable(3 * rate, zero, max) % c == 0
  {
  }

  lemma DropOrNot(s: State<real>, d: nat)
    requires |s.hist| == BUCKETS && d == Droppable(s.cap, Lowest(s.hist), PeakUpTo(s.hist, BUCKETS))
    ensures Dropped(s) in {0, d}
    ensures PeakUpTo(s.hist, BUCKETS) == 0 ==> d == 0
  {
  }

  lemma WholeDrop(w: World<real>, due: Option<nat>, rate: nat, c: nat, having: nat)
    requires rate > 0 && c > 0 && Steady(w, due, rate, c) && due == Some(having) && DropsFrames(rate, c)
    ensures Dropped(Recorded(w.s, having)) % c == 0
  {
    var r := Recorded(w.s, having);
    DropOrNot(r, Droppable(r.cap, Lowest(r.hist), PeakUpTo(r.hist, BUCKETS)));
    if PeakUpTo(r.hist, BUCKETS) > 0 {
      var low, peak := ReadingsOf(w, due, rate, c, having);
      WholeByReadings(rate, c, low, peak, Lowest(r.hist), PeakUpTo(r.hist, BUCKETS));
    }
  }

  lemma AppendWhole(s: State<real>, pcm: seq<real>, c: nat)
    requires Valid(s) && c > 0 && s.rate % c == 0 && |s.held| % c == 0 && |pcm| % c == 0
    ensures |Appended(s, pcm).held| % c == 0
  {
    ModSum(|s.held|, |pcm|, c);
    ModSum(s.rate, s.rate, c);
    ModSum(s.rate + s.rate, s.rate, c);
  }

  lemma PopWhole(s: State<real>, n: nat, c: nat)
    requires c > 0 && |s.held| % c == 0 && n % c == 0
    ensures |Popped(s, n).held| % c == 0
  {
    ModSum(|s.held|, n, c);
  }

  lemma ShrinkWhole(w: World<real>, having: nat, now: int, c: nat)
    requires Valid(w.s) && c > 0 && |w.s.held| % c == 0 && Dropped(Recorded(w.s, having)) % c == 0
    ensures |Step(w, Shrink(having, now)).s.held| % c == 0
  {
    ShrinkLength(w, having, now);
    ModSum(|w.s.held|, Dropped(Recorded(w.s, having)), c);
  }

  lemma StepSteady(w: World<real>, due: Option<nat>, e: Event<real>, due': Option<nat>, rate: nat, c: nat)
    requires rate > 0 && c > 0 && Steady(w, due, rate, c) && !e.Resize?
    requires e.Shrink? ==> due == Some(e.having)
    requires due' == if e.Shrink? then None else if e.Append? then Some(|Step(w, e).s.held|) else due
    requires |Step(w, e).s.held| % c == 0
    ensures Steady(Step(w, e), due', rate, c)
  {
    StepCounts(w, e);
  }

  lemma StepWhole(w: World<real>, e: Event<real>, c: nat)
    requires Valid(w.s) && c > 0 && w.s.rate % c == 0 && |w.s.held| % c == 0
    requires !e.Resize? && Framed([e], c)
    requires e.Shrink? ==> Dropped(Recorded(w.s, e.having)) % c == 0
    ensures |Step(w, e).s.held| % c == 0
  {
    assert [e][0] == e;
    match e
    case Append(pcm) => AppendWhole(w.s, pcm, c);
    case Pop(n) => PopWhole(w.s, n, c);
    case Shrink(having, now) => ShrinkWhole(w, having, now, c);
    case Elsewhere(_) =>
  }

  lemma {:induction false} RunWhole(es: seq<Event<real>>, rate: nat, c: nat, most: nat)
    requires rate > 0 && c > 0 && rate % c == 0 && DropsFrames(rate, c)
    requires AllPossible(es) && Live(At(rate), es, c, most)
    ensures Steady(Run(At(rate), es), Due(At(rate), es), rate, c)
  {
    var w0 := At(rate);
    if |es| > 0 {
      var n := |es| - 1;
      var w, due, e := Run(w0, es[..n]), Due(w0, es[..n]), es[n];
      RunWhole(es[..n], rate, c, most);
      assert Next(e, due, c, most);
      if e.Shrink? {
        WholeDrop(w, due, rate, c, e.having);
      }
      StepWhole(w, e, c);
      StepSteady(w, due, e, Due(w0, es), rate, c);
    }
  }

  // If some drop is not whole, packets of one frame bring it about

  lemma ShortDrop(rate: nat, zero: nat, max: nat, c: nat)
    requires rate > 0 && c > 0 && rate % c == 0 && max < BUCKETS
    requires Droppable(3 * rate, zero, max) % c != 0
    ensures 0 < Droppable(3 * rate, zero, max) < rate
  {
    var safe := zero * 2 / 3;
    var m := if max > safe * N then safe * N else max;
    SmallRate(rate, m);
    if rate > 2 {
      SkipBelow(rate, m, 3 * rate * m);
    }
  }

  lemma SkipBelow(rate: nat, m: nat, x: nat)
    requires rate > 2 && m < BUCKETS && x == 3 * rate * m
    ensures RoundDownToEven(x / 120 + 1) < rate
  {
    ScaledBound(3 * rate, m, 29);
  }

  lemma SmallRate(rate: nat, m: nat)
    requires rate > 0 && m < BUCKETS
    ensures rate <= 2 ==> RoundDownToEven(3 * rate * m / 120 + 1) in {0, rate}
  {
  }

  lemma NotWhole(a: nat, d: nat, c: nat)
    requires c > 0 && d <= a && a % c == 0 && d % c != 0
    ensures (a - d) % c != 0
  {
    if (a - d) % c == 0 {
      ModSum(d, a - d, c);
    }
  }

  /** Some run as they happen leads here. */
  ghost predicate Reached(rate: nat, c: nat, most: nat, w: World<real>, due: Option<nat>)
    requires rate > 0 && c > 0
  {
    exists es :: Leads(rate, c, most, es, w, due)
  }

  ghost predicate Leads(rate: nat, c: nat, most: nat, es: seq<Event<real>>, w: World<real>, due: Option<nat>)
    requires rate > 0 && c > 0
  {
    && AllPossible(es) && Live(At(rate), es, c, most)
    && Run(At(rate), es) == w && Due(At(rate), es) == due
  }

  lemma Start(rate: nat, c: nat, most: nat)
    requires rate > 0 && c > 0
    ensures Reached(rate, c, most, At(rate), None)
  {
    assert Leads(rate, c, most, [], At(rate), None);
  }

  lemma Go(rate: nat, c: nat, most: nat, w: World<real>, due: Option<nat>, e: Event<real>)
    requires rate > 0 && c > 0 && Valid(w.s) && Reached(rate, c, most, w, due) && Next(e, due, c, most)
    ensures Reached(rate, c, most, Step(w, e),
                    if e.Shrink? then None else if e.Append? then Some(|Step(w, e).s.held|) else due)
  {
    var es :| Leads(rate, c, most, es, w, due);
    var es' := es + [e];
    assert es'[..|es|] == es;
    assert Leads(rate, c, most, es', Step(w, e),
                 if e.Shrink? then None else if e.Append? then Some(|Step(w, e).s.held|) else due);
  }

  /** What matters of a buffer between two packets. */
  ghost predicate Holding(rate: nat, c: nat, most: nat, w: World<real>, len: nat, tms: int, h: seq<nat>)
    requires rate > 0 && c > 0
  {
    && Valid(w.s) && w.s.rate == rate && Reached(rate, c, most, w, None)
    && |w.s.held| == len && w.tms == tms && w.s.hist == h
  }

  function Frame(c: nat): seq<real> {
    seq(c, _ => 0.0)
  }

  lemma Play(rate: nat, c: nat, most: nat, w: World<real>, len: nat, tms: int, h: seq<nat>, n: nat)
    returns (w': World<real>)
    requires rate > 0 && c > 0 && Holding(rate, c, most, w, len, tms, h) && n <= len && n % c == 0
    ensures Holding(rate, c, most, w', len - n, tms, h)
  {
    Go(rate, c, most, w, None, Pop(n));
    w' := Step(w, Pop(n));
  }

  /** One frame comes in. */
  lemma Arrive(rate: nat, c: nat, most: nat, w: World<real>, len: nat, tms: int, h: seq<nat>)
    returns (w': World<real>)
    requires rate > 0 && 0 < c <= most && Holding(rate, c, most, w, len, tms, h) && len + c <= 3 * rate
    ensures Valid(w'.s) && w'.s.rate == rate && Reached(rate, c, most, w', Some(len + c))
    ensures |w'.s.held| == len + c && w'.tms == tms && w'.s.hist == h
  {
    var e := Append(Frame(c));
    FrameWhole(c);
    Go(rate, c, most, w, None, e);
    w' := Step(w, e);
  }

  lemma RecordedHist(s: State<real>, having: nat, h': seq<nat>)
    requires Valid(s) && (var b := Bucket(having, s.rate); h' == s.hist[b := s.hist[b] + 1])
    ensures Recorded(s, having) == s.(hist := h')
  {
  }

  /** One frame comes in and its occupancy is recorded. */
  lemma Packet(rate: nat, c: nat, most: nat, w: World<real>, len: nat, tms: int, h: seq<nat>, now: int, h': seq<nat>)
    returns (w': World<real>)
    requires rate > 0 && 0 < c <= most && Holding(rate, c, most, w, len, tms, h) && len + c <= 3 * rate
    requires |h| == BUCKETS && (var b := Bucket(len + c, rate); h' == h[b := h[b] + 1])
    requires tms == 0 || tms == now
    ensures Holding(rate, c, most, w', len + c, now, h')
  {
    var w1 := Arrive(rate, c, most, w, len, tms, h);
    var e: Event<real> := Shrink(len + c, now);
    Go(rate, c, most, w1, Some(len + c), e);
    RecordedHist(w1.s, len + c, h');
    w' := Step(w1, e);
  }

  /** One frame comes in and the window ends. */
  lemma LastPacket(rate: nat, c: nat, most: nat, w: World<real>, len: nat, tms: int, h: seq<nat>, h': seq<nat>)
    returns (w': World<real>)
    requires rate > 0 && 0 < c <= most && Holding(rate, c, most, w, len, tms, h) && len + c <= 3 * rate
    requires |h| == BUCKETS && (var b := Bucket(len + c, rate); h' == h[b := h[b] + 1])
    requires tms != 0
    ensures Holding(rate, c, most, w', len + c - Marked(rate, len + c, h'), tms + WINDOW_MS, Zeros())
  {
    var w1 := Arrive(rate, c, most, w, len, tms, h);
    var e: Event<real> := Shrink(len + c, tms + WINDOW_MS);
    Go(rate, c, most, w1, Some(len + c), e);
    RecordedHist(w1.s, len + c, h');
    ShrinkLength(w1, len + c, tms + WINDOW_MS);
    MarkedIsDropped(w1.s.(hist := h'), rate);
    w' := Step(w1, e);
  }

  lemma MarkedIsDropped(s: State<real>, rate: nat)
    requires Valid(s) && s.rate == rate
    ensures Dropped(s) == Marked(rate, |s.held|, s.hist)
  {
  }

  lemma FrameWhole(c: nat)
    requires c > 0
    ensures |Frame(c)| == c && c % c == 0
  {
  }

  /** How much an evaluation of `h` takes from `len` samples. */
  function Marked(rate: nat, len: nat, h: seq<nat>): (d: nat)
    requires |h| == BUCKETS
    ensures d <= len
  {
    var d := Droppable(3 * rate, Lowest(h), PeakUpTo(h, BUCKETS));
    if len > d * 3 && d > 0 then d else 0
  }

  // The histogram while the buffer fills up

  /** Nothing recorded below `z`, something in it, at least `n` in `p`, at most `k` in any other. */
  predicate Bound(h: seq<nat>, z: nat, p: nat, k: nat, n: nat) {
    && |h| == BUCKETS && z <= p < BUCKETS && h[z] > 0 && h[p] >= n
    && (forall i :: 0 <= i < z ==> h[i] == 0)
    && (forall i :: 0 <= i < BUCKETS && i != p ==> h[i] <= k)
  }

  lemma OneMore(h: seq<nat>, z: nat, p: nat, k: nat, n: nat, b: nat)
    requires Bound(h, z, p, k, n) && z <= b < BUCKETS
    ensures Bound(h[b := h[b] + 1], z, p, k + 1, n)
    ensures b == p ==> Bound(h[b := h[b] + 1], z, p, k, n + 1)
  {
  }

  lemma MarksOf(h: seq<nat>, z: nat, p: nat, k: nat, n: nat)
    requires Bound(h, z, p, k, n) && n > k
    ensures Lowest(h) == z && (p > 0 ==> PeakUpTo(h, BUCKETS) == p)
  {
    LowestUnique(h, z, Lowest(h));
    if p > 0 {
      assert IsPeak(h, p);
      MarksUnique(h, z, p);
    }
  }

  lemma BucketMonotone(a: nat, b: nat, rate: nat)
    requires rate > 0 && a <= b
    ensures Bucket(a, rate) <= Bucket(b, rate)
  {
    QuotientMonotone(a * 10, b * 10, rate);
  }

  lemma QuotientMonotone(x: nat, y: nat, rate: nat)
    requires rate > 0 && x <= y
    ensures x / rate <= y / rate
  {
    var d := x / rate - y / rate;
    assert rate * d + x % rate == x - y + y % rate;
    Scaled(rate, d);
  }

  lemma RoomForOne(x: nat, y: nat, c: nat)
    requires c > 0 && x < y && x % c == 0 && y % c == 0
    ensures x + c <= y && (x + c) % c == 0
  {
    ModSum(y, x, c);
    FrameWhole(c);
    ModSum(x, c, c);
    if y - x < c {
      ModUnique(y - x, 0, y - x, c);
    }
  }

  /** Frame by frame up to `y`. */
  lemma {:induction false} Climb(rate: nat, c: nat, most: nat, w: World<real>, len: nat, tms: int, h: seq<nat>,
                                 y: nat, z: nat, p: nat, k: nat, n: nat) returns (w': World<real>, h': seq<nat>)
    requires rate > 0 && 0 < c <= most && Holding(rate, c, most, w, len, tms, h) && tms != 0
    requires len <= y <= 3 * rate && len % c == 0 && y % c == 0
    requires Bound(h, z, p, k, n) && z <= Bucket(len, rate)
    ensures Holding(rate, c, most, w', y, tms, h') && Bound(h', z, p, k + (y - len), n)
    decreases y - len
  {
    if len == y {
      w', h' := w, h;
    } else {
      RoomForOne(len, y, c);
      var b := Bucket(len + c, rate);
      BucketMonotone(len, len + c, rate);
      var w1 := Packet(rate, c, most, w, len, tms, h, tms, h[b := h[b] + 1]);
      OneMore(h, z, p, k, n, b);
      w', h' := Climb(rate, c, most, w1, len + c, tms, h[b := h[b] + 1], y, z, p, k + 1, n);
      Looser(h', z, p, k + 1 + (y - (len + c)), k + (y - len), n);
    }
  }

  lemma Looser(h: seq<nat>, z: nat, p: nat, k: nat, k': nat, n: nat)
    requires Bound(h, z, p, k, n) && k <= k'
    ensures Bound(h, z, p, k', n)
  {
  }

  /** One frame out, one frame in, `m` times. */
  lemma {:induction false} Stay(rate: nat, c: nat, most: nat, w: World<real>, len: nat, tms: int, h: seq<nat>,
                                z: nat, p: nat, k: nat, n: nat, m: nat) returns (w': World<real>, h': seq<nat>)
    requires rate > 0 && 0 < c <= most && Holding(rate, c, most, w, len, tms, h) && tms != 0
    requires c <= len <= 3 * rate && p == Bucket(len, rate) && Bound(h, z, p, k, n)
    ensures Holding(rate, c, most, w', len, tms, h') && Bound(h', z, p, k, n + m)
    decreases m
  {
    if m == 0 {
      w', h' := w, h;
    } else {
      FrameWhole(c);
      var w1 := Play(rate, c, most, w, len, tms, h, c);
      var w2 := Packet(rate, c, most, w1, len - c, tms, h, tms, h[p := h[p] + 1]);
      OneMore(h, z, p, k, n, p);
      w', h' := Stay(rate, c, most, w2, len, tms, h[p := h[p] + 1], z, p, k, n + 1, m - 1);
    }
  }

  /** Down to just below `low`, and the first record of the window. */
  lemma FirstRecord(rate: nat, c: nat, most: nat, w: World<real>, len: nat, tms: int, low: nat, now: int)
    returns (w': World<real>, h: seq<nat>)
    requires rate > 0 && 0 < c <= most && Holding(rate, c, most, w, len, tms, Zeros())
    requires tms in {0, now} && now > 0 && len % c == 0
    requires Fits(low, rate, c) && c <= low <= len + c
    ensures Holding(rate, c, most, w', low, now, h)
    ensures var z := Bucket(low, rate); h == Zeros()[z := 1]
  {
    FrameWhole(c);
    ModSum(low, c, c);
    var out := len - (low - c);
    ModSum(len, low - c, c);
    var w1 := Play(rate, c, most, w, len, tms, Zeros(), out);
    var z := Bucket(low, rate);
    h := Zeros()[z := 1];
    w' := Packet(rate, c, most, w1, low - c, tms, Zeros(), now, h);
  }

  lemma FirstBound(z: nat, p: nat)
    requires z <= p < BUCKETS
    ensures Bound(Zeros()[z := 1], z, p, 1, 0)
  {
  }

  /** The whole window but its end: `low`, up to `peak`, a long time there, up to the brim. */
  lemma Fill(rate: nat, c: nat, most: nat, w: World<real>, len: nat, tms: int, low: nat, peak: nat, now: int)
    returns (w': World<real>, h: seq<nat>)
    requires rate > 0 && 0 < c <= most && rate % c == 0 && Holding(rate, c, most, w, len, tms, Zeros())
    requires tms in {0, now} && now > 0 && len % c == 0
    requires Fits(low, rate, c) && Fits(peak, rate, c) && c <= low <= len + c && low <= peak
    ensures Holding(rate, c, most, w', 3 * rate, now, h)
    ensures Bound(h, Bucket(low, rate), Bucket(peak, rate), 1 + 3 * rate, 3 * rate + 3)
  {
    var z, p := Bucket(low, rate), Bucket(peak, rate);
    BucketMonotone(low, peak, rate);
    ThreeRates(rate, c);
    var w1, h1 := FirstRecord(rate, c, most, w, len, tms, low, now);
    FirstBound(z, p);
    var w2, h2 := Climb(rate, c, most, w1, low, now, h1, peak, z, p, 1, 0);
    var k := 1 + (peak - low);
    var w3, h3 := Stay(rate, c, most, w2, peak, now, h2, z, p, k, 0, 3 * rate + 3);
    w', h := Climb(rate, c, most, w3, peak, now, h3, 3 * rate, z, p, k, 3 * rate + 3);
    Looser(h, z, p, k + (3 * rate - peak), 1 + 3 * rate, 3 * rate + 3);
  }

  lemma ThreeRates(rate: nat, c: nat)
    requires c > 0 && rate % c == 0
    ensures 3 * rate % c == 0
  {
    ModSum(rate, rate, c);
    ModSum(rate + rate, rate, c);
  }

  /** What an evaluation takes from a full buffer, by its marks. */
  function Taken(rate: nat, z: nat, p: nat): nat {
    var d := Droppable(3 * rate, z, p);
    if 3 * rate > d * 3 then d else 0
  }

  lemma TakenOf(rate: nat, z: nat, p: nat, zero: nat, max: nat)
    requires z == zero && z <= p && (p > 0 ==> max == p)
    ensures Taken(rate, z, p) == Taken(rate, zero, max)
  {
    if p == 0 {
      NothingBelow(3 * rate, p);
      NothingBelow(3 * rate, max);
    }
  }

  /** The window ends: one frame out, one in, and the evaluation. */
  lemma Close(rate: nat, c: nat, most: nat, w: World<real>, now: int, h: seq<nat>, h': seq<nat>)
    returns (w': World<real>)
    requires rate > 0 && 0 < c <= most && c <= rate && Holding(rate, c, most, w, 3 * rate, now, h) && now > 0
    requires |h| == BUCKETS && (var b := Bucket(3 * rate, rate); h' == h[b := h[b] + 1])
    ensures Holding(rate, c, most, w', 3 * rate - Marked(rate, 3 * rate, h'), now + WINDOW_MS, Zeros())
  {
    FrameWhole(c);
    var w1 := Play(rate, c, most, w, 3 * rate, now, h, c);
    w' := LastPacket(rate, c, most, w1, 3 * rate - c, now, h, h');
  }

  lemma MarkedTaken(rate: nat, h: seq<nat>, z: nat, p: nat, k: nat, n: nat)
    requires Bound(h, z, p, k, n) && n > k
    ensures Marked(rate, 3 * rate, h) == Taken(rate, z, p)
  {
    MarksOf(h, z, p, k, n);
    TakenOf(rate, z, p, Lowest(h), PeakUpTo(h, BUCKETS));
  }

  /** A whole window, from an occupancy near `low` to its evaluation by the buckets of `low` and `peak`. */
  lemma Sweep(rate: nat, c: nat, most: nat, w: World<real>, len: nat, tms: int, low: nat, peak: nat, now: int)
    returns (w': World<real>)
    requires rate > 0 && 0 < c <= most && rate % c == 0 && Holding(rate, c, most, w, len, tms, Zeros())
    requires tms in {0, now} && now > 0 && len % c == 0
    requires Fits(low, rate, c) && Fits(peak, rate, c) && c <= low <= len + c && low <= peak
    ensures var taken := Taken(rate, Bucket(low, rate), Bucket(peak, rate));
            taken <= 3 * rate && Holding(rate, c, most, w', 3 * rate - taken, now + WINDOW_MS, Zeros())
  {
    var z, p, b := Bucket(low, rate), Bucket(peak, rate), Bucket(3 * rate, rate);
    var w1, h := Fill(rate, c, most, w, len, tms, low, peak, now);
    BucketMonotone(low, 3 * rate, rate);
    var h' := h[b := h[b] + 1];
    OneMore(h, z, p, 1 + 3 * rate, 3 * rate + 3, b);
    MarkedTaken(rate, h', z, p, 1 + 3 * rate + 1, 3 * rate + 3);
    FrameFits(rate, c);
    w' := Close(rate, c, most, w1, now, h, h');
  }

  lemma FrameFits(rate: nat, c: nat)
    requires rate > 0 && c > 0 && rate % c == 0
    ensures c <= rate
  {
    if rate < c {
      ModUnique(rate, 0, rate, c);
    }
  }

  /** A first window spent at one frame takes nothing, if that is less than 600 ms. */
  lemma CalmWindow(rate: nat, c: nat)
    requires c > 0 && rate >= 2 * c
    ensures Taken(rate, Bucket(c, rate), Bucket(c, rate)) == 0
  {
    QuotientMonotone(c * 10, rate * 5, rate);
    ModUnique(rate * 5, 5, 0, rate);
  }

  lemma Torn(rate: nat, c: nat, most: nat, w: World<real>, len: nat, tms: int, low: nat, peak: nat, now: int)
    requires rate > 0 && 0 < c <= most && rate % c == 0 && Holding(rate, c, most, w, len, tms, Zeros())
    requires tms in {0, now} && now > 0 && len % c == 0
    requires Fits(low, rate, c) && Fits(peak, rate, c) && c <= low <= len + c && low <= peak
    requires Droppable(3 * rate, Bucket(low, rate), Bucket(peak, rate)) % c != 0
    ensures !KeepsFrames(rate, c, most)
  {
    var d := Droppable(3 * rate, Bucket(low, rate), Bucket(peak, rate));
    ShortDrop(rate, Bucket(low, rate), Bucket(peak, rate), c);
    var w' := Sweep(rate, c, most, w, len, tms, low, peak, now);
    ThreeRates(rate, c);
    NotWhole(3 * rate, d, c);
    var es :| Leads(rate, c, most, es, w', None);
    assert |Run(At(rate), es).s.held| % c != 0;
  }

  /** At one frame a second three channels or more are torn by the first window. */
  lemma SlowRate(c: nat)
    requires c >= 3
    ensures Bucket(c, c) == 10 && Bucket(3 * c, c) == 29 && Droppable(3 * c, 10, 29) % c != 0
  {
    ModUnique(c * 10, 10, 0, c);
    ModUnique(3 * c * 10, 30, 0, c);
    var d := Droppable(3 * c, 10, 29);
    SlowDrop(c, d);
    ModUnique(d, 0, d, c);
  }

  lemma SlowDrop(c: nat, d: nat)
    requires c >= 3 && d == Droppable(3 * c, 10, 29)
    ensures 0 < d < c
  {
    SlowSkip(c, 3 * c * 24);
  }

  lemma SlowSkip(c: nat, x: nat)
    requires c >= 3 && x == 72 * c
    ensures 0 < RoundDownToEven(x / 120 + 1) < c
  {
  }

  lemma EvenDrop(rate: nat, zero: nat, max: nat, c: nat)
    requires 0 < c <= 2
    ensures Droppable(3 * rate, zero, max) % c == 0
  {
  }

  lemma SomeTear(rate: nat, c: nat, most: nat, low: nat, peak: nat)
    requires rate > 0 && 0 < c <= most && rate % c == 0 && Fits(low, rate, c) && Fits(peak, rate, c)
    requires Bucket(low, rate) <= Bucket(peak, rate)
    requires Droppable(3 * rate, Bucket(low, rate), Bucket(peak, rate)) % c != 0
    ensures !KeepsFrames(rate, c, most)
  {
    var w0 := At(rate);
    Start(rate, c, most);
    assert Holding(rate, c, most, w0, 0, 0, Zeros());
    FrameWhole(c);
    if c <= 2 {
      EvenDrop(rate, Bucket(low, rate), Bucket(peak, rate), c);
    } else if rate < 2 * c {
      OneRate(rate, c);
      SlowRate(c);
      ThreeRates(rate, c);
      Torn(rate, c, most, w0, 0, 0, c, 3 * c, 1);
    } else {
      CalmWindow(rate, c);
      var w1 := Sweep(rate, c, most, w0, 0, 0, c, c, 1);
      var high := if low <= peak then peak else low;
      SameBucket(rate, low, peak, high);
      NotEmpty(rate, c, low, peak);
      ThreeRates(rate, c);
      Torn(rate, c, most, w1, 3 * rate, 1 + WINDOW_MS, low, high, 1 + WINDOW_MS);
    }
  }

  lemma OneRate(rate: nat, c: nat)
    requires rate > 0 && c > 0 && rate % c == 0 && rate < 2 * c
    ensures rate == c
  {
    if rate < c {
      ModUnique(rate, 0, rate, c);
    } else {
      ModUnique(rate, 1, rate - c, c);
    }
  }

  lemma SameBucket(rate: nat, low: nat, peak: nat, high: nat)
    requires rate > 0 && Bucket(low, rate) <= Bucket(peak, rate) && high == if low <= peak then peak else low
    ensures Bucket(high, rate) == Bucket(peak, rate)
  {
    if peak < low {
      BucketMonotone(peak, low, rate);
    }
  }

  lemma NotEmpty(rate: nat, c: nat, low: nat, peak: nat)
    requires rate > 0 && c > 0 && low % c == 0
    requires Droppable(3 * rate, Bucket(low, rate), Bucket(peak, rate)) % c != 0
    ensures low >= c
  {
    NothingBelow(3 * rate, Bucket(peak, rate));
    if low == 0 {
      FirstBucket(0, rate);
    } else if low < c {
      ModUnique(low, 0, low, c);
    }
  }

  /** Exactly when the buffer holds whole frames throughout, however small the packets: every drop that
      two recordable occupancies can lead to must be a multiple of the number of channels. */
  lemma FramesKeptExactly(rate: nat, c: nat, most: nat)
    requires rate > 0 && 0 < c <= most && rate % c == 0
    ensures KeepsFrames(rate, c, most) <==> DropsFrames(rate, c)
  {
    if DropsFrames(rate, c) {
      FramesKept(rate, c, most);
    } else {
      var low: nat, peak: nat :|
        && Fits(low, rate, c) && Fits(peak, rate, c) && Bucket(low, rate) <= Bucket(peak, rate)
        && Droppable(3 * rate, Bucket(low, rate), Bucket(peak, rate)) % c != 0;
      SomeTear(rate, c, most, low, peak);
    }
  }

  lemma FramesKept(rate: nat, c: nat, most: nat)
    requires rate > 0 && c > 0 && rate % c == 0 && DropsFrames(rate, c)
    ensures KeepsFrames(rate, c, most)
  {
    forall es: seq<Event<real>> | AllPossible(es) && Live(At(rate), es, c, most)
      ensures |Run(At(rate), es).s.held| % c == 0
    {
      RunWhole(es, rate, c, most);
    }
  }

  // The same by the marks alone

  function Skip(rate: nat, m: nat): nat {
    RoundDownToEven(3 * rate * m / 120 + 1)
  }

  predicate IsMark(m: nat) {
    m == 4 || 6 <= m < BUCKETS
  }

  lemma DropMark(rate: nat, zero: nat, max: nat)
    requires max < BUCKETS
    ensures var safe := zero * 2 / 3;
            var m := if max > safe * N then safe * N else max;
            Droppable(3 * rate, zero, max) == 0 || (IsMark(m) && Droppable(3 * rate, zero, max) == Skip(rate, m))
  {
  }

  /** At ten frames a second or more every bucket has an occupancy of its own. */
  lemma InBucket(rate: nat, c: nat, b: nat) returns (having: nat)
    requires c > 0 && rate % c == 0 && rate >= 10 * c && b < BUCKETS
    ensures Fits(having, rate, c) && Bucket(having, rate) == b
  {
    var f := rate / c;
    TenFrames(rate, c, f);
    var k := Ceiling(f * b);
    having := c * k;
    ModUnique(having, k, 0, c);
    FramesInBucket(rate, c, f, b, k);
  }

  /** The least whole number of tenths at or above `x`. */
  function Ceiling(x: nat): (k: nat)
    ensures 0 <= k * 10 - x < 10
  {
    (x + 9) / 10
  }

  lemma FramesInBucket(rate: nat, c: nat, f: nat, b: nat, k: nat)
    requires c > 0 && rate == c * f && f >= 10 && b < BUCKETS && 0 <= k * 10 - f * b < 10
    ensures c * k <= 3 * rate && Bucket(c * k, rate) == b
  {
    var r := k * 10 - f * b;
    Distribute(c, f, b, k, r);
    ScaledBound(c, r + 1, f);
    assert c * (r + 1) == c * r + c;
    ModUnique(c * k * 10, b, c * r, rate);
    ScaledBound(rate, b + 1, 30);
    assert rate * (b + 1) == rate * b + rate;
  }

  lemma Distribute(c: nat, f: nat, b: nat, k: nat, r: nat)
    requires k * 10 == f * b + r
    ensures c * k * 10 == c * f * b + c * r
  {
    assert c * k * 10 == c * (k * 10);
    assert c * (f * b + r) == c * (f * b) + c * r;
    assert c * (f * b) == c * f * b;
  }

  lemma TenFrames(rate: nat, c: nat, f: nat)
    requires c > 0 && rate % c == 0 && f == rate / c && rate >= 10 * c
    ensures rate == c * f && f >= 10
  {
    assert rate == c * f;
    Scaled(c, 10 - f);
    assert c * (10 - f) == 10 * c - rate;
  }

  lemma MarkDrop(rate: nat, m: nat)
    requires IsMark(m)
    ensures Droppable(3 * rate, if m == 4 then 2 else m, if m == 4 then 6 else m) == Skip(rate, m)
  {
    assert m >= 6 ==> m <= m * 2 / 3 * N;
  }

  lemma MarkRead(rate: nat, c: nat, m: nat)
    requires c > 0 && rate % c == 0 && rate >= 10 * c && IsMark(m) && DropsFrames(rate, c)
    ensures Skip(rate, m) % c == 0
  {
    var zero, max := if m == 4 then 2 else m, if m == 4 then 6 else m;
    var low := InBucket(rate, c, zero);
    var peak := InBucket(rate, c, max);
    MarkDrop(rate, m);
    WholeByReadings(rate, c, low, peak, zero, max);
  }

  lemma DropRead(rate: nat, c: nat, zero: nat, max: nat)
    requires c > 0 && max < BUCKETS && forall m: nat :: IsMark(m) ==> Skip(rate, m) % c == 0
    ensures Droppable(3 * rate, zero, max) % c == 0
  {
    DropMark(rate, zero, max);
  }

  lemma DropsByMarks(rate: nat, c: nat)
    requires c > 0 && rate % c == 0 && rate >= 10 * c
    ensures DropsFrames(rate, c) <==> forall m: nat :: IsMark(m) ==> Skip(rate, m) % c == 0
  {
    if DropsFrames(rate, c) {
      forall m: nat | IsMark(m) ensures Skip(rate, m) % c == 0 {
        MarkRead(rate, c, m);
      }
    } else if forall m: nat :: IsMark(m) ==> Skip(rate, m) % c == 0 {
      forall low: nat, peak: nat
        | Fits(low, rate, c) && Fits(peak, rate, c) && Bucket(low, rate) <= Bucket(peak, rate)
        ensures Droppable(3 * rate, Bucket(low, rate), Bucket(peak, rate)) % c == 0
      {
        DropRead(rate, c, Bucket(low, rate), Bucket(peak, rate));
      }
    }
  }

  /** Exactly when whole frames are kept, as a finite test of the rate: 25 numbers to divide. */
  lemma FramesKeptByMarks(rate: nat, c: nat, most: nat)
    requires 0 < c <= most && rate % c == 0 && rate >= 10 * c
    ensures KeepsFrames(rate, c, most) <==> forall m: nat :: IsMark(m) ==> Skip(rate, m) % c == 0
  {
    FramesKeptExactly(rate, c, most);
    DropsByMarks(rate, c);
  }

  lemma EvenSkip(c: nat, k: nat, m: nat)
    requires c > 0
    ensures Skip(c * (80 * k), m) % c == 0
  {
    var x := c * (k * m);
    assert 3 * (c * (80 * k)) * m == 240 * x;
    assert Skip(c * (80 * k), m) == 2 * x;
    ModUnique(2 * x, 2 * (k * m), 0, c);
  }

  /** No number of channels tears a frame at a rate divisible by 80, 48 kHz among them. */
  lemma EightiesKeepFrames(c: nat, k: nat, most: nat)
    requires c > 0 && k > 0
    ensures c * (80 * k) > 0 && KeepsFrames(c * (80 * k), c, most)
  {
    var rate := c * (80 * k);
    ModUnique(rate, 80 * k, 0, c);
    ScaledBound(c, 10, 80 * k);
    forall m: nat | IsMark(m) ensures Skip(rate, m) % c == 0 {
      EvenSkip(c, k, m);
    }
    DropsByMarks(rate, c);
    FramesKept(rate, c, most);
  }

  lemma Tears(rate: nat, c: nat, most: nat, m: nat)
    requires rate >= 10 * c && 0 < c <= most && rate % c == 0 && IsMark(m) && Skip(rate, m) % c != 0
    ensures !KeepsFrames(rate, c, most)
  {
    FramesKeptByMarks(rate, c, most);
  }

  /** With six channels 11025 Hz and 44100 Hz tear frames, 48000 Hz does not. */
  lemma SixChannelsTear(most: nat)
    requires most >= 6
    ensures !KeepsFrames(6 * 11025, 6, most) && !KeepsFrames(6 * 44100, 6, most)
    ensures KeepsFrames(6 * 48000, 6, most)
  {
    assert Skip(66150, 6) == 9922 && Skip(264600, 7) == 46306;
    Tears(66150, 6, most, 6);
    Tears(264600, 6, most, 7);
    EightiesKeepFrames(6, 600, most);
  }
}
