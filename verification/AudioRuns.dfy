/** Whole runs of the playback buffer: decoded audio coming in, playback taking samples out, the
    occupancy statistics dropping some, the device changing its rate. */
module AudioRuns {
  import opened AudioBuffer

  /** `Elsewhere`: another buffer moved the shared time mark. */
  datatype Event<T> =
    | Append(pcm: seq<T>)
    | Shrink(having: nat, now: int)
    | Pop(n: nat)
    | Elsewhere(mark: int)
    | Resize(rate: nat)

  datatype Reading = Reading(having: nat, rate: nat)

  /** The buffer, the shared time mark, and the occupancies recorded since the last evaluation. */
  datatype World<T> = World(s: State<T>, tms: int, window: seq<Reading>)

  predicate Possible<T>(e: Event<T>) {
    e.Resize? ==> e.rate > 0
  }

  predicate AllPossible<T>(es: seq<Event<T>>) {
    forall i :: 0 <= i < |es| ==> Possible(es[i])
  }

  function Begin<T>(): World<T> {
    World(Start(), 0, [])
  }

  function Step<T>(w: World<T>, e: Event<T>): (w': World<T>)
    requires Valid(w.s) && Possible(e)
    ensures Valid(w'.s)
  {
    match e
    case Append(pcm) => w.(s := Appended(w.s, pcm))
    case Pop(n) => w.(s := Popped(w.s, n))
    case Elsewhere(mark) => w.(tms := mark)
    case Resize(rate) => w.(s := Resized(w.s, rate))
    case Shrink(having, now) =>
      World(Shrunk(w.s, having, now, w.tms), NextMark(w.tms, now),
            if WindowOver(w.tms, now) then [] else w.window + [Reading(having, w.s.rate)])
  }

  function Run<T>(w: World<T>, es: seq<Event<T>>): (w': World<T>)
    requires Valid(w.s) && AllPossible(es)
    ensures Valid(w'.s)
  {
    if |es| == 0 then w else Step(Run(w, es[..|es| - 1]), es[|es| - 1])
  }

  // Conservation

  /** The samples a step takes from the front: played, overwritten or dropped. */
  function Gone<T>(w: World<T>, e: Event<T>): seq<T>
    requires Valid(w.s) && Possible(e)
  {
    match e
    case Append(pcm) =>
      var all := w.s.held + pcm;
      all[..|all| - |Step(w, e).s.held|]
    case _ => w.s.held[..if |Step(w, e).s.held| <= |w.s.held| then |w.s.held| - |Step(w, e).s.held| else 0]
  }

  function AllGone<T>(w: World<T>, es: seq<Event<T>>): seq<T>
    requires Valid(w.s) && AllPossible(es)
  {
    if |es| == 0 then []
    else
      var n := |es| - 1;
      AllGone(w, es[..n]) + Gone(Run(w, es[..n]), es[n])
  }

  function Fed<T>(es: seq<Event<T>>): seq<T> {
    if |es| == 0 then []
    else Fed(es[..|es| - 1]) + (if es[|es| - 1].Append? then es[|es| - 1].pcm else [])
  }

  predicate NoResize<T>(es: seq<Event<T>>) {
    forall i :: 0 <= i < |es| ==> !es[i].Resize?
  }

  /** No sample is lost in the middle, repeated or reordered: what left, in order, followed by what
      is still held, is what was held at first followed by everything fed in. */
  lemma {:induction false} Conservation<T>(w: World<T>, es: seq<Event<T>>)
    requires Valid(w.s) && AllPossible(es) && NoResize(es)
    ensures AllGone(w, es) + Run(w, es).s.held == w.s.held + Fed(es)
  {
    if |es| > 0 {
      var n := |es| - 1;
      Conservation(w, es[..n]);
      var w' := Run(w, es[..n]);
      StepConserves(w', es[n]);
      Chain(AllGone(w, es[..n]), Gone(w', es[n]), Run(w, es).s.held, w'.s.held,
            if es[n].Append? then es[n].pcm else [], w.s.held, Fed(es[..n]));
    }
  }

  lemma Chain<T>(a: seq<T>, gone: seq<T>, now: seq<T>, before: seq<T>, fed: seq<T>, x: seq<T>, f: seq<T>)
    requires a + before == x + f && gone + now == before + fed
    ensures (a + gone) + now == x + (f + fed)
  {
    assert (a + gone) + now == a + (gone + now);
    assert a + (before + fed) == (a + before) + fed;
  }

  lemma AppendConserves<T>(s: State<T>, pcm: seq<T>)
    requires Valid(s)
    ensures var all, kept := s.held + pcm, Appended(s, pcm).held;
            |kept| <= |all| && all[..|all| - |kept|] + kept == all
  {
    var all, kept := s.held + pcm, Appended(s, pcm).held;
    assert all[|all| - |kept|..] == kept;
  }

  lemma StepConserves<T>(w: World<T>, e: Event<T>)
    requires Valid(w.s) && !e.Resize?
    ensures Gone(w, e) + Step(w, e).s.held == w.s.held + (if e.Append? then e.pcm else [])
  {
    if e.Append? {
      AppendConserves(w.s, e.pcm);
    }
  }

  // The window

  function Tally(window: seq<Reading>): (h: seq<nat>)
    requires forall i :: 0 <= i < |window| ==> window[i].rate > 0
    ensures |h| == BUCKETS
  {
    if |window| == 0 then Zeros()
    else
      var h := Tally(window[..|window| - 1]);
      var i := Bucket(window[|window| - 1].having, window[|window| - 1].rate);
      h[i := h[i] + 1]
  }

  ghost predicate Counted<T>(w: World<T>) {
    && (forall i :: 0 <= i < |w.window| ==> w.window[i].rate > 0)
    && w.s.hist == Tally(w.window)
  }

  lemma StepCounts<T>(w: World<T>, e: Event<T>)
    requires Valid(w.s) && Possible(e) && Counted(w)
    ensures Counted(Step(w, e))
  {
    if e.Shrink? && !WindowOver(w.tms, e.now) {
      var next := Step(w, e).window;
      assert next[..|next| - 1] == w.window;
    }
  }

  lemma {:induction false} RunCounts<T>(es: seq<Event<T>>)
    requires AllPossible(es)
    ensures Counted(Run(Begin<T>(), es))
  {
    if |es| > 0 {
      var n := |es| - 1;
      RunCounts(es[..n]);
      StepCounts(Run(Begin(), es[..n]), es[n]);
    }
  }

  /** A window lasts twelve seconds from its mark, and the first shrink ever only sets the mark. Within it a
      shrink drops nothing; the one that ends it starts the next, with nothing recorded. */
  lemma TwelveSeconds<T>(w: World<T>, having: nat, now: int)
    requires Valid(w.s)
    ensures var w' := Step(w, Shrink(having, now));
            if w.tms != 0 && now - w.tms >= 12_000 then w'.tms == now && w'.window == [] && w'.s.hist == Zeros()
            else
              && w'.tms == (if w.tms == 0 then now else w.tms)
              && w'.s.held == w.s.held && w'.window == w.window + [Reading(having, w.s.rate)]
  {
  }

  /** The rate asked for last. */
  function LastRate<T>(es: seq<Event<T>>): nat {
    if |es| == 0 then 96_000
    else if es[|es| - 1].Resize? then es[|es| - 1].rate else LastRate(es[..|es| - 1])
  }

  /** Over every run there is room for three seconds at the rate asked for last. A new rate empties the
      buffer, and only the readings of the window remain; the same one again changes nothing. */
  lemma {:induction false} RateFollows<T>(es: seq<Event<T>>, rate: nat)
    requires AllPossible(es) && rate > 0
    ensures var w := Run(Begin<T>(), es);
            var w' := Step(w, Resize(rate));
            && w.s.rate == LastRate(es) && w.s.cap == 3 * LastRate(es)
            && (rate == LastRate(es) ==> w' == w)
            && (rate != LastRate(es) ==> w'.s.held == [])
            && w'.s.rate == rate && w'.s.cap == 3 * rate && w'.s.hist == w.s.hist && w'.window == w.window
  {
    if |es| > 0 {
      RateFollows(es[..|es| - 1], rate);
    }
  }

  lemma {:induction false} UsedBucket(window: seq<Reading>, k: nat)
    requires forall i :: 0 <= i < |window| ==> window[i].rate > 0
    requires k < |window|
    ensures Tally(window)[Bucket(window[k].having, window[k].rate)] > 0
  {
    var n := |window| - 1;
    if k < n {
      UsedBucket(window[..n], k);
    }
  }

  /** Every reading of the window, taken at the current rate, is at least the lowest used bucket. */
  lemma LowestReading(window: seq<Reading>, k: nat)
    requires forall i :: 0 <= i < |window| ==> window[i].rate > 0
    requires k < |window|
    ensures Lowest(Tally(window)) * window[k].rate <= window[k].having * 10
  {
    UsedBucket(window, k);
    var b := Bucket(window[k].having, window[k].rate);
    ScaledBound(window[k].rate, Lowest(Tally(window)), b);
    assert window[k].rate * b == b * window[k].rate;
    assert window[k].rate * Lowest(Tally(window)) == Lowest(Tally(window)) * window[k].rate;
  }

  lemma DropBound<T>(s: State<T>, window: seq<Reading>, k: nat)
    requires Valid(s) && k < |window| && window[k].rate == s.rate
    requires forall i :: 0 <= i < |window| ==> window[i].rate > 0
    requires s.hist == Tally(window)
    ensures 3 * Dropped(s) <= 2 * window[k].having + 3
  {
    LowestReading(window, k);
    DroppableBound(s.rate, Lowest(s.hist), PeakUpTo(s.hist, BUCKETS), window[k].having);
  }

  lemma RecordedTally<T>(w: World<T>, having: nat)
    requires Valid(w.s) && Counted(w)
    ensures var window := w.window + [Reading(having, w.s.rate)];
            && (forall i :: 0 <= i < |window| ==> window[i].rate > 0)
            && Recorded(w.s, having).hist == Tally(window)
  {
    var window := w.window + [Reading(having, w.s.rate)];
    assert window[..|window| - 1] == w.window;
  }

  lemma ShrinkLength<T>(w: World<T>, having: nat, now: int)
    requires Valid(w.s)
    ensures var after := Step(w, Shrink(having, now)).s;
            && |w.s.held| - |after.held| == (if WindowOver(w.tms, now) then Dropped(Recorded(w.s, having)) else 0)
            && (WindowOver(w.tms, now) ==> after.hist == Zeros())
  {
  }

  /** What a shrink takes is even, leaves more than two thirds, and is at most one sample more than two
      thirds of the occupancy read, if that was read at the rate in force. */
  predicate IsSafe(held: nat, after: nat, reading: Reading, rate: nat) {
    && after <= held && (held - after) % 2 == 0
    && (after < held ==> 3 * after > 2 * held)
    && (reading.rate == rate ==> 3 * (held - after) <= 2 * reading.having + 3)
  }

  lemma ShrinkFrom<T>(w: World<T>, having: nat, now: int, window: seq<Reading>, k: nat)
    requires Valid(w.s) && Counted(w) && window == w.window + [Reading(having, w.s.rate)] && k < |window|
    ensures IsSafe(|w.s.held|, |Step(w, Shrink(having, now)).s.held|, window[k], w.s.rate)
  {
    var r := Recorded(w.s, having);
    RecordedTally(w, having);
    ShrinkLength(w, having, now);
    DroppedEven(r);
    if window[k].rate == w.s.rate {
      DropBound(r, window, k);
    }
  }

  /** After any history of the program, what one shrink removes is even, leaves more than two thirds
      of what is held, and, if the rate did not change within the window, is at most one sample more
      than two thirds of every occupancy the window recorded. An evaluation clears the histogram. */
  lemma ShrinkIsSafe<T>(es: seq<Event<T>>, having: nat, now: int, k: nat)
    requires AllPossible(es)
    requires k <= |Run(Begin<T>(), es).window|
    ensures var w := Run(Begin<T>(), es);
            var after := Step(w, Shrink(having, now)).s;
            var reading := (w.window + [Reading(having, w.s.rate)])[k];
            && IsSafe(|w.s.held|, |after.held|, reading, w.s.rate)
            && (WindowOver(w.tms, now) ==> after.hist == Zeros())
  {
    var w := Run(Begin<T>(), es);
    RunCounts<T>(es);
    ShrinkLength(w, having, now);
    ShrinkFrom(w, having, now, w.window + [Reading(having, w.s.rate)], k);
  }

  /** A single reading below a tenth of a second in the window keeps anything from being dropped. */
  lemma LowReadingKeeps<T>(es: seq<Event<T>>, having: nat, now: int, k: nat)
    requires AllPossible(es)
    requires k <= |Run(Begin<T>(), es).window|
    requires var w := Run(Begin<T>(), es);
             var reading := (w.window + [Reading(having, w.s.rate)])[k];
             reading.having * 10 < reading.rate
    ensures Step(Run(Begin<T>(), es), Shrink(having, now)).s.held == Run(Begin<T>(), es).s.held
  {
    var w := Run(Begin<T>(), es);
    var window, r := w.window + [Reading(having, w.s.rate)], Recorded(w.s, having);
    RunCounts<T>(es);
    RecordedTally(w, having);
    FirstBucket(window[k].having, window[k].rate);
    UsedBucket(window, k);
    NothingDropped(w, having, now);
  }

  lemma FirstBucket(having: nat, rate: nat)
    requires having * 10 < rate
    ensures Bucket(having, rate) == 0
  {
    SmallQuotient(having * 10, rate);
  }

  lemma SmallQuotient(x: nat, y: nat)
    requires x < y
    ensures x / y == 0
  {
  }

  lemma NothingBelow(cap: nat, max: nat)
    ensures Droppable(cap, 0, max) == 0
  {
  }

  lemma NothingDropped<T>(w: World<T>, having: nat, now: int)
    requires Valid(w.s) && Recorded(w.s, having).hist[0] > 0
    ensures Step(w, Shrink(having, now)).s.held == w.s.held
  {
    var r := Recorded(w.s, having);
    NothingBelow(r.cap, PeakUpTo(r.hist, BUCKETS));
    assert Dropped(r) == 0;
  }

  // Whole frames

  /** Everything fed in and asked for is a whole number of frames of `c` samples. */
  predicate Framed<T>(es: seq<Event<T>>, c: nat)
    requires c > 0
  {
    forall i :: 0 <= i < |es| ==>
      && (es[i].Append? ==> |es[i].pcm| % c == 0)
      && (es[i].Pop? ==> es[i].n % c == 0)
      && (es[i].Resize? ==> es[i].rate % c == 0)
  }

  lemma DroppedEven<T>(s: State<T>)
    requires |s.hist| == BUCKETS
    ensures Dropped(s) % 2 == 0
  {
  }

  /** What a step can do to the number of samples held. */
  lemma StepLength<T>(w: World<T>, e: Event<T>)
    requires Valid(w.s) && Possible(e)
    ensures var n := |Step(w, e).s.held|;
            || n == 0
            || n == |w.s.held|
            || (e.Append? && (n == |w.s.held| + |e.pcm| || n == 3 * w.s.rate))
            || (e.Pop? && n == |w.s.held| - e.n)
            || (e.Shrink? && n <= |w.s.held| && (|w.s.held| - n) % 2 == 0)
    ensures Step(w, e).s.rate == if e.Resize? then e.rate else w.s.rate
  {
    if e.Shrink? {
      DroppedEven(Recorded(w.s, e.having));
    }
  }

  lemma FrameNumbers(n: nat, held: nat, rate: nat, fed: nat, asked: nat, c: nat)
    requires 1 <= c <= 2 && rate % c == 0 && held % c == 0 && fed % c == 0 && asked % c == 0
    requires || n == 0 || n == held || n == held + fed || n == 3 * rate || n == held - asked
             || (n <= held && (held - n) % 2 == 0)
    ensures n % c == 0
  {
    if c == 1 {
    } else {
      assert c == 2;
    }
  }

  lemma StepFrames<T>(w: World<T>, e: Event<T>, c: nat)
    requires Valid(w.s) && Possible(e) && 1 <= c <= 2
    requires w.s.rate % c == 0 && |w.s.held| % c == 0 && Framed([e], c)
    ensures Step(w, e).s.rate % c == 0 && |Step(w, e).s.held| % c == 0
  {
    assert [e][0] == e;
    StepLength(w, e);
    FrameNumbers(|Step(w, e).s.held|, |w.s.held|, w.s.rate, if e.Append? then |e.pcm| else 0,
                 if e.Pop? then e.n else 0, c);
  }

  /** With one or two channels the buffer holds whole frames throughout. */
  lemma {:induction false} WholeFrames<T>(es: seq<Event<T>>, c: nat)
    requires AllPossible(es) && 1 <= c <= 2 && Framed(es, c)
    ensures Run(Begin<T>(), es).s.rate % c == 0 && |Run(Begin<T>(), es).s.held| % c == 0
  {
    if |es| > 0 {
      var n := |es| - 1;
      WholeFrames(es[..n], c);
      assert Framed([es[n]], c);
      StepFrames(Run(Begin(), es[..n]), es[n], c);
    }
  }
}
