/** The playback buffer of the client: a ring that keeps the newest three seconds, and a histogram
    of its occupancy by which, every twelve seconds, a part that was never needed is dropped. */
module AudioBuffer {
  const BUFFER_MS := 3000
  const BUCKETS := 30
  const WINDOW_MS := 12000
  const N := 4

  // Occupancy histogram

  function Zeros(): (z: seq<nat>)
    ensures |z| == BUCKETS && forall i :: 0 <= i < BUCKETS ==> z[i] == 0
  {
    seq(BUCKETS, _ => 0)
  }

  /** Tenths of a second held, capped at the last bucket. */
  function Bucket(having: nat, rate: nat): (i: nat)
    requires rate > 0
    ensures i < BUCKETS && i * rate <= having * 10
  {
    var i := having * 10 / rate;
    BucketBound(having, rate);
    if i > 29 then 29 else i
  }

  lemma BucketBound(having: nat, rate: nat)
    requires rate > 0
    ensures having * 10 / rate * rate <= having * 10
    ensures having * 10 / rate > 29 ==> 29 * rate <= having * 10
  {
    var q := having * 10 / rate;
    assert having * 10 == q * rate + having * 10 % rate;
    if q > 29 {
      assert q * rate >= 29 * rate;
    }
  }

  /** The number of empty buckets before the first used one. */
  predicate IsLowest(h: seq<nat>, zero: nat) {
    && zero <= |h|
    && (forall i :: 0 <= i < zero ==> h[i] == 0)
    && (zero < |h| ==> h[zero] > 0)
  }

  /** The first fullest bucket. The scan clears bucket 0 before comparing with it, so bucket 0 is
      chosen only when every other one is empty. */
  predicate IsPeak(h: seq<nat>, max: nat)
    requires |h| > 0
  {
    && max < |h|
    && (forall i :: 1 <= i < max ==> h[i] < h[max])
    && (forall i :: max < i < |h| ==> if max == 0 then h[i] == 0 else h[i] <= h[max])
    && (max > 0 ==> h[max] > 0)
  }

  lemma LowestUnique(h: seq<nat>, a: nat, b: nat)
    requires IsLowest(h, a) && IsLowest(h, b)
    ensures a == b
  {
  }

  lemma PeakUnique(h: seq<nat>, a: nat, b: nat)
    requires |h| > 0 && IsPeak(h, a) && IsPeak(h, b)
    ensures a == b
  {
  }

  function Lowest(h: seq<nat>): (zero: nat)
    ensures IsLowest(h, zero)
  {
    if |h| == 0 || h[0] > 0 then 0 else 1 + Lowest(h[1..])
  }

  function PeakUpTo(h: seq<nat>, n: nat): (max: nat)
    requires 1 <= n <= |h|
    ensures IsPeak(h[..n], max)
  {
    if n == 1 then 0
    else
      var max := PeakUpTo(h, n - 1);
      if h[n - 1] > (if max == 0 then 0 else h[max]) then n - 1 else max
  }

  lemma MarksUnique(h: seq<nat>, zero: nat, max: nat)
    requires |h| == BUCKETS && IsLowest(h, zero) && IsPeak(h, max)
    ensures zero == Lowest(h) && max == PeakUpTo(h, BUCKETS)
  {
    LowestUnique(h, zero, Lowest(h));
    assert h[..BUCKETS] == h;
    PeakUnique(h, max, PeakUpTo(h, BUCKETS));
  }

  /** One pass over the histogram: finds both marks and clears it on the way. */
  method ScanHistogram(h: array<nat>) returns (zero: nat, max: nat)
    requires h.Length == BUCKETS
    modifies h
    ensures IsLowest(old(h[..]), zero) && IsPeak(old(h[..]), max)
    ensures h[..] == Zeros()
  {
    zero, max := 0, 0;
    ghost var was := h[..];
    for i := 0 to BUCKETS
      invariant zero <= i && forall k :: 0 <= k < zero ==> was[k] == 0
      invariant zero < i ==> was[zero] > 0
      invariant i == 0 ==> max == 0
      invariant i > 0 ==> max < i && IsPeak(was[..i], max)
      invariant forall k :: i <= k < BUCKETS ==> h[k] == was[k]
      invariant forall k :: 0 <= k < i && k != max ==> h[k] == 0
      invariant i > 0 ==> h[max] == if max == 0 then 0 else was[max]
    {
      if h[i] == 0 && zero == i {
        zero := zero + 1;
      }
      if h[i] > h[max] {
        h[max] := 0;
        max := i;
      } else {
        h[i] := 0;
      }
    }
    assert was[..BUCKETS] == was;
    h[max] := 0;
  }

  // How much to drop

  function RoundDownToEven(x: nat): (r: nat)
    ensures r % 2 == 0 && r <= x <= r + 1
  {
    x - x % 2
  }

  /** The amount by which the marks let the buffer shrink: nothing below 600 ms. */
  function Droppable(cap: nat, zero: nat, max: nat): nat {
    var safe := zero * 2 / 3;
    if max < 6 then 0
    else RoundDownToEven(cap * (if max > safe * N then safe * N else max) / (30 * N) + 1)
  }

  /** The drop never passes two thirds of an occupancy in or above the lowest used bucket. */
  lemma DroppableBound(rate: nat, zero: nat, max: nat, having: nat)
    requires zero * rate <= having * 10
    ensures 3 * Droppable(3 * rate, zero, max) <= 2 * having + 3
  {
    var safe := zero * 2 / 3;
    var m := if max > safe * N then safe * N else max;
    MarkBound(rate, m, safe);
    SafeBound(rate, safe, zero);
    TwoThirds(3 * rate * m, safe * rate, having);
  }

  lemma ScaledBound(c: nat, a: nat, b: nat)
    requires a <= b
    ensures c * a <= c * b
  {
  }

  lemma MarkBound(rate: nat, m: nat, safe: nat)
    requires m <= safe * 4
    ensures 3 * rate * m <= 12 * (safe * rate)
  {
    ScaledBound(3 * rate, m, safe * 4);
  }

  lemma SafeBound(rate: nat, safe: nat, zero: nat)
    requires 3 * safe <= 2 * zero
    ensures 3 * (safe * rate) <= 2 * (zero * rate)
  {
    ScaledBound(rate, 3 * safe, 2 * zero);
  }

  lemma TwoThirds(x: nat, p: nat, having: nat)
    requires x <= 12 * p && 3 * p <= 20 * having
    ensures 3 * RoundDownToEven(x / 120 + 1) <= 2 * having + 3
  {
  }

  // The buffer

  datatype State<T> = State(cap: nat, rate: nat, held: seq<T>, hist: seq<nat>)

  predicate Valid<T>(s: State<T>) {
    s.rate > 0 && s.cap == 3 * s.rate && |s.held| <= s.cap && |s.hist| == BUCKETS
  }

  function Start<T>(): State<T> {
    State(48000 * 2 * BUFFER_MS / 1000, 48000 * 2, [], Zeros())
  }

  /** The last `cap` elements. */
  function Newest<T>(s: seq<T>, cap: nat): (r: seq<T>)
    ensures |r| == (if |s| <= cap then |s| else cap) && s[|s| - |r|..] == r
  {
    if |s| <= cap then s else s[|s| - cap..]
  }

  /** Making exactly enough room first changes nothing. */
  lemma NewestAfterSkip<T>(held: seq<T>, pcm: seq<T>, cap: nat)
    requires |held| <= cap && |pcm| <= cap && |held| + |pcm| > cap
    ensures Newest(held[|held| + |pcm| - cap..] + pcm, cap) == Newest(held + pcm, cap)
  {
  }

  /** Skipping from the old samples, and from the new ones only once no old one is left. */
  lemma PushedNewest<T>(held: seq<T>, pcm: seq<T>, cap: nat, skip: nat, from: nat)
    requires skip <= |held| && from <= |pcm| && (from > 0 ==> skip == |held|)
    requires |held| - skip + (|pcm| - from) == if |held| + |pcm| <= cap then |held| + |pcm| else cap
    ensures held[skip..] + pcm[from..] == Newest(held + pcm, cap)
  {
    var all, k := held + pcm, skip + from;
    assert all[k..] == held[skip..] + pcm[from..];
  }

  function Resized<T>(s: State<T>, rate: nat): State<T> {
    if s.rate == rate then s else State(3 * rate, rate, [], s.hist)
  }

  function Appended<T>(s: State<T>, pcm: seq<T>): State<T> {
    s.(held := Newest(s.held + pcm, s.cap))
  }

  function Popped<T>(s: State<T>, n: nat): State<T> {
    s.(held := s.held[if n <= |s.held| then n else |s.held|..])
  }

  function Recorded<T>(s: State<T>, having: nat): State<T>
    requires s.rate > 0 && |s.hist| == BUCKETS
  {
    var i := Bucket(having, s.rate);
    s.(hist := s.hist[i := s.hist[i] + 1])
  }

  /** The part dropped when the histogram is evaluated. */
  function Dropped<T>(s: State<T>): (d: nat)
    requires |s.hist| == BUCKETS
    ensures d <= |s.held|
  {
    var d := Droppable(s.cap, Lowest(s.hist), PeakUpTo(s.hist, BUCKETS));
    if |s.held| > d * 3 && d > 0 then d else 0
  }

  function Evaluated<T>(s: State<T>): State<T>
    requires |s.hist| == BUCKETS
  {
    s.(held := s.held[Dropped(s)..], hist := Zeros())
  }

  /** The clock shared by all buffers says whether the window is over. */
  predicate WindowOver(tms: int, now: int) {
    tms != 0 && now >= tms + WINDOW_MS
  }

  function NextMark(tms: int, now: int): int {
    if tms == 0 || WindowOver(tms, now) then now else tms
  }

  function Shrunk<T>(s: State<T>, having: nat, now: int, tms: int): State<T>
    requires s.rate > 0 && |s.hist| == BUCKETS
  {
    var r := Recorded(s, having);
    if WindowOver(tms, now) then Evaluated(r) else r
  }

  class AudioBuffer<T> {
    // The ring and its capacity, the rate it was sized for, the occupancy histogram
    var cap: nat
    var held: seq<T>
    var rate: nat
    const hist: array<nat>

    ghost function View(): State<T>
      reads this, hist
    {
      State(cap, rate, held, hist[..])
    }

    constructor ()
      ensures View() == Start() && Valid(View())
    {
      cap := 48000 * 2 * BUFFER_MS / 1000;
      held := [];
      rate := 48000 * 2;
      hist := new nat[BUCKETS](_ => 0);
    }

    /** The rate is stored only when the capacity changes; it is the requested one all the same. */
    method Resize(sampleRate: nat, channels: nat)
      requires Valid(View()) && sampleRate * channels > 0
      modifies this
      ensures View() == Resized(old(View()), sampleRate * channels) && Valid(View())
      ensures rate == sampleRate * channels
    {
      var capacity := sampleRate * channels * BUFFER_MS / 1000;
      if capacity != cap {
        cap := capacity;
        held := [];
        rate := sampleRate * channels;
      }
    }

    method Skip(n: nat)
      requires n <= |held|
      modifies this`held
      ensures held == old(held)[n..]
    {
      held := held[n..];
    }

    /** The ring's own overwriting push: makes what room it can, then takes the newest that fit. */
    method PushSliceOverwrite(pcm: seq<T>)
      requires |held| <= cap
      modifies this`held
      ensures held == Newest(old(held) + pcm, cap)
    {
      ghost var before := held;
      var vacant := cap - |held|;
      var skip := if |pcm| > vacant then (if |pcm| - vacant < |held| then |pcm| - vacant else |held|) else 0;
      held := held[skip..];
      vacant := cap - |held|;
      var from := if |pcm| > vacant then |pcm| - vacant else 0;
      held := held + pcm[from..];
      PushedNewest(before, pcm, cap, skip, from);
    }

    method AppendPcm2(pcm: seq<T>) returns (having: nat)
      requires Valid(View())
      modifies this`held
      ensures View() == Appended(old(View()), pcm) && Valid(View())
      ensures having == |held|
    {
      ghost var was := held;
      if |pcm| > cap {
        PushSliceOverwrite(pcm);
        return cap;
      }
      having := |held| + |pcm|;
      if having > cap {
        Skip(having - cap);
        NewestAfterSkip(was, pcm, cap);
        assert Newest(held + pcm, cap) == Newest(was + pcm, cap);
      }
      PushSliceOverwrite(pcm);
      assert held == Newest(was + pcm, cap);
      return |held|;
    }

    /** Drops what the marks of the histogram allow, if three times as much is held. */
    method DropByMarks(lowest: nat, peak: nat)
      modifies this`held
      ensures var d := Droppable(cap, lowest, peak);
              held == if |old(held)| > d * 3 && d > 0 then old(held)[d..] else old(held)
    {
      var zero, max := lowest * 2 / 3, peak;
      if max < 6 {
        return;
      } else if max > zero * N {
        max := zero * N;
      }
      var skip := RoundDownToEven(cap * max / (30 * N) + 1);
      assert skip == Droppable(cap, lowest, peak);
      if |held| > skip * 3 && skip > 0 {
        Skip(skip);
      }
    }

    /** The end of a window: scan and clear the histogram, then drop. */
    method EndWindow()
      requires Valid(View())
      modifies this`held, hist
      ensures View() == Evaluated(old(View()))
    {
      ghost var h := hist[..];
      var zero, max := ScanHistogram(hist);
      MarksUnique(h, zero, max);
      DropByMarks(zero, max);
    }

    method TryShrink(having: nat, now: int, tms: int) returns (mark: int)
      requires Valid(View())
      modifies this`held, hist
      ensures View() == Shrunk(old(View()), having, now, tms) && Valid(View())
      ensures mark == NextMark(tms, now)
    {
      var i := having * 10 / rate;
      if i > 29 {
        i := 29;
      }
      hist[i] := hist[i] + 1;
      assert View() == Recorded(old(View()), having);
      if tms == 0 {
        return now;
      } else if now < tms + WINDOW_MS {
        return tms;
      }
      EndWindow();
      return now;
    }

    method AppendPcm(pcm: seq<T>, now: int, tms: int) returns (mark: int)
      requires Valid(View())
      modifies this`held, hist
      ensures var s := Appended(old(View()), pcm); View() == Shrunk(s, |s.held|, now, tms)
      ensures Valid(View()) && mark == NextMark(tms, now)
    {
      var having := AppendPcm2(pcm);
      mark := TryShrink(having, now, tms);
    }

    /** The output callback: as many samples as asked for or held, the rest is silence. */
    method PopSlice(n: nat) returns (elems: seq<T>)
      requires Valid(View())
      modifies this`held
      ensures View() == Popped(old(View()), n) && Valid(View())
      ensures elems + held == old(held) && |elems| == if n <= |old(held)| then n else |old(held)|
    {
      var take := if n <= |held| then n else |held|;
      elems := held[..take];
      Skip(take);
    }
  }
}
