/** Whole runs of the video threads: the failure counter in closed form, the size recovery, the
    spacing of its requests, and the list of unusable codecs the threads share. */
module VideoRuns {
  import opened Common
  import opened VideoThread

  // What happened since the decoder was last created

  /** Whether handling `m` starts with a new decoder, and whether the size recovery made it. */
  predicate Recovers(t: Thread, m: Media) {
    && m.Show? && t.handler.Some? && t.handler.value.format == m.frame.format
    && t.awaiting && m.frame.key
  }

  predicate Recreates(t: Thread, m: Media) {
    || m.Reset?
    || t.handler.None? || t.handler.value.format != m.frame.format
    || Recovers(t, m)
  }

  /** The thread, with what an observer noted: the decoder's answers since it was created (true for
      a picture), whether the size recovery created it, the times of the refused pictures since the
      last accepted one or new decoder, and the requests no new decoder has followed yet. */
  datatype Watched = Watched(t: Thread, answers: seq<bool>, recovered: bool, refusals: seq<nat>,
                             open: nat)

  const Start := Watched(Idle, [], false, [], 0)

  predicate InMemory(m: Media) {
    m.Show? && Answer(m.frame, m.outcome.decoded) == Picture && m.outcome.pixels
  }

  function Watch(w: Watched, m: Media): Watched {
    var (t', ask) := Step(w.t, m);
    var anew := Recreates(w.t, m);
    var answers := if anew then [] else w.answers;
    var refusals := if anew then [] else w.refusals;
    Watched(
      t',
      if m.Show? && m.frame.coded then answers + [m.outcome.decoded == Picture] else answers,
      if anew then Recovers(w.t, m) else w.recovered,
      if !InMemory(m) then refusals
      else if m.outcome.rejected == 0 then [] else refusals + [m.outcome.first],
      (if anew then 0 else w.open) + (if ask.Some? then 1 else 0))
  }

  function WatchAll(ms: seq<Media>): Watched {
    if |ms| == 0 then Start else Watch(WatchAll(ms[..|ms| - 1]), ms[|ms| - 1])
  }

  lemma {:induction false} WatchRuns(ms: seq<Media>)
    ensures WatchAll(ms).t == Run(Idle, ms)
  {
    if |ms| > 0 {
      WatchRuns(ms[..|ms| - 1]);
    }
  }

  // The failure counter

  predicate Counts(w: Watched) {
    if w.t.handler.None? then w.answers == [] && !w.recovered
    else Counted(w.t.handler.value, w.answers)
  }

  lemma ShownHandler(t: Thread, frame: Frame, o: Outcome)
    ensures var h := if Recreates(t, Show(frame, o)) then Fresh(frame.format) else t.handler.value;
            Shown(t, frame, o).0.handler == Some(Handled(h, frame, o.decoded)) && h.format == frame.format
  {
  }

  lemma ShowCounts(w: Watched, frame: Frame, o: Outcome)
    requires Counts(w)
    ensures Counts(Watch(w, Show(frame, o)))
  {
    var m := Show(frame, o);
    var answers := if Recreates(w.t, m) then [] else w.answers;
    ShownHandler(w.t, frame, o);
    AnswerCounts(if Recreates(w.t, m) then Fresh(frame.format) else w.t.handler.value, answers, o.decoded == Picture);
  }

  lemma StepCounts(w: Watched, m: Media)
    requires Counts(w)
    ensures Counts(Watch(w, m))
  {
    if m.Show? {
      ShowCounts(w, m.frame, m.outcome);
    }
  }

  /** Over every run the counter is a closed form of the answers since the decoder was created. */
  lemma {:induction false} CounterClosedForm(ms: seq<Media>)
    ensures Counts(WatchAll(ms))
  {
    if |ms| > 0 {
      var n := |ms| - 1;
      CounterClosedForm(ms[..n]);
      StepCounts(WatchAll(ms[..n]), ms[n]);
    }
  }

  /** Three failures in a row, or coded frames and never a picture. */
  predicate Hopeless(answers: seq<bool>) {
    LastFailed(answers, 3) || (answers != [] && true !in answers)
  }

  lemma ThreeMeansHopeless(answers: seq<bool>)
    ensures FailCount(answers) >= 3 <==> Hopeless(answers)
  {
    TrailingMeansLast(answers, 3);
    TrailingMeansLast(answers, 1);
  }

  lemma HandlerMade(ms: seq<Media>, frame: Frame, o: Outcome)
    ensures var t := Run(Idle, ms + [Show(frame, o)]); t.handler.Some? && t.handler.value.format == frame.format
  {
    assert (ms + [Show(frame, o)])[..|ms|] == ms;
    ShownHandler(Run(Idle, ms), frame, o);
  }

  /** A frame finds its codec unusable exactly if the decoder is invalid, failed three times in a row, or
      has been given coded frames and never answered with a picture. */
  lemma UnusableExactly(ms: seq<Media>, m: Media)
    ensures Unusable(Run(Idle, ms + [m]), m)
         == if m.Show? && (!m.outcome.valid || Hopeless(WatchAll(ms + [m]).answers))
            then Some(m.frame.format) else None
  {
    if m.Show? {
      HandlerMade(ms, m.frame, m.outcome);
      WatchRuns(ms + [m]);
      CounterClosedForm(ms + [m]);
      ThreeMeansHopeless(WatchAll(ms + [m]).answers);
    }
  }

  // The size recovery

  /** The decoder the recovery makes is valid and decodes the key frame it was made for. */
  ghost predicate RecoveryDecodes(ms: seq<Media>) {
    forall i :: 0 <= i < |ms| && Recovers(Run(Idle, ms[..i]), ms[i]) ==>
      ms[i].frame.coded && ms[i].outcome.decoded == Picture && ms[i].outcome.valid
  }

  predicate LastFailed(answers: seq<bool>, k: nat) {
    |answers| >= k && forall i :: |answers| - k <= i < |answers| ==> !answers[i]
  }

  lemma {:induction false} TrailingMeansLast(answers: seq<bool>, k: nat)
    ensures TrailingFailures(answers) >= k <==> LastFailed(answers, k)
  {
    if |answers| > 0 && k > 0 && !answers[|answers| - 1] {
      TrailingMeansLast(answers[..|answers| - 1], k - 1);
    }
  }

  lemma {:induction false} RecoveredStartsWell(ms: seq<Media>)
    requires RecoveryDecodes(ms)
    ensures WatchAll(ms).recovered ==> WatchAll(ms).answers != [] && WatchAll(ms).answers[0]
  {
    if |ms| > 0 {
      var n := |ms| - 1;
      assert forall i :: 0 <= i < n ==> ms[..n][..i] == ms[..i];
      RecoveredStartsWell(ms[..n]);
      WatchRuns(ms[..n]);
      CounterClosedForm(ms[..n]);
      StartsWell(WatchAll(ms[..n]), ms[n]);
    }
  }

  lemma StartsWell(w: Watched, m: Media)
    requires Counts(w) && (w.recovered ==> w.answers != [] && w.answers[0])
    requires Recovers(w.t, m) ==> m.frame.coded && m.outcome.decoded == Picture
    ensures Watch(w, m).recovered ==> Watch(w, m).answers != [] && Watch(w, m).answers[0]
  {
  }

  /** A codec is never given up because of the recovery: on a decoder the recovery made, a codec
      whose decoder is valid is found unusable only after three failures in a row, and never by the
      frame that triggered the recovery. */
  lemma RecoveryNeverMarks(ms: seq<Media>)
    requires |ms| > 0 && RecoveryDecodes(ms)
    requires var m := ms[|ms| - 1]; m.Show? && m.outcome.valid
    requires WatchAll(ms).recovered
    ensures var unusable := Unusable(Run(Idle, ms), ms[|ms| - 1]);
            && (unusable.Some? <==> LastFailed(WatchAll(ms).answers, 3))
            && (Recovers(Run(Idle, ms[..|ms| - 1]), ms[|ms| - 1]) ==> unusable == None)
  {
    WatchRuns(ms);
    WatchRuns(ms[..|ms| - 1]);
    CounterClosedForm(ms);
    RecoveredStartsWell(ms);
    TrailingMeansLast(WatchAll(ms).answers, 3);
    assert true in WatchAll(ms).answers;
  }

  /** Any new decoder, the first one, one for another codec or one after a plain reset, gives its codec
      up at once if the first coded frame it is given cannot be decoded. */
  lemma PlainResetMarks(ms: seq<Media>, frame: Frame, o: Outcome)
    requires frame.coded && o.decoded != Picture
    requires Recreates(Run(Idle, ms), Show(frame, o)) || WatchAll(ms).answers == []
    ensures Unusable(Run(Idle, ms + [Show(frame, o)]), Show(frame, o)) == Some(frame.format)
  {
    var m := Show(frame, o);
    assert (ms + [m])[..|ms|] == ms;
    WatchRuns(ms);
    WatchRuns(ms + [m]);
    CounterClosedForm(ms);
    StepCounts(WatchAll(ms), m);
    ShownHandler(Run(Idle, ms), frame, o);
    assert [false][..0] == [];
    assert WatchAll(ms + [m]).answers == [false];
  }

  // The requests

  predicate Spaced(asks: seq<Ask>) {
    && (forall i :: 0 <= i < |asks| ==> asks[i].asked <= asks[i].noted)
    && (forall i, j :: 0 <= i < j < |asks| ==> asks[j].asked >= asks[i].noted + 5 * SECOND)
  }

  predicate Noted(t: Thread, asks: seq<Ask>) {
    if asks == [] then t.lastRefresh == None
    else t.lastRefresh == Some(asks[|asks| - 1].noted)
  }

  lemma StepAsk(t: Thread, m: Media)
    requires Plausible(m)
    ensures match Step(t, m).1
            case None => Step(t, m).0.lastRefresh == t.lastRefresh
            case Some(ask) =>
              && ask.asked <= ask.noted
              && (t.lastRefresh.Some? ==> ask.asked >= t.lastRefresh.value + 5 * SECOND)
              && Step(t, m).0.lastRefresh == Some(ask.noted)
  {
  }

  /** Size-mismatch requests are at least five seconds apart, over every run. */
  lemma {:induction false} RequestsAreSpaced(ms: seq<Media>)
    requires forall i :: 0 <= i < |ms| ==> Plausible(ms[i])
    ensures Spaced(AllAsks(Idle, ms)) && Noted(Run(Idle, ms), AllAsks(Idle, ms))
  {
    if |ms| > 0 {
      var n := |ms| - 1;
      RequestsAreSpaced(ms[..n]);
      StepAsk(Run(Idle, ms[..n]), ms[n]);
    }
  }

  predicate Tracks(w: Watched) {
    && (w.t.since.Some? ==> w.refusals != [] && w.refusals[0] == w.t.since.value)
    && (!w.t.awaiting && w.t.since.None? ==> w.refusals == [])
    && w.open == (if w.t.awaiting then 1 else 0)
    && (w.t.handler.None? ==> !w.t.awaiting && w.t.since.None?)
  }

  lemma StepTracks(w: Watched, m: Media)
    requires Tracks(w)
    ensures Tracks(Watch(w, m))
  {
  }

  lemma {:induction false} RunTracks(ms: seq<Media>)
    ensures Tracks(WatchAll(ms))
  {
    if |ms| > 0 {
      RunTracks(ms[..|ms| - 1]);
      StepTracks(WatchAll(ms[..|ms| - 1]), ms[|ms| - 1]);
    }
  }

  /** Each request ends at least a second of refusals without an accepted picture or a new decoder
      in between, and no earlier request is still waiting for one. */
  lemma RequestIsJustified(ms: seq<Media>, m: Media)
    requires Step(Run(Idle, ms), m).1.Some?
    ensures var w := WatchAll(ms + [m]);
            && w.refusals != []
            && Step(Run(Idle, ms), m).1.value.asked >= w.refusals[0] + SECOND
            && w.open == 1
            && (Recreates(Run(Idle, ms), m) || WatchAll(ms).open == 0)
  {
    assert (ms + [m])[..|ms|] == ms;
    WatchRuns(ms);
    RunTracks(ms);
    RunTracks(ms + [m]);
  }

  /** The codec of the last frame, which the decoder was made for. */
  function LastFormat(ms: seq<Media>): Option<Format> {
    if |ms| == 0 then None
    else if ms[|ms| - 1].Show? then Some(ms[|ms| - 1].frame.format)
    else LastFormat(ms[..|ms| - 1])
  }

  lemma {:induction false} FormatFollows(ms: seq<Media>)
    ensures var t := Run(Idle, ms);
            LastFormat(ms) == if t.handler.None? then None else Some(t.handler.value.format)
  {
    if |ms| > 0 {
      var n := |ms| - 1;
      FormatFollows(ms[..n]);
      if ms[n].Show? {
        ShownHandler(Run(Idle, ms[..n]), ms[n].frame, ms[n].outcome);
      }
    }
  }

  /** A new decoder is made at a reset, for the first frame, for a frame of another codec, and for a
      key frame while a request is open, and at no other time. */
  lemma RecreatesExactly(ms: seq<Media>, m: Media)
    ensures Recreates(Run(Idle, ms), m) <==>
              m.Reset? || LastFormat(ms) != Some(m.frame.format) || (m.frame.key && WatchAll(ms).open > 0)
  {
    WatchRuns(ms);
    FormatFollows(ms);
    RunTracks(ms);
  }

  lemma {:induction false} LastRequest(ms: seq<Media>)
    ensures Noted(Run(Idle, ms), AllAsks(Idle, ms))
  {
    if |ms| > 0 {
      LastRequest(ms[..|ms| - 1]);
    }
  }

  /** Since when pictures have been refused, if the one of `m` is. */
  function RefusedSince(ms: seq<Media>, m: Media): nat
    requires m.Show?
  {
    var refusals := WatchAll(ms).refusals;
    if Recreates(Run(Idle, ms), m) || refusals == [] then m.outcome.first else refusals[0]
  }

  /** The picture of `m` is in memory and refused for at least the fifth time in a row, no earlier request
      is open, and the refusals have lasted a second. */
  predicate Stuck(ms: seq<Media>, m: Media) {
    && m.Show? && m.frame.coded && m.outcome.decoded == Picture && m.outcome.pixels
    && m.outcome.rejected >= 5
    && (WatchAll(ms).open == 0 || Recreates(Run(Idle, ms), m))
    && m.outcome.waited >= RefusedSince(ms, m) + 1_000_000_000
  }

  /** The same, told from the thread's fields. */
  predicate StuckIn(t: Thread, m: Media) {
    && InMemory(m) && m.outcome.rejected >= 5
    && (var p := Prepared(t, m.frame);
        && !p.awaiting
        && m.outcome.waited >= (if p.since.Some? then p.since.value else m.outcome.first) + 1_000_000_000)
  }

  lemma StuckEitherWay(ms: seq<Media>, m: Media)
    ensures Stuck(ms, m) <==> StuckIn(Run(Idle, ms), m)
  {
    WatchRuns(ms);
    RunTracks(ms);
  }

  predicate Rested(last: Option<nat>, m: Media) {
    m.Show? && (last.Some? ==> m.outcome.cooled >= last.value + 5_000_000_000)
  }

  lemma StepAsks(t: Thread, m: Media)
    ensures Step(t, m).1
         == if StuckIn(t, m) && Rested(t.lastRefresh, m) then Some(Ask(m.outcome.waited, m.outcome.stamp)) else None
  {
  }

  /** Over every run a key frame is asked for exactly when the picture is stuck and the last request was
      noted five seconds ago or more. */
  lemma RequestExactly(ms: seq<Media>, m: Media, asks: seq<Ask>)
    requires asks == AllAsks(Idle, ms)
    ensures Step(Run(Idle, ms), m).1
         == if Stuck(ms, m) && (asks == [] || m.outcome.cooled >= asks[|asks| - 1].noted + 5_000_000_000)
            then Some(Ask(m.outcome.waited, m.outcome.stamp)) else None
  {
    LastRequest(ms);
    StuckEitherWay(ms, m);
    StepAsks(Run(Idle, ms), m);
  }

  // The codecs all threads share

  /** The session's list, the threads that added to it and still have to announce it, and the
      announcements sent (each lists the codecs given up by then). */
  datatype Shared = Shared(unsupported: seq<Format>, pending: set<nat>, sent: seq<seq<Format>>)

  /** A thread finds a codec unusable, or sends the announcement it owes. */
  datatype Action = Find(thread: nat, format: Format) | Send(thread: nat)

  predicate NoRepeats(list: seq<Format>) {
    forall i, j :: 0 <= i < j < |list| ==> list[i] != list[j]
  }

  function Marked(list: seq<Format>, format: Format): seq<Format> {
    if format in list then list else list + [format]
  }

  class Session {
    var unsupported: seq<Format>

    /** Under the write lock: the first finder adds the codec and will announce it. */
    method MarkUnsupported(format: Format) returns (shouldUpdate: bool)
      requires NoRepeats(unsupported)
      modifies this
      ensures NoRepeats(unsupported) && old(unsupported) <= unsupported
      ensures format in unsupported && forall f :: f in unsupported ==> f == format || f in old(unsupported)
      ensures shouldUpdate <==> |unsupported| == |old(unsupported)| + 1
      ensures unsupported == Marked(old(unsupported), format)
    {
      shouldUpdate := false;
      if format !in unsupported {
        unsupported := unsupported + [format];
        shouldUpdate := true;
      }
    }
  }

  /** A thread handles its frames one after the other, so it sends before it looks again. */
  predicate CanAct(s: Shared, a: Action) {
    match a
    case Find(i, _) => i !in s.pending
    case Send(i) => i in s.pending
  }

  function Act(s: Shared, a: Action): Shared {
    match a
    case Find(i, format) =>
      s.(unsupported := Marked(s.unsupported, format),
         pending := if format in s.unsupported then s.pending else s.pending + {i})
    case Send(i) => s.(pending := s.pending - {i}, sent := s.sent + [s.unsupported])
  }

  ghost predicate IsRun(states: seq<Shared>, actions: seq<Action>) {
    && |states| == |actions| + 1
    && states[0] == Shared([], {}, [])
    && forall i :: 0 <= i < |actions| ==>
         CanAct(states[i], actions[i]) && states[i + 1] == Act(states[i], actions[i])
  }

  predicate Announced(s: Shared) {
    && NoRepeats(s.unsupported)
    && |s.sent| + |s.pending| == |s.unsupported|
    && (s.pending == {} && s.sent != [] ==> s.sent[|s.sent| - 1] == s.unsupported)
  }

  lemma FindAnnounces(s: Shared, i: nat, format: Format)
    requires Announced(s) && i !in s.pending
    ensures Announced(Act(s, Find(i, format)))
  {
    assert |s.pending + {i}| == |s.pending| + 1;
  }

  lemma SendAnnounces(s: Shared, i: nat)
    requires Announced(s) && i in s.pending
    ensures Announced(Act(s, Send(i)))
  {
    assert |s.pending - {i}| == |s.pending| - 1;
  }

  /** In every interleaving of all display threads no codec is listed twice, exactly one
      announcement is sent per codec added, and once none is owed the last one is complete. */
  lemma {:induction false} OneAnnouncementPerCodec(states: seq<Shared>, actions: seq<Action>)
    requires IsRun(states, actions)
    ensures Announced(states[|actions|])
  {
    if |actions| > 0 {
      var n := |actions| - 1;
      OneAnnouncementPerCodec(states[..n + 1], actions[..n]);
      var s, a := states[n], actions[n];
      assert CanAct(s, a) && states[n + 1] == Act(s, a);
      match a
      case Find(i, format) => FindAnnounces(s, i, format);
      case Send(i) => SendAnnounces(s, i);
    }
  }

  /** The list holds the codecs some thread found unusable, and no other. */
  lemma {:induction false} ListedExactly(states: seq<Shared>, actions: seq<Action>, format: Format)
    requires IsRun(states, actions)
    ensures format in states[|actions|].unsupported <==>
              exists i :: 0 <= i < |actions| && actions[i].Find? && actions[i].format == format
  {
    if |actions| > 0 {
      var n := |actions| - 1;
      ListedExactly(states[..n + 1], actions[..n], format);
      assert states[n + 1] == Act(states[n], actions[n]);
      if i :| 0 <= i < n && actions[i].Find? && actions[i].format == format {
        assert actions[..n][i] == actions[i];
      }
    }
  }
}
