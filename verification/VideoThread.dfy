/** The video thread of one display: it owns the decoder, counts its failures, reports a codec it
    cannot decode, and recovers from a decoder stuck on an old picture size. */
module VideoThread {
  import opened Common

  const MAX_DECODE_FAIL_COUNTER := 3
  const USIZE_MAX := 0xFFFF_FFFF_FFFF_FFFF
  const SECOND := 1_000_000_000

  datatype Format = Vp8 | Vp9 | Av1 | H264 | H265 | Unknown

  /** A received frame: its codec, whether it carries coded data at all, and a key frame. */
  datatype Frame = Frame(format: Format, coded: bool, key: bool)

  /** What the decoder answers: a picture, no picture, an error. */
  datatype Decoded = Picture | Nothing | Error

  /** What the outside says while one frame is handled: the decoder's answer and validity, whether
      the picture is in memory (not a texture), how many pictures the renderer has refused in a row
      for their size, and four clock readings in the order they are taken. */
  datatype Outcome = Outcome(decoded: Decoded, valid: bool, pixels: bool, rejected: nat,
                             first: nat, cooled: nat, waited: nat, stamp: nat)

  datatype Media = Show(frame: Frame, outcome: Outcome) | Reset

  predicate Plausible(m: Media) {
    m.Show? ==>
      && (!m.frame.coded ==> m.frame.format == Unknown)
      && (m.frame.format == Unknown ==> !m.frame.key)
      && m.outcome.first <= m.outcome.cooled <= m.outcome.waited <= m.outcome.stamp
  }

  // The decoder's supervisor

  datatype Handler = Handler(format: Format, fails: nat, first: bool)

  function Fresh(format: Format): Handler {
    Handler(format, 0, true)
  }

  function Failed(h: Handler): Handler {
    if h.fails >= USIZE_MAX then h.(first := false)
    else if h.first && h.fails < MAX_DECODE_FAIL_COUNTER then
      Handler(h.format, MAX_DECODE_FAIL_COUNTER, false)
    else Handler(h.format, h.fails + 1, false)
  }

  function Answered(h: Handler, picture: bool): Handler {
    if picture then h.(fails := 0, first := false) else Failed(h)
  }

  function Handled(h: Handler, frame: Frame, decoded: Decoded): Handler {
    var h' := if frame.format != h.format then Fresh(frame.format) else h;
    if frame.coded then Answered(h', decoded == Picture) else h'
  }

  function Answer(frame: Frame, decoded: Decoded): Decoded {
    if frame.coded then decoded else Nothing
  }

  // The counter in closed form

  function TrailingFailures(answers: seq<bool>): nat {
    if |answers| == 0 || answers[|answers| - 1] then 0
    else 1 + TrailingFailures(answers[..|answers| - 1])
  }

  function Saturated(n: nat): nat {
    if n > USIZE_MAX then USIZE_MAX else n
  }

  /** The failures in a row, and two more if nothing was ever decoded. */
  function FailCount(answers: seq<bool>): nat {
    Saturated(TrailingFailures(answers) + (if answers != [] && true !in answers then 2 else 0))
  }

  /** The handler's counter is what the answers since the decoder was created come to. */
  predicate Counted(h: Handler, answers: seq<bool>) {
    h.fails == FailCount(answers) && h.first == (answers == [])
  }

  lemma AnswerCounts(h: Handler, answers: seq<bool>, picture: bool)
    requires Counted(h, answers)
    ensures Counted(Answered(h, picture), answers + [picture])
  {
    var answers' := answers + [picture];
    assert answers'[..|answers|] == answers;
    assert answers'[|answers|] == picture;
  }

  class VideoHandler {
    var format: Format
    var failCounter: nat
    var firstFrame: bool
    ghost var answers: seq<bool> // since the decoder was created: true for a picture

    ghost predicate Valid()
      reads this
    {
      Counted(View(), answers)
    }

    ghost function View(): Handler
      reads this
    {
      Handler(format, failCounter, firstFrame)
    }

    constructor (format: Format)
      ensures View() == Fresh(format) && Valid() && answers == []
    {
      this.format := format;
      failCounter := 0;
      firstFrame := true;
      answers := [];
    }

    method Reset(format: Option<Format>)
      modifies this
      ensures View() == Fresh(if format.Some? then format.value else old(this.format))
      ensures Valid() && answers == []
    {
      this.format := if format.Some? then format.value else this.format;
      failCounter := 0;
      firstFrame := true;
      answers := [];
    }

    method NoteAnswer(picture: bool)
      requires Valid()
      modifies this
      ensures Valid() && View() == Answered(old(View()), picture)
      ensures answers == old(answers) + [picture]
    {
      AnswerCounts(View(), answers, picture);
      answers := answers + [picture];
      if picture {
        failCounter := 0;
      } else if failCounter < USIZE_MAX {
        if firstFrame && failCounter < MAX_DECODE_FAIL_COUNTER {
          failCounter := MAX_DECODE_FAIL_COUNTER;
        } else {
          failCounter := failCounter + 1;
        }
      }
      firstFrame := false;
    }

    method HandleFrame(frame: Frame, decoded: Decoded) returns (res: Decoded)
      requires Valid()
      modifies this
      ensures Valid() && format == frame.format
      ensures answers == (if frame.format == old(format) then old(answers) else [])
                         + (if frame.coded then [decoded == Picture] else [])
      ensures res == Picture <==> frame.coded && decoded == Picture
      ensures View() == Handled(old(View()), frame, decoded) && res == Answer(frame, decoded)
    {
      if frame.format != format {
        Reset(Some(frame.format));
      }
      if !frame.coded {
        return Nothing;
      }
      NoteAnswer(decoded == Picture);
      return decoded;
    }
  }

  // The thread

  datatype Thread = Thread(handler: Option<Handler>, since: Option<nat>, awaiting: bool,
                           lastRefresh: Option<nat>)

  const Idle := Thread(None, None, false, None)

  /** A refresh asked for because of the picture size: when it was decided and when it was noted. */
  datatype Ask = Ask(asked: nat, noted: nat)

  function Elapsed(since: nat, now: nat): nat {
    if now >= since then now - since else 0
  }

  function Asks(rejected: nat, since: nat, last: Option<nat>, o: Outcome): bool {
    && rejected >= 5
    && Elapsed(since, o.waited) >= SECOND
    && (last.Some? ==> Elapsed(last.value, o.cooled) >= 5 * SECOND)
  }

  /** The handler that will take the frame, with the flags cleared if it is a new decoder. */
  function Prepared(t: Thread, frame: Frame): (p: Thread)
    ensures p.handler.Some?
  {
    var h := if t.handler.Some? then t.handler.value else Fresh(frame.format);
    if h.format != frame.format then Thread(Some(h), None, false, t.lastRefresh)
    else if t.awaiting && frame.key then Thread(Some(Fresh(h.format)), None, false, t.lastRefresh)
    else t.(handler := Some(h))
  }

  /** A decoded picture in memory: count refusals, and decide whether to ask for a key frame. */
  function Judged(t: Thread, o: Outcome): (Thread, Option<Ask>) {
    if o.rejected == 0 then (t.(since := None), None)
    else if t.awaiting then (t, None)
    else
      var since := if t.since.Some? then t.since.value else o.first;
      if Asks(o.rejected, since, t.lastRefresh, o) then
        (t.(since := Some(since), awaiting := true, lastRefresh := Some(o.stamp)),
         Some(Ask(o.waited, o.stamp)))
      else (t.(since := Some(since)), None)
  }

  function Shown(t: Thread, frame: Frame, o: Outcome): (r: (Thread, Option<Ask>))
    ensures r.0.handler.Some?
  {
    var p := Prepared(t, frame);
    var t' := p.(handler := Some(Handled(p.handler.value, frame, o.decoded)));
    if Answer(frame, o.decoded) == Picture && o.pixels then Judged(t', o) else (t', None)
  }

  function Step(t: Thread, m: Media): (Thread, Option<Ask>) {
    match m
    case Show(frame, o) => Shown(t, frame, o)
    case Reset =>
      (Thread(if t.handler.Some? then Some(Fresh(t.handler.value.format)) else None,
              None, false, t.lastRefresh), None)
  }

  /** The codec the thread finds unusable after a frame. */
  function Unusable(t: Thread, m: Media): Option<Format> {
    if m.Show? && t.handler.Some?
       && (!m.outcome.valid || t.handler.value.fails >= MAX_DECODE_FAIL_COUNTER)
    then Some(t.handler.value.format) else None
  }

  function Run(t: Thread, ms: seq<Media>): Thread {
    if |ms| == 0 then t else Step(Run(t, ms[..|ms| - 1]), ms[|ms| - 1]).0
  }

  function AllAsks(t: Thread, ms: seq<Media>): seq<Ask> {
    if |ms| == 0 then []
    else
      var n := |ms| - 1;
      var ask := Step(Run(t, ms[..n]), ms[n]).1;
      AllAsks(t, ms[..n]) + (if ask.Some? then [ask.value] else [])
  }

  /** The codecs found unusable, in order, once per frame that finds so. */
  function AllUnusable(t: Thread, ms: seq<Media>): seq<Format> {
    if |ms| == 0 then []
    else
      var n := |ms| - 1;
      var u := Unusable(Run(t, ms), ms[n]);
      AllUnusable(t, ms[..n]) + (if u.Some? then [u.value] else [])
  }

  /** A picture in memory: how long they have been refused, and whether to ask for a key frame. */
  method JudgePicture(o: Outcome, since0: Option<nat>, awaiting0: bool, lastRefresh0: Option<nat>)
    returns (since: Option<nat>, awaiting: bool, lastRefresh: Option<nat>, ask: Option<Ask>)
    ensures forall h :: Judged(Thread(h, since0, awaiting0, lastRefresh0), o)
                     == (Thread(h, since, awaiting, lastRefresh), ask)
  {
    since, awaiting, lastRefresh, ask := since0, awaiting0, lastRefresh0, None;
    if o.rejected == 0 {
      since := None;
    } else if !awaiting {
      var start := if since.Some? then since.value else o.first;
      since := Some(start);
      var cooled := lastRefresh.Some? ==> Elapsed(lastRefresh.value, o.cooled) >= 5 * SECOND;
      if o.rejected >= 5 && Elapsed(start, o.waited) >= SECOND && cooled {
        ask := Some(Ask(o.waited, o.stamp));
        awaiting := true;
        lastRefresh := Some(o.stamp);
      }
    }
  }

  /** One received frame: a new decoder if the codec changed or the awaited key frame came, decoding,
      and the verdict on the picture. */
  method ShowFrame(handler: VideoHandler, frame: Frame, o: Outcome,
                   since0: Option<nat>, awaiting0: bool, lastRefresh0: Option<nat>)
    returns (since: Option<nat>, awaiting: bool, lastRefresh: Option<nat>, ask: Option<Ask>)
    requires handler.Valid()
    modifies handler
    ensures handler.Valid()
    ensures Shown(Thread(Some(old(handler.View())), since0, awaiting0, lastRefresh0), frame, o)
         == (Thread(Some(handler.View()), since, awaiting, lastRefresh), ask)
  {
    since, awaiting, lastRefresh, ask := since0, awaiting0, lastRefresh0, None;
    if handler.format != frame.format {
      awaiting := false;
      since := None;
    } else if awaiting && frame.key {
      handler.Reset(None);
      awaiting := false;
      since := None;
    }
    var res := handler.HandleFrame(frame, o.decoded);
    if res == Picture && o.pixels {
      since, awaiting, lastRefresh, ask := JudgePicture(o, since, awaiting, lastRefresh);
    }
  }

  /** The loop of the thread over everything it receives. */
  method ReceiveAll(media: seq<Media>) returns (asks: seq<Ask>, unusable: seq<Format>)
    ensures asks == AllAsks(Idle, media)
    ensures unusable == AllUnusable(Idle, media)
  {
    var handler: VideoHandler? := null;
    var since: Option<nat> := None;
    var awaiting := false;
    var lastRefresh: Option<nat> := None;
    asks, unusable := [], [];
    for i := 0 to |media|
      invariant handler != null ==> fresh(handler) && handler.Valid()
      invariant Run(Idle, media[..i])
             == Thread(if handler == null then None else Some(handler.View()), since, awaiting, lastRefresh)
      invariant asks == AllAsks(Idle, media[..i]) && unusable == AllUnusable(Idle, media[..i])
    {
      assert media[..i + 1][..i] == media[..i];
      match media[i]
      case Show(frame, o) =>
        if handler == null {
          handler := new VideoHandler(frame.format);
        }
        var ask;
        since, awaiting, lastRefresh, ask := ShowFrame(handler, frame, o, since, awaiting, lastRefresh);
        asks := asks + (if ask.Some? then [ask.value] else []);
        if !o.valid || handler.failCounter >= MAX_DECODE_FAIL_COUNTER {
          unusable := unusable + [handler.format];
        }
      case Reset =>
        if handler != null {
          handler.Reset(None);
        }
        awaiting := false;
        since := None;
    }
    assert media[..|media|] == media;
  }
}
