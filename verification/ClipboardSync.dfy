/** Clipboard synchronisation between two or more machines. A machine that notices a change reads
    its clipboard and sends it; a machine that receives one writes it together with an owner marker,
    which makes its own change event read as nothing. */
module ClipboardSync {
  import opened Common
  import opened Clipboard

  datatype Side = Host | Client

  // "dyn.com.rustdesk.owner"
  const OWNER_FORMAT: Bytes :=
    [100, 121, 110, 46, 99, 111, 109, 46, 114, 117, 115, 116, 100, 101, 115, 107, 46, 111, 119, 110, 101, 114]

  function OwnerData(side: Side): Bytes {
    if side == Host then [1] else [2]
  }

  /** Either side's marker stops a read on either side. */
  predicate IsOwner(data: Bytes) {
    |data| > 0 && data[0] % 4 != 0
  }

  predicate IsMarker(x: Data) {
    x.Special? && x.name == OWNER_FORMAT && IsOwner(x.data)
  }

  predicate Marked(board: seq<Data>) {
    exists k | 0 <= k < |board| :: IsMarker(board[k])
  }

  function AppendOwnerMarker(data: seq<Data>, side: Side): (board: seq<Data>)
    ensures |board| == |data| + 1 && data <= board && IsMarker(board[|data|]) && Marked(board)
  {
    var board := data + [Special(OWNER_FORMAT, OwnerData(side))];
    assert IsMarker(board[|data|]);
    board
  }

  /** Markers and empty texts are not sent. */
  predicate Sendable(x: Data) {
    && !(x.Special? && x.name == OWNER_FORMAT)
    && !(x.Text? && x.text == [])
    && !x.Absent?
  }

  function Sift(board: seq<Data>): seq<Data> {
    if |board| == 0 then []
    else if Sendable(board[0]) then [board[0]] + Sift(board[1..]) else Sift(board[1..])
  }

  predicate HoldsFiles(xs: seq<Data>) {
    exists k | 0 <= k < |xs| :: xs[k].FileUrl?
  }

  /** What a change event reads: nothing from a marked clipboard unless forced, and nothing of one
      that holds files, which have a service of their own. */
  function Read(board: seq<Data>, force: bool): seq<Data> {
    if !force && Marked(board) then []
    else if HoldsFiles(Sift(board)) then []
    else Sift(board)
  }

  // The network

  datatype Msg = Msg(from: nat, to: nat, items: seq<Item>)

  /** Each machine's clipboard and undelivered change events, and the messages under way. `copies`
      records what users put on each clipboard. */
  datatype Net = Net(boards: seq<seq<Data>>, pending: seq<nat>, flying: seq<Msg>,
                     copies: set<(nat, seq<Data>)>)

  datatype Move =
    | Copy(at: nat, data: seq<Data>)          // a user copies
    | Notice(at: nat, to: seq<nat>)           // a change event is handled, the peers are sent to
    | Coalesce(at: nat)                       // the system drops a change event
    | Deliver(msg: nat, side: Side, ok: bool) // a message arrives; writing it may fail

  predicate Valid(n: Net) {
    |n.boards| == |n.pending| && forall k :: 0 <= k < |n.flying| ==>
      n.flying[k].to < |n.boards| && ValidItems(n.flying[k].items)
  }

  /** `fan` bounds how many peers one machine sends to. */
  predicate CanMove(n: Net, m: Move, fan: nat)
    requires Valid(n)
  {
    match m
    case Copy(i, _) => i < |n.boards|
    case Notice(i, to) =>
      i < |n.boards| && n.pending[i] > 0 && |to| <= fan && forall k :: 0 <= k < |to| ==> to[k] < |n.boards|
    case Coalesce(i) => i < |n.boards| && n.pending[i] > 0
    case Deliver(k, _, _) => k < |n.flying|
  }

  function Sent(from: nat, to: seq<nat>, items: seq<Item>): seq<Msg> {
    seq(|to|, k requires 0 <= k < |to| => Msg(from, to[k], items))
  }

  function Step(c: Codec, n: Net, m: Move, fan: nat): (n': Net)
    requires Valid(n) && CanMove(n, m, fan)
    ensures Valid(n') && |n'.boards| == |n.boards|
  {
    match m
    case Copy(i, data) =>
      n.(boards := n.boards[i := data], pending := n.pending[i := n.pending[i] + 1],
         copies := n.copies + {(i, data)})
    case Notice(i, to) =>
      var content := Read(n.boards[i], false);
      n.(pending := n.pending[i := n.pending[i] - 1],
         flying := n.flying + (if content == [] then [] else Sent(i, to, CreateMulti(c, content))))
    case Coalesce(i) => n.(pending := n.pending[i := n.pending[i] - 1])
    case Deliver(k, side, ok) =>
      var msg := n.flying[k];
      var data := FromMulti(c, msg.items);
      var rest := n.(flying := n.flying[..k] + n.flying[k + 1..]);
      if data == [] || !ok then rest
      else rest.(boards := n.boards[msg.to := AppendOwnerMarker(data, side)],
                 pending := n.pending[msg.to := n.pending[msg.to] + 1])
  }

  // Traffic dies out

  function Weight(marked: bool, fan: nat): nat {
    if marked then 1 else 1 + 2 * fan
  }

  /** Events weigh more where handling them can still send, messages more than the events they cause. */
  function Load(boards: seq<seq<Data>>, pending: seq<nat>, fan: nat): nat
    requires |boards| == |pending|
  {
    if |boards| == 0 then 0
    else pending[0] * Weight(Marked(boards[0]), fan) + Load(boards[1..], pending[1..], fan)
  }

  function Measure(n: Net, fan: nat): nat
    requires Valid(n)
  {
    Load(n.boards, n.pending, fan) + 2 * |n.flying|
  }

  lemma {:induction false} LoadUpdate(boards: seq<seq<Data>>, pending: seq<nat>, fan: nat, i: nat,
                                      board: seq<Data>, p: nat)
    requires |boards| == |pending| && i < |boards|
    ensures Load(boards[i := board], pending[i := p], fan)
         == Load(boards, pending, fan) - pending[i] * Weight(Marked(boards[i]), fan)
            + p * Weight(Marked(board), fan)
  {
    var boards', pending' := boards[i := board], pending[i := p];
    if i == 0 {
      assert boards'[1..] == boards[1..] && pending'[1..] == pending[1..];
    } else {
      LoadUpdate(boards[1..], pending[1..], fan, i - 1, board, p);
      assert boards'[1..] == boards[1..][i - 1 := board] && pending'[1..] == pending[1..][i - 1 := p];
    }
  }

  /** Only an unmarked clipboard makes a machine send. */
  lemma NoticeSends(c: Codec, n: Net, m: Move, fan: nat)
    requires Valid(n) && CanMove(n, m, fan) && m.Notice?
    ensures |Step(c, n, m, fan).flying| <= |n.flying| + (if Marked(n.boards[m.at]) then 0 else fan)
  {
  }

  lemma LoadLessOne(boards: seq<seq<Data>>, pending: seq<nat>, fan: nat, i: nat)
    requires |boards| == |pending| && i < |boards| && pending[i] > 0
    ensures Load(boards, pending[i := pending[i] - 1], fan)
         == Load(boards, pending, fan) - Weight(Marked(boards[i]), fan)
  {
    var p, w := pending[i], Weight(Marked(boards[i]), fan);
    LoadUpdate(boards, pending, fan, i, boards[i], p - 1);
    assert boards[i := boards[i]] == boards;
    TakeOne(p, w);
  }

  lemma TakeOne(p: nat, w: nat)
    ensures (p - 1) * w == p * w - w
  {
  }

  lemma NoticeDecreases(c: Codec, n: Net, m: Move, fan: nat)
    requires Valid(n) && CanMove(n, m, fan) && m.Notice?
    ensures Measure(Step(c, n, m, fan), fan) < Measure(n, fan)
  {
    NoticeSends(c, n, m, fan);
    LoadLessOne(n.boards, n.pending, fan, m.at);
  }

  lemma CoalesceDecreases(c: Codec, n: Net, m: Move, fan: nat)
    requires Valid(n) && CanMove(n, m, fan) && m.Coalesce?
    ensures Measure(Step(c, n, m, fan), fan) < Measure(n, fan)
  {
    LoadLessOne(n.boards, n.pending, fan, m.at);
  }

  lemma DeliverDecreases(c: Codec, n: Net, m: Move, fan: nat)
    requires Valid(n) && CanMove(n, m, fan) && m.Deliver?
    ensures Measure(Step(c, n, m, fan), fan) < Measure(n, fan)
  {
    var msg := n.flying[m.msg];
    var data := FromMulti(c, msg.items);
    if data != [] && m.ok {
      var i, board := msg.to, AppendOwnerMarker(data, m.side);
      var p, w := n.pending[i], Weight(Marked(n.boards[i]), fan);
      LoadUpdate(n.boards, n.pending, fan, i, board, p + 1);
      AtLeastOnce(p, w);
    }
  }

  lemma AtLeastOnce(p: nat, w: nat)
    requires w >= 1
    ensures (p + 1) * 1 <= p * w + 1
  {
  }

  predicate Quiet(m: Move) {
    !m.Copy?
  }

  function RunAll(c: Codec, n: Net, ms: seq<Move>, fan: nat): (n': Net)
    requires Valid(n) && CanRun(c, n, ms, fan)
    ensures Valid(n') && |n'.boards| == |n.boards|
    decreases |ms|
  {
    if |ms| == 0 then n else RunAll(c, Step(c, n, ms[0], fan), ms[1..], fan)
  }

  predicate CanRun(c: Codec, n: Net, ms: seq<Move>, fan: nat)
    requires Valid(n)
    decreases |ms|
  {
    |ms| == 0 || (CanMove(n, ms[0], fan) && CanRun(c, Step(c, n, ms[0], fan), ms[1..], fan))
  }

  /** Once users stop copying, no interleaving of events and deliveries goes on for longer than the
      measure of the state it started from: the synchronisation never echoes. */
  lemma {:induction false} TrafficDiesOut(c: Codec, n: Net, ms: seq<Move>, fan: nat)
    requires Valid(n) && CanRun(c, n, ms, fan) && forall k :: 0 <= k < |ms| ==> Quiet(ms[k])
    ensures |ms| + Measure(RunAll(c, n, ms, fan), fan) <= Measure(n, fan)
    decreases |ms|
  {
    if |ms| > 0 {
      if ms[0].Deliver? {
        DeliverDecreases(c, n, ms[0], fan);
      } else if ms[0].Notice? {
        NoticeDecreases(c, n, ms[0], fan);
      } else {
        CoalesceDecreases(c, n, ms[0], fan);
      }
      TrafficDiesOut(c, Step(c, n, ms[0], fan), ms[1..], fan);
    }
  }

  // Nothing received is sent on

  /** A clipboard is empty, or marked, or exactly what a user copied there; a message under way
      carries what its sender's user copied. */
  ghost predicate Own(c: Codec, n: Net) {
    && (forall i :: 0 <= i < |n.boards| ==>
          n.boards[i] == [] || Marked(n.boards[i]) || (i, n.boards[i]) in n.copies)
    && (forall k :: 0 <= k < |n.flying| ==> FromCopy(c, n, n.flying[k]))
  }

  ghost predicate FromCopy(c: Codec, n: Net, msg: Msg) {
    exists data :: (msg.from, data) in n.copies && msg.items == CreateMulti(c, Read(data, false))
  }

  lemma StepKeepsOwn(c: Codec, n: Net, m: Move, fan: nat)
    requires Valid(n) && CanMove(n, m, fan) && Own(c, n)
    ensures Own(c, Step(c, n, m, fan))
  {
    var n' := Step(c, n, m, fan);
    forall k | 0 <= k < |n'.flying| ensures FromCopy(c, n', n'.flying[k]) {
      var msg := n'.flying[k];
      if m.Notice? && k >= |n.flying| {
        var data := n.boards[m.at];
        assert (msg.from, data) in n'.copies && msg.items == CreateMulti(c, Read(data, false));
      } else {
        assert msg in n.flying;
        assert FromCopy(c, n, msg);
        var data :| (msg.from, data) in n.copies && msg.items == CreateMulti(c, Read(data, false));
        assert (msg.from, data) in n'.copies;
      }
    }
  }

  function Begin(machines: nat): Net {
    Net(seq(machines, _ => []), seq(machines, _ => 0), [], {})
  }

  lemma {:induction false} RunKeepsOwn(c: Codec, n: Net, ms: seq<Move>, fan: nat)
    requires Valid(n) && CanRun(c, n, ms, fan) && Own(c, n)
    ensures Own(c, RunAll(c, n, ms, fan))
    decreases |ms|
  {
    if |ms| > 0 {
      StepKeepsOwn(c, n, ms[0], fan);
      RunKeepsOwn(c, Step(c, n, ms[0], fan), ms[1..], fan);
    }
  }

  /** In every reachable state, copying included, each message under way was copied by a user of its
      sender, and if the wire is faithful to every item of it, what it delivers is what was copied. */
  lemma OnlyCopiesTravel(c: Codec, machines: nat, ms: seq<Move>, fan: nat, k: nat)
      returns (data: seq<Data>)
    requires Lawful(c) && CanRun(c, Begin(machines), ms, fan)
    requires k < |RunAll(c, Begin(machines), ms, fan).flying|
    ensures var n := RunAll(c, Begin(machines), ms, fan);
            && (n.flying[k].from, data) in n.copies
            && ((forall j :: 0 <= j < |Read(data, false)| ==>
                   WellFormed(c, Read(data, false)[j]) && Faithful(c, Read(data, false)[j]))
                ==> FromMulti(c, n.flying[k].items) == Kept(Read(data, false)))
  {
    var n := RunAll(c, Begin(machines), ms, fan);
    RunKeepsOwn(c, Begin(machines), ms, fan);
    assert FromCopy(c, n, n.flying[k]);
    data :| (n.flying[k].from, data) in n.copies && n.flying[k].items == CreateMulti(c, Read(data, false));
    if forall j :: 0 <= j < |Read(data, false)| ==>
         WellFormed(c, Read(data, false)[j]) && Faithful(c, Read(data, false)[j]) {
      ListRoundTrip(c, Read(data, false));
    }
  }

  // What is copied arrives

  lemma CopyIsSent(c: Codec, n: Net, i: nat, j: nat, data: seq<Data>, fan: nat)
    requires Valid(n) && i < |n.boards| && j < |n.boards| && fan >= 1 && Read(data, false) != []
    ensures var n1 := Step(c, n, Copy(i, data), fan);
            && CanMove(n1, Notice(i, [j]), fan)
            && (var n2 := Step(c, n1, Notice(i, [j]), fan);
                && n2.boards == n.boards[i := data] && n2.pending == n.pending
                && n2.flying == n.flying + [Msg(i, j, CreateMulti(c, Read(data, false)))])
  {
    var n1 := Step(c, n, Copy(i, data), fan);
    assert CanMove(n1, Notice(i, [j]), fan);
    assert Sent(i, [j], CreateMulti(c, Read(data, false))) == [Msg(i, j, CreateMulti(c, Read(data, false)))];
  }

  /** What a change event may send of a clipboard, kind by kind. */
  predicate Travels(x: Data) {
    match x
    case Text(s) => s != []
    case Special(name, _) => name != OWNER_FORMAT
    case Absent => false
    case _ => true
  }

  predicate Rising(at: seq<nat>) {
    forall k, l :: 0 <= k < l < |at| ==> at[k] < at[l]
  }

  predicate Placed(board: seq<Data>, items: seq<Data>, at: seq<nat>) {
    && |at| == |items|
    && forall k :: 0 <= k < |at| ==> at[k] < |board| && items[k] == board[at[k]] && Travels(items[k])
  }

  predicate Complete(board: seq<Data>, at: seq<nat>) {
    forall i :: 0 <= i < |board| && Travels(board[i]) ==> i in at
  }

  /** `items` are, in their order, the elements of the clipboard that travel, and `at` says where they stood. */
  predicate IsSelection(board: seq<Data>, items: seq<Data>, at: seq<nat>) {
    Rising(at) && Placed(board, items, at) && Complete(board, at)
  }

  function Shifted(at: seq<nat>): (r: seq<nat>)
    ensures |r| == |at| && forall k :: 0 <= k < |at| ==> r[k] == at[k] + 1
  {
    seq(|at|, k requires 0 <= k < |at| => at[k] + 1)
  }

  lemma ShiftedIn(at: seq<nat>, i: nat)
    requires i in at
    ensures i + 1 in Shifted(at)
  {
    var k :| 0 <= k < |at| && at[k] == i;
    assert Shifted(at)[k] == i + 1;
  }

  lemma CompleteShifted(board: seq<Data>, at: seq<nat>)
    requires |board| > 0 && Complete(board[1..], at)
    ensures forall i :: 0 < i < |board| && Travels(board[i]) ==> i in Shifted(at)
  {
    forall i | 0 < i < |board| && Travels(board[i]) ensures i in Shifted(at) {
      assert board[1..][i - 1] == board[i];
      ShiftedIn(at, i - 1);
    }
  }

  lemma PlacedShifted(board: seq<Data>, items: seq<Data>, at: seq<nat>)
    requires |board| > 0 && Placed(board[1..], items, at)
    ensures Placed(board, items, Shifted(at))
  {
    var at' := Shifted(at);
    forall k | 0 <= k < |at'|
      ensures at'[k] < |board| && items[k] == board[at'[k]] && Travels(items[k])
    {
      assert at'[k] == at[k] + 1 && items[k] == board[1..][at[k]];
    }
  }

  lemma RisingShifted(at: seq<nat>)
    requires Rising(at)
    ensures Rising(Shifted(at)) && Rising([0] + Shifted(at))
  {
  }

  lemma SelectionSkips(board: seq<Data>, items: seq<Data>, at: seq<nat>)
    requires |board| > 0 && !Travels(board[0]) && IsSelection(board[1..], items, at)
    ensures IsSelection(board, items, Shifted(at))
  {
    RisingShifted(at);
    PlacedShifted(board, items, at);
    CompleteShifted(board, at);
  }

  lemma PlacedTakes(board: seq<Data>, items: seq<Data>, at: seq<nat>)
    requires |board| > 0 && Travels(board[0]) && Placed(board[1..], items, at)
    ensures Placed(board, [board[0]] + items, [0] + Shifted(at))
  {
    PlacedShifted(board, items, at);
  }

  lemma CompleteTakes(board: seq<Data>, at: seq<nat>)
    requires |board| > 0 && Complete(board[1..], at)
    ensures Complete(board, [0] + Shifted(at))
  {
    CompleteShifted(board, at);
    assert ([0] + Shifted(at))[0] == 0;
  }

  lemma SelectionTakes(board: seq<Data>, items: seq<Data>, at: seq<nat>)
    requires |board| > 0 && Travels(board[0]) && IsSelection(board[1..], items, at)
    ensures IsSelection(board, [board[0]] + items, [0] + Shifted(at))
  {
    RisingShifted(at);
    PlacedTakes(board, items, at);
    CompleteTakes(board, at);
  }

  lemma {:induction false} SiftSelects(board: seq<Data>) returns (at: seq<nat>)
    ensures IsSelection(board, Sift(board), at)
  {
    if |board| == 0 {
      at := [];
    } else {
      var rest := SiftSelects(board[1..]);
      if Travels(board[0]) {
        SelectionTakes(board, Sift(board[1..]), rest);
        at := [0] + Shifted(rest);
      } else {
        SelectionSkips(board, Sift(board[1..]), rest);
        at := Shifted(rest);
      }
    }
  }

  lemma FilesStay(board: seq<Data>)
    ensures HoldsFiles(Sift(board)) <==> exists k :: 0 <= k < |board| && board[k].FileUrl?
  {
    var at := SiftSelects(board);
    if k :| 0 <= k < |board| && board[k].FileUrl? {
      var l :| 0 <= l < |at| && at[l] == k;
      assert Sift(board)[l].FileUrl?;
    }
  }

  lemma MarkedBits(board: seq<Data>)
    ensures Marked(board) <==> exists k :: 0 <= k < |board| && board[k].Special? && board[k].name == OWNER_FORMAT
                                 && board[k].data != [] && board[k].data[0] % 4 in {1, 2, 3}
  {
    if k :| 0 <= k < |board| && board[k].Special? && board[k].name == OWNER_FORMAT && IsOwner(board[k].data) {
      assert IsMarker(board[k]);
    }
  }

  /** Nothing is read exactly from a clipboard that carries, unless the read is forced, an owner marker
      with one of the two lowest bits of its first byte set, or a file, or nothing that travels. */
  lemma ReadsNothing(board: seq<Data>, force: bool)
    ensures Read(board, force) == [] <==>
      || (!force && exists k :: 0 <= k < |board| && board[k].Special? && board[k].name == OWNER_FORMAT
                      && board[k].data != [] && board[k].data[0] % 4 in {1, 2, 3})
      || (exists k :: 0 <= k < |board| && board[k].FileUrl?)
      || (forall k :: 0 <= k < |board| ==> !Travels(board[k]))
  {
    var at := SiftSelects(board);
    FilesStay(board);
    MarkedBits(board);
    if Sift(board) != [] {
      assert Travels(board[at[0]]);
    }
  }

  /** Otherwise all that travels is read, in its order. */
  lemma ReadsAll(board: seq<Data>, force: bool) returns (at: seq<nat>)
    requires Read(board, force) != []
    ensures IsSelection(board, Read(board, force), at)
  {
    at := SiftSelects(board);
  }

  /** A clipboard a change event sends: no marker, no files, something that travels, and every such
      element survives the wire. */
  predicate Shareable(c: Codec, data: seq<Data>) {
    && !Marked(data)
    && (forall k :: 0 <= k < |data| ==> !data[k].FileUrl?)
    && (exists k :: 0 <= k < |data| && Travels(data[k]))
    && (forall k :: 0 <= k < |data| && Travels(data[k]) ==> WellFormed(c, data[k]) && Faithful(c, data[k]))
  }

  lemma SharedContent(c: Codec, data: seq<Data>) returns (items: seq<Data>, at: seq<nat>)
    requires Shareable(c, data)
    ensures items == Read(data, false) && items != [] && IsSelection(data, items, at)
    ensures forall k :: 0 <= k < |items| ==> WellFormed(c, items[k]) && Faithful(c, items[k])
  {
    items := Read(data, false);
    MarkedBits(data);
    ReadsNothing(data, false);
    at := ReadsAll(data, false);
  }

  /** Whatever else is going on: a copy that is noticed and delivered puts on the other clipboard what
      travels of the first one, in its order, and the deliverer's owner marker behind it; the event this
      causes there sends nothing. */
  lemma CopyArrives(c: Codec, n: Net, i: nat, j: nat, data: seq<Data>, side: Side, to: seq<nat>, fan: nat)
    returns (items: seq<Data>, at: seq<nat>)
    requires Lawful(c) && Valid(n) && i < |n.boards| && j < |n.boards| && 1 <= fan && |to| <= fan
    requires forall k :: 0 <= k < |to| ==> to[k] < |n.boards|
    requires Shareable(c, data)
    ensures IsSelection(data, items, at)
    ensures var moves := [Copy(i, data), Notice(i, [j]), Deliver(|n.flying|, side, true), Notice(j, to)];
            && CanRun(c, n, moves, fan)
            && (var n' := RunAll(c, n, moves, fan);
                && n'.boards == n.boards[i := data]
                                        [j := items + [Special(OWNER_FORMAT, if side == Host then [1] else [2])]]
                && n'.pending == n.pending && n'.flying == n.flying)
  {
    items, at := SharedContent(c, data);
    CopyIsSent(c, n, i, j, data, fan);
    ListRoundTrip(c, items);
    KeptAll(items);
    var n2 := Step(c, Step(c, n, Copy(i, data), fan), Notice(i, [j]), fan);
    CopyIsDelivered(c, n2, n.flying, Msg(i, j, CreateMulti(c, items)), items, side, to, fan);
    FourSteps(c, n, Copy(i, data), Notice(i, [j]), Deliver(|n.flying|, side, true), Notice(j, to), fan);
  }

  /** The message sent last is delivered, and the event that causes sends nothing on. */
  lemma CopyIsDelivered(c: Codec, n: Net, before: seq<Msg>, msg: Msg, content: seq<Data>, side: Side,
                        to: seq<nat>, fan: nat)
    requires Valid(n) && n.flying == before + [msg] && msg.to < |n.boards| && |to| <= fan
    requires forall k :: 0 <= k < |to| ==> to[k] < |n.boards|
    requires ValidItems(msg.items) && FromMulti(c, msg.items) == content && content != []
    ensures var d := Deliver(|before|, side, true);
            && CanMove(n, d, fan)
            && (var n3 := Step(c, n, d, fan);
                && CanMove(n3, Notice(msg.to, to), fan)
                && (var n4 := Step(c, n3, Notice(msg.to, to), fan);
                    && n4.boards == n.boards[msg.to := AppendOwnerMarker(content, side)]
                    && n4.pending == n.pending && n4.flying == before))
  {
    var d := Deliver(|before|, side, true);
    assert n.flying[..|before|] + n.flying[|before| + 1..] == before;
    var n3 := Step(c, n, d, fan);
    assert n3.boards[msg.to] == AppendOwnerMarker(content, side);
    assert Step(c, n3, Notice(msg.to, to), fan).pending == n.pending;
  }

  lemma KeptAll(xs: seq<Data>)
    requires forall k :: 0 <= k < |xs| ==> Supported(xs[k])
    ensures Kept(xs) == xs
  {
    if |xs| > 0 {
      KeptAll(xs[1..]);
    }
  }

  lemma RunStep(c: Codec, n: Net, m: Move, rest: seq<Move>, fan: nat)
    requires Valid(n) && CanMove(n, m, fan) && CanRun(c, Step(c, n, m, fan), rest, fan)
    ensures CanRun(c, n, [m] + rest, fan)
    ensures RunAll(c, n, [m] + rest, fan) == RunAll(c, Step(c, n, m, fan), rest, fan)
  {
    assert ([m] + rest)[1..] == rest;
  }

  lemma FourSteps(c: Codec, n: Net, a: Move, b: Move, d: Move, e: Move, fan: nat)
    requires Valid(n) && CanMove(n, a, fan)
    requires CanMove(Step(c, n, a, fan), b, fan)
    requires CanMove(Step(c, Step(c, n, a, fan), b, fan), d, fan)
    requires CanMove(Step(c, Step(c, Step(c, n, a, fan), b, fan), d, fan), e, fan)
    ensures CanRun(c, n, [a, b, d, e], fan)
    ensures RunAll(c, n, [a, b, d, e], fan) == Step(c, Step(c, Step(c, Step(c, n, a, fan), b, fan), d, fan), e, fan)
  {
    var n1 := Step(c, n, a, fan);
    var n2 := Step(c, n1, b, fan);
    var n3 := Step(c, n2, d, fan);
    RunStep(c, n3, e, [], fan);
    RunStep(c, n2, d, [e] + [], fan);
    RunStep(c, n1, b, [d] + ([e] + []), fan);
    RunStep(c, n, a, [b] + ([d] + ([e] + [])), fan);
    assert [a] + ([b] + ([d] + ([e] + []))) == [a, b, d, e];
  }
}
