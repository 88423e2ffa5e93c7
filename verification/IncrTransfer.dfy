/** The INCR transfer of clipboard/manager.go, per section 2.7.2 of the ICCCM: sendTargetIncr and
    receiveTargetIncr running against each other over one window property. Every write, read and deletion
    of the property, every hook registration and every event delivery is a separate step, and the steps of
    the two sides interleave freely. Two things are one step each: the pair of GetProperty calls that
    sizes and then fetches one value, and the header write with the SelectionNotify sent after it. */
module IncrTransfer {
  import opened Collections

  type Byte = b: int | 0 <= b < 256

  /** selectionMaxSize. */
  const CHUNK: nat := 65432
  /** The type atom that announces an incremental transfer. */
  const ATOM_INCR: int := 1

  /** The contents of a property, and equally a TargetData: type, format and data, a whole number of format units. */
  datatype Content = Content(kind: int, format: int, data: seq<Byte>)

  datatype Event = NewValue | Deleted | SelectionNotify

  datatype Sender =
    | Announce(hooked: bool)
    | AwaitStart
    | Send(offset: nat, hooked: bool)
    | AwaitDelete(offset: nat, length: nat)
    | SenderDone

  datatype Receiver =
    | AwaitSelection
    | ReadHeader
    | Clear(hooked: bool)
    | AwaitNew
    | ReadChunk
    | Finish(kind: int, format: int)
    | ReceiverDone(result: Content)

  /** The property, the events the X server still has to deliver to each side, both program counters,
      the chunks the receiver holds and a log of the chunks the sender wrote. */
  datatype State = State(
    slot: Option<Content>,
    toSender: seq<Event>,
    toReceiver: seq<Event>,
    sender: Sender,
    receiver: Receiver,
    got: seq<seq<Byte>>,
    sent: seq<seq<Byte>>)

  datatype Action = SenderStep | SenderEvent | ReceiverStep | ReceiverEvent

  const START: State := State(None, [], [], Announce(false), AwaitSelection, [], [])

  function ChunkLength(remaining: nat): nat {
    if remaining > CHUNK then CHUNK else remaining
  }

  function Join(chunks: seq<seq<Byte>>): seq<Byte> {
    if chunks == [] then [] else chunks[0] + Join(chunks[1..])
  }

  /** The data cut into pieces of CHUNK bytes. */
  function Split(data: seq<Byte>): seq<seq<Byte>>
    decreases |data|
  {
    if data == [] then []
    else
      var n := ChunkLength(|data|);
      [data[..n]] + Split(data[n..])
  }

  lemma {:induction false} SplitShape(data: seq<Byte>)
    ensures |Split(data)| == (|data| + CHUNK - 1) / CHUNK
    ensures forall i :: 0 <= i < |Split(data)| ==> 0 < |Split(data)[i]| <= CHUNK
    ensures forall i :: 0 <= i < |Split(data)| - 1 ==> |Split(data)[i]| == CHUNK
    decreases |data|
  {
    if data != [] {
      SplitShape(data[ChunkLength(|data|)..]);
    }
  }

  /** The header: the length, truncated to 32 bits by the Write4b call. */
  function Header(data: seq<Byte>): Content {
    var n := |data| % 0x1_0000_0000;
    Content(ATOM_INCR, 32, [n % 256, n / 256 % 256, n / 65536 % 256, n / 16777216 % 256])
  }

  /** What the header says: type INCR, one 32-bit number, the length modulo 2^32 with its low byte first. */
  lemma HeaderSaysLength(data: seq<Byte>)
    ensures var h := Header(data);
            && h.kind == ATOM_INCR && h.format == 32 && |h.data| == 4
            && var b0: int, b1: int, b2: int, b3: int := h.data[0], h.data[1], h.data[2], h.data[3];
               b0 + 256 * (b1 + 256 * (b2 + 256 * b3)) == |data| % 4294967296
  {
    var n := |data| % 4294967296;
    assert n / 65536 == n / 256 / 256 && n / 16777216 == n / 65536 / 256;
  }

  // ---- steps ----

  function Write(s: State, p: Content, next: Sender): State {
    s.(slot := Some(p), toSender := s.toSender + [NewValue], toReceiver := s.toReceiver + [NewValue], sender := next)
  }

  /** Deleting a property that does not exist raises no event. */
  function Delete(s: State, next: Receiver): State {
    if s.slot.None? then s.(receiver := next)
    else s.(slot := None, toSender := s.toSender + [Deleted], toReceiver := s.toReceiver + [Deleted], receiver := next)
  }

  predicate SenderHooked(p: Sender) {
    p.AwaitStart? || p.AwaitDelete? || (p.Announce? && p.hooked) || (p.Send? && p.hooked)
  }

  /** handleEvent hands a matching event over only once the other goroutine waits for it. */
  predicate Enabled(s: State, a: Action) {
    match a
    case SenderStep => s.sender.Announce? || s.sender.Send?
    case SenderEvent =>
      s.toSender != []
      && !(s.toSender[0] == Deleted && SenderHooked(s.sender) && (s.sender.Announce? || s.sender.Send?))
    case ReceiverStep => s.receiver.ReadHeader? || s.receiver.Clear? || s.receiver.ReadChunk? || s.receiver.Finish?
    case ReceiverEvent =>
      s.toReceiver != [] && !(s.toReceiver[0] == NewValue && s.receiver == Clear(true))
  }

  ghost predicate Sane(c: Content, s: State) {
    (s.sender.Send? || s.sender.AwaitDelete?) ==> s.sender.offset <= |c.data|
  }

  function Step(c: Content, s: State, a: Action): State
    requires Enabled(s, a) && Sane(c, s)
  {
    match a
    case SenderStep => StepSender(c, s)
    case SenderEvent => DeliverSender(s)
    case ReceiverStep => StepReceiver(s)
    case ReceiverEvent => DeliverReceiver(s)
  }

  function StepSender(c: Content, s: State): State
    requires s.sender.Announce? || s.sender.Send?
    requires Sane(c, s)
  {
    match s.sender
    case Announce(false) => s.(sender := Announce(true))
    case Announce(true) =>
      var w := Write(s, Header(c.data), AwaitStart);
      w.(toReceiver := w.toReceiver + [SelectionNotify])
    case Send(offset, false) => s.(sender := Send(offset, true))
    case Send(offset, true) =>
      var n := ChunkLength(|c.data| - offset);
      var piece := c.data[offset..offset + n];
      Write(s, c.(data := piece), AwaitDelete(offset + n, n)).(sent := s.sent + [piece])
  }

  function DeliverSender(s: State): State
    requires s.toSender != []
  {
    var t := s.(toSender := s.toSender[1..]);
    if s.toSender[0] != Deleted then t
    else
      match s.sender
      case AwaitStart => t.(sender := Send(0, false))
      case AwaitDelete(offset, length) => t.(sender := if length == 0 then SenderDone else Send(offset, false))
      case _ => t
  }

  function StepReceiver(s: State): State
    requires s.receiver.ReadHeader? || s.receiver.Clear? || s.receiver.ReadChunk? || s.receiver.Finish?
  {
    // GetProperty on a missing property answers with type and format 0 and no data.
    var reply := if s.slot.Some? then s.slot.value else Content(0, 0, []);
    match s.receiver
    case ReadHeader =>
      if reply.kind == ATOM_INCR then s.(receiver := Clear(false)) else Delete(s, ReceiverDone(reply))
    case Clear(false) => s.(receiver := Clear(true))
    case Clear(true) => Delete(s, AwaitNew)
    case ReadChunk =>
      if reply.data == [] then s.(receiver := Finish(reply.kind, reply.format))
      else s.(got := s.got + [reply.data], receiver := Clear(false))
    case Finish(kind, format) => Delete(s, ReceiverDone(Content(kind, format, Join(s.got))))
  }

  function DeliverReceiver(s: State): State
    requires s.toReceiver != []
  {
    var t := s.(toReceiver := s.toReceiver[1..]);
    if s.toReceiver[0] == SelectionNotify && s.receiver == AwaitSelection then t.(receiver := ReadHeader)
    else if s.toReceiver[0] == NewValue && s.receiver == AwaitNew then t.(receiver := ReadChunk)
    else t
  }

  /** What the receiver makes of an answer that does not announce an incremental transfer: it is the whole
      target, and the property is deleted; a missing one answers with no type, format 0 and no data. */
  lemma DirectAnswerIsTaken(s: State)
    requires s.receiver == ReadHeader && (s.slot.Some? ==> s.slot.value.kind != ATOM_INCR) && ATOM_INCR != 0
    ensures var t := StepReceiver(s);
            if s.slot == None then t == s.(receiver := ReceiverDone(Content(0, 0, [])))
            else t == s.(slot := None, receiver := ReceiverDone(s.slot.value),
                         toSender := s.toSender + [Deleted], toReceiver := s.toReceiver + [Deleted])
  {
  }

  /** Deleting the property tells both sides if there was one and nobody otherwise. */
  lemma DeletionIsTold(s: State)
    requires s.receiver == Clear(true)
    ensures var t := StepReceiver(s);
            && t.slot == None && t.receiver == AwaitNew && t.sender == s.sender && t.got == s.got && t.sent == s.sent
            && if s.slot == None then t.toSender == s.toSender && t.toReceiver == s.toReceiver
               else t.toSender == s.toSender + [Deleted] && t.toReceiver == s.toReceiver + [Deleted]
  {
  }

  // ---- the invariant ----

  ghost predicate NoMore(q: seq<Event>, e: Event) {
    e !in q
  }

  ghost predicate OneMore(q: seq<Event>, e: Event) {
    exists i :: 0 <= i < |q| && q[i] == e && e !in q[..i] && e !in q[i + 1..]
  }

  ghost predicate Quiet(s: State) {
    NoMore(s.toSender, Deleted) && NoMore(s.toReceiver, NewValue)
  }

  /** The receiver has answered: its deletion is on the way to the sender. */
  ghost predicate Answered(s: State) {
    s.slot == None && OneMore(s.toSender, Deleted) && NoMore(s.toReceiver, NewValue)
  }

  /** Everything before `offset` is in the receiver's hands, cut as Split cuts it. */
  ghost predicate HasRead(data: seq<Byte>, got: seq<seq<Byte>>, offset: nat) {
    && offset <= |data|
    && Join(got) == data[..offset]
    && got + Split(data[offset..]) == Split(data)
  }

  ghost predicate InvAnnounced(c: Content, s: State) {
    && s.got == [] && s.sent == []
    && (match s.receiver
        case AwaitSelection =>
          s.slot == Some(Header(c.data)) && NoMore(s.toSender, Deleted)
          && (s.toReceiver == [NewValue, SelectionNotify] || s.toReceiver == [SelectionNotify])
        case ReadHeader => s.slot == Some(Header(c.data)) && Quiet(s)
        case Clear(_) => s.slot == Some(Header(c.data)) && Quiet(s)
        case AwaitNew => Answered(s)
        case _ => false)
  }

  ghost predicate InvSent(c: Content, s: State, offset: nat, length: nat) {
    && length <= offset <= |c.data|
    && length == ChunkLength(|c.data| - (offset - length))
    && var p := c.(data := c.data[offset - length..offset]);
       match s.receiver
       case AwaitNew =>
         || (s.slot == Some(p) && NoMore(s.toSender, Deleted) && OneMore(s.toReceiver, NewValue)
             && HasRead(c.data, s.got, offset - length) && s.sent == s.got + [p.data])
         || (length > 0 && Answered(s) && HasRead(c.data, s.got, offset) && s.sent == s.got)
       case ReadChunk =>
         s.slot == Some(p) && Quiet(s) && HasRead(c.data, s.got, offset - length) && s.sent == s.got + [p.data]
       case Clear(_) =>
         length > 0 && s.slot == Some(p) && Quiet(s) && HasRead(c.data, s.got, offset) && s.sent == s.got
       case Finish(kind, format) =>
         && length == 0 && s.slot == Some(p) && Quiet(s) && HasRead(c.data, s.got, offset) && s.sent == s.got + [p.data]
         && kind == c.kind && format == c.format
       case ReceiverDone(result) =>
         length == 0 && result == c && Answered(s) && HasRead(c.data, s.got, offset) && s.sent == s.got + [p.data]
       case _ => false
  }

  ghost predicate Inv(c: Content, s: State) {
    match s.sender
    case Announce(_) => s == START.(sender := s.sender)
    case AwaitStart => InvAnnounced(c, s)
    case Send(offset, _) =>
      s.receiver == AwaitNew && s.slot == None && Quiet(s) && HasRead(c.data, s.got, offset) && s.sent == s.got
    case AwaitDelete(offset, length) => InvSent(c, s, offset, length)
    case SenderDone =>
      s.receiver == ReceiverDone(c) && s.slot == None && s.got == Split(c.data) && s.sent == Split(c.data) + [[]]
  }

  lemma InvSane(c: Content, s: State)
    requires Inv(c, s)
    ensures Sane(c, s)
  {
  }

  lemma PushOther(q: seq<Event>, e: Event, f: Event)
    requires e != f
    ensures NoMore(q, e) ==> NoMore(q + [f], e)
    ensures OneMore(q, e) ==> OneMore(q + [f], e)
  {
    if OneMore(q, e) {
      var i :| 0 <= i < |q| && q[i] == e && e !in q[..i] && e !in q[i + 1..];
      var r := q + [f];
      assert r[..i] == q[..i] && r[i + 1..] == q[i + 1..] + [f] && r[i] == e;
    }
  }

  lemma PushFirst(q: seq<Event>, e: Event)
    requires NoMore(q, e)
    ensures OneMore(q + [e], e)
  {
    var r := q + [e];
    assert r[|q|] == e && r[..|q|] == q && r[|q| + 1..] == [];
  }

  lemma PopOne(q: seq<Event>, e: Event)
    requires q != []
    ensures NoMore(q, e) ==> NoMore(q[1..], e) && q[0] != e
    ensures OneMore(q, e) ==> if q[0] == e then NoMore(q[1..], e) else OneMore(q[1..], e)
  {
    if OneMore(q, e) {
      var i :| 0 <= i < |q| && q[i] == e && e !in q[..i] && e !in q[i + 1..];
      if i > 0 {
        assert q[0] in q[..i];
        var r := q[1..];
        assert r[i - 1] == e && r[i..] == q[i + 1..];
        assert r[..i - 1] == q[1..i];
        assert forall k :: 0 <= k < i - 1 ==> r[k] == q[..i][k + 1];
      }
    }
  }

  lemma {:induction false} JoinAppend(chunks: seq<seq<Byte>>, d: seq<Byte>)
    ensures Join(chunks + [d]) == Join(chunks) + d
  {
    if chunks == [] {
      assert chunks + [d] == [d] && [d][1..] == [];
    } else {
      assert (chunks + [d])[1..] == chunks[1..] + [d];
      JoinAppend(chunks[1..], d);
    }
  }

  /** Reading a non-empty chunk advances what the receiver holds. */
  lemma ReadAdvances(data: seq<Byte>, got: seq<seq<Byte>>, from: nat, length: nat)
    requires from + length <= |data| && length > 0 && length == ChunkLength(|data| - from)
    requires HasRead(data, got, from)
    ensures HasRead(data, got + [data[from..from + length]], from + length)
  {
    var rest, piece, last := data[from..], data[from..from + length], data[from + length..];
    JoinAppend(got, piece);
    assert data[..from + length] == data[..from] + piece;
    assert rest[..length] == piece && rest[length..] == last;
    assert Split(rest) == [piece] + Split(last);
    assert got + ([piece] + Split(last)) == (got + [piece]) + Split(last);
  }

  lemma ReadAll(data: seq<Byte>, got: seq<seq<Byte>>)
    requires HasRead(data, got, |data|)
    ensures got == Split(data) && Join(got) == data
  {
    assert data[|data|..] == [] && data[..|data|] == data;
    assert Split([]) == [] && got + [] == got;
  }

  lemma SenderStepKeepsInv(c: Content, s: State)
    requires Inv(c, s) && Enabled(s, SenderStep) && Sane(c, s)
    ensures Inv(c, StepSender(c, s))
  {
    match s.sender {
      case Announce(_) =>
        assert s.toReceiver + [NewValue] + [SelectionNotify] == [NewValue, SelectionNotify];
      case Send(offset, hooked) =>
        if hooked {
          PushOther(s.toSender, Deleted, NewValue);
          PushFirst(s.toReceiver, NewValue);
        }
    }
  }

  lemma SenderEventKeepsInv(c: Content, s: State)
    requires Inv(c, s) && Enabled(s, SenderEvent)
    ensures Inv(c, DeliverSender(s))
  {
    PopOne(s.toSender, Deleted);
    if s.sender.AwaitStart? {
      assert c.data[..0] == [] && c.data[0..] == c.data && s.got + Split(c.data) == Split(c.data);
    } else if s.sender.AwaitDelete? && s.sender.length == 0 && s.toSender[0] == Deleted {
      ReadAll(c.data, s.got);
    }
  }

  lemma ReceiverStepKeepsInv(c: Content, s: State)
    requires Inv(c, s) && Enabled(s, ReceiverStep)
    ensures Inv(c, StepReceiver(s))
  {
    match s.receiver {
      case ReadHeader =>
      case Clear(hooked) =>
        if hooked {
          DeleteAnswers(s, AwaitNew);
        }
      case ReadChunk => ReadKeepsInv(c, s);
      case Finish(kind, format) =>
        ReadAll(c.data, s.got);
        DeleteAnswers(s, ReceiverDone(c));
    }
  }

  lemma DeleteAnswers(s: State, next: Receiver)
    requires Quiet(s) && s.slot.Some?
    ensures Answered(Delete(s, next))
  {
    PushFirst(s.toSender, Deleted);
    PushOther(s.toReceiver, NewValue, Deleted);
  }

  lemma ReadKeepsInv(c: Content, s: State)
    requires Inv(c, s) && s.receiver == ReadChunk
    ensures Inv(c, StepReceiver(s))
  {
    var offset, length := s.sender.offset, s.sender.length;
    assert InvSent(c, s, offset, length);
    if length > 0 {
      ReadAdvances(c.data, s.got, offset - length, length);
    }
  }

  lemma ReceiverEventKeepsInv(c: Content, s: State)
    requires Inv(c, s) && Enabled(s, ReceiverEvent)
    ensures Inv(c, DeliverReceiver(s))
  {
    PopOne(s.toReceiver, NewValue);
    if s.receiver == AwaitSelection && s.sender == AwaitStart {
      assert [NewValue, SelectionNotify][1..] == [SelectionNotify] && [SelectionNotify][1..] == [];
    } else if s.receiver == AwaitNew && s.sender.AwaitDelete? {
      var t := DeliverReceiver(s);
      assert InvSent(c, s, s.sender.offset, s.sender.length);
      assert InvSent(c, t, s.sender.offset, s.sender.length);
    }
  }

  lemma StepKeepsInv(c: Content, s: State, a: Action)
    requires Inv(c, s) && Enabled(s, a) && Sane(c, s)
    ensures Inv(c, Step(c, s, a))
  {
    match a
    case SenderStep => SenderStepKeepsInv(c, s);
    case SenderEvent => SenderEventKeepsInv(c, s);
    case ReceiverStep => ReceiverStepKeepsInv(c, s);
    case ReceiverEvent => ReceiverEventKeepsInv(c, s);
  }

  // ---- safety ----

  /** What is in the property and has not been read yet. */
  ghost function Unread(s: State): seq<Byte> {
    if s.sender.AwaitDelete? && s.slot.Some? && (s.receiver.AwaitNew? || s.receiver.ReadChunk?)
    then s.slot.value.data else []
  }

  ghost function Unsent(c: Content, s: State): seq<Byte>
    requires Sane(c, s)
  {
    match s.sender
    case Announce(_) => c.data
    case AwaitStart => c.data
    case Send(offset, _) => c.data[offset..]
    case AwaitDelete(offset, _) => c.data[offset..]
    case SenderDone => []
  }

  lemma SplitAt(data: seq<Byte>, i: nat, j: nat)
    requires i <= j <= |data|
    ensures data[..j] == data[..i] + data[i..j]
    ensures data == data[..j] + data[j..]
  {
  }

  /** In every reachable state the bytes received, unread and unsent make up the data, in order. */
  lemma Conservation(c: Content, s: State)
    requires Inv(c, s) && Sane(c, s)
    ensures Join(s.got) + Unread(s) + Unsent(c, s) == c.data
  {
    var got := Join(s.got);
    assert got + [] == got;
    match s.sender {
      case AwaitDelete(offset, length) =>
        ReceivedOrUnread(c, s, offset, length);
        SplitAt(c.data, offset, offset);
      case SenderDone =>
        JoinSplit(c.data);
      case Send(offset, _) =>
        SplitAt(c.data, offset, offset);
      case _ =>
        assert got == [] && [] + c.data == c.data;
    }
  }

  /** While the sender waits, all it has written is either received or still in the property. */
  lemma ReceivedOrUnread(c: Content, s: State, offset: nat, length: nat)
    requires s.sender == AwaitDelete(offset, length) && InvSent(c, s, offset, length)
    ensures Join(s.got) + Unread(s) == c.data[..offset]
  {
    if s.slot.Some? && (s.receiver.AwaitNew? || s.receiver.ReadChunk?) {
      assert HasRead(c.data, s.got, offset - length);
      SplitAt(c.data, offset - length, offset);
    } else {
      assert HasRead(c.data, s.got, offset);
    }
  }

  lemma {:induction false} JoinSplit(data: seq<Byte>)
    ensures Join(Split(data)) == data
    decreases |data|
  {
    if data != [] {
      var n := ChunkLength(|data|);
      assert Split(data)[1..] == Split(data[n..]);
      JoinSplit(data[n..]);
      assert data == data[..n] + data[n..];
    }
  }

  /** No property value is overwritten before the receiver has deleted it. */
  lemma NeverOverwrites(c: Content, s: State)
    requires Inv(c, s) && Sane(c, s)
    requires s.sender == Announce(true) || (s.sender.Send? && s.sender.hooked)
    ensures s.slot == None && StepSender(c, s).slot.Some?
  {
  }

  // ---- liveness ----

  /** A bound on the number of steps still to come. */
  ghost function SenderRank(c: Content, s: State): int
    requires Sane(c, s)
  {
    var all := |Split(c.data)| + 1;
    match s.sender
    case Announce(hooked) => 8 * all + (if hooked then 4 else 8)
    case AwaitStart => 8 * all
    case Send(offset, hooked) => 8 * (|Split(c.data[offset..])| + 1) - (if hooked then 4 else 0)
    case AwaitDelete(offset, length) => if length == 0 then 0 else 8 * (|Split(c.data[offset..])| + 1)
    case SenderDone => 0
  }

  ghost function ReceiverRank(c: Content, s: State): int {
    var left := |Split(c.data)| + 1 - |s.got|;
    match s.receiver
    case AwaitSelection => 12 * left + 4
    case ReadHeader => 12 * left + 4
    case Clear(hooked) => 12 * left - (if hooked then 4 else 0)
    case AwaitNew => 12 * left - 8
    case ReadChunk => 12 * left - 8
    case Finish(_, _) => 3
    case ReceiverDone(_) => 0
  }

  ghost function Measure(c: Content, s: State): int
    requires Sane(c, s)
  {
    SenderRank(c, s) + ReceiverRank(c, s) + |s.toSender| + |s.toReceiver|
  }

  lemma ChunksLeft(c: Content, s: State)
    requires Inv(c, s)
    ensures |s.got| <= |Split(c.data)|
    ensures s.receiver.ReadChunk? && s.sender.AwaitDelete? ==>
              (s.sender.length > 0 <==> |s.got| < |Split(c.data)|)
  {
    if s.receiver.ReadChunk? {
      var from := s.sender.offset - s.sender.length;
      assert s.got + Split(c.data[from..]) == Split(c.data);
    }
  }

  lemma MeasureDecreases(c: Content, s: State, a: Action)
    requires Inv(c, s) && Enabled(s, a) && Sane(c, s)
    ensures Sane(c, Step(c, s, a))
    ensures Measure(c, Step(c, s, a)) < Measure(c, s)
  {
    StepKeepsInv(c, s, a);
    InvSane(c, Step(c, s, a));
    match a
    case SenderStep => SenderStepDecreases(c, s);
    case SenderEvent => SenderEventDecreases(c, s);
    case ReceiverStep => ReceiverStepDecreases(c, s);
    case ReceiverEvent =>
  }

  lemma SenderStepDecreases(c: Content, s: State)
    requires Inv(c, s) && Enabled(s, SenderStep) && Sane(c, s) && Sane(c, StepSender(c, s))
    ensures Measure(c, StepSender(c, s)) < Measure(c, s)
  {
    if s.sender.Send? && s.sender.hooked {
      SplitFrom(c.data, s.sender.offset);
    }
  }

  lemma SplitFrom(data: seq<Byte>, offset: nat)
    requires offset <= |data|
    ensures var n := ChunkLength(|data| - offset);
            |Split(data[offset..])| == |Split(data[offset + n..])| + if n > 0 then 1 else 0
  {
    var rest, n := data[offset..], ChunkLength(|data| - offset);
    assert rest[n..] == data[offset + n..];
    if n > 0 {
      assert Split(rest) == [rest[..n]] + Split(rest[n..]);
    }
  }

  lemma SenderEventDecreases(c: Content, s: State)
    requires Inv(c, s) && Enabled(s, SenderEvent) && Sane(c, s) && Sane(c, DeliverSender(s))
    ensures Measure(c, DeliverSender(s)) < Measure(c, s)
  {
    assert c.data[0..] == c.data;
  }

  lemma ReceiverStepDecreases(c: Content, s: State)
    requires Inv(c, s) && Enabled(s, ReceiverStep) && Sane(c, s) && Sane(c, StepReceiver(s))
    ensures Measure(c, StepReceiver(s)) < Measure(c, s)
  {
    ChunksLeft(c, s);
  }

  /** When nothing can happen any more, the receiver holds an equal target: type, format and data, after
      exactly the non-empty pieces of Split, ceil(n / 65432) of them, and one empty one. */
  lemma StuckMeansComplete(c: Content, s: State)
    requires Inv(c, s)
    requires forall a :: !Enabled(s, a)
    ensures s.sender == SenderDone && s.receiver == ReceiverDone(c) && s.slot == None
    ensures s.sent == Split(c.data) + [[]]
    ensures |s.sent| == (|c.data| + 65431) / 65432 + 1
    ensures forall i :: 0 <= i < |s.sent| - 1 ==> s.sent[i] != []
    ensures forall i :: 0 <= i < |s.sent| - 2 ==> |s.sent[i]| == 65432
  {
    SplitShape(c.data);
    assert !Enabled(s, SenderStep) && !Enabled(s, SenderEvent);
    assert !Enabled(s, ReceiverStep) && !Enabled(s, ReceiverEvent);
  }

  /** A run is a sequence of enabled actions, in any interleaving. */
  ghost predicate IsRun(c: Content, s: State, run: seq<Action>)
    decreases |run|
  {
    run == [] || (Sane(c, s) && Enabled(s, run[0]) && IsRun(c, Step(c, s, run[0]), run[1..]))
  }

  ghost function After(c: Content, s: State, run: seq<Action>): State
    requires IsRun(c, s, run)
    decreases |run|
  {
    if run == [] then s else After(c, Step(c, s, run[0]), run[1..])
  }

  lemma {:induction false} RunsStayInside(c: Content, s: State, run: seq<Action>)
    requires Inv(c, s) && Sane(c, s) && IsRun(c, s, run)
    ensures var t := After(c, s, run);
            Inv(c, t) && Sane(c, t) && Measure(c, t) + |run| <= Measure(c, s)
    decreases |run|
  {
    if run != [] {
      StepKeepsInv(c, s, run[0]);
      MeasureDecreases(c, s, run[0]);
      RunsStayInside(c, Step(c, s, run[0]), run[1..]);
    }
  }

  /** Every interleaving from the start is conservative at each point and finite, and a run that can
      go no further has transferred the target completely. */
  lemma TransferIsCorrect(c: Content, run: seq<Action>)
    requires IsRun(c, START, run)
    ensures var s := After(c, START, run);
            && Sane(c, s)
            && Join(s.got) + Unread(s) + Unsent(c, s) == c.data
            && |run| <= 20 * (|Split(c.data)| + 1) + 12
            && ((forall a :: !Enabled(s, a)) ==> s.receiver == ReceiverDone(c) && s.sent == Split(c.data) + [[]])
  {
    RunsStayInside(c, START, run);
    var s := After(c, START, run);
    Conservation(c, s);
    MeasureNonNegative(c, s);
    if forall a :: !Enabled(s, a) {
      StuckMeansComplete(c, s);
    }
  }

  lemma MeasureNonNegative(c: Content, s: State)
    requires Inv(c, s) && Sane(c, s)
    ensures Measure(c, s) >= 0
  {
    ChunksLeft(c, s);
  }

  // ---- the loops as written ----

  /** The loop of sendTargetIncr, returning the property values in the order they are written. */
  method SendTargetIncr(data: seq<Byte>) returns (writes: seq<seq<Byte>>)
    ensures writes == Split(data) + [[]]
  {
    writes := [];
    var offset := 0;
    while true
      invariant 0 <= offset <= |data|
      invariant writes + Split(data[offset..]) == Split(data)
      decreases |data| - offset
    {
      var rest := data[offset..];
      var length := |rest|;
      if length > CHUNK {
        length := CHUNK;
      }
      offset := offset + length;
      ghost var before := writes;
      writes := writes + [rest[..length]];
      if length == 0 {
        assert rest == [] && before == Split(data);
        return;
      }
      assert rest[length..] == data[offset..];
      assert before + ([rest[..length]] + Split(data[offset..])) == writes + Split(data[offset..]);
    }
  }

  ghost predicate FirstEmpty(replies: seq<Content>, n: nat) {
    n < |replies| && replies[n].data == [] && forall i :: 0 <= i < n ==> replies[i].data != []
  }

  /** The loop of receiveTargetIncr over the property values it finds: everything up to the first empty
      one, or nothing at all when the wait for a value fails first. */
  method ReceiveTargetIncr(replies: seq<Content>) returns (target: Option<Content>)
    ensures target == None <==> forall i :: 0 <= i < |replies| ==> replies[i].data != []
    ensures forall n: nat :: FirstEmpty(replies, n) ==>
              var chunks := seq(n, i requires 0 <= i < n => replies[i].data);
              target == Some(Content(replies[n].kind, replies[n].format, Join(chunks)))
  {
    var data: seq<seq<Byte>> := [];
    var n := 0;
    while n < |replies|
      invariant 0 <= n <= |replies|
      invariant forall i :: 0 <= i < n ==> replies[i].data != []
      invariant data == seq(n, i requires 0 <= i < n => replies[i].data)
    {
      if replies[n].data == [] {
        assert FirstEmpty(replies, n);
        assert forall m: nat :: FirstEmpty(replies, m) ==> m == n;
        return Some(Content(replies[n].kind, replies[n].format, Join(data)));
      }
      data := data + [replies[n].data];
      n := n + 1;
    }
    return None;
  }

  /** What the one loop writes, the other reads back. */
  lemma ReadsBack(c: Content, replies: seq<Content>)
    requires |replies| == |Split(c.data)| + 1
    requires forall i :: 0 <= i < |replies| ==> replies[i] == Content(c.kind, c.format, (Split(c.data) + [[]])[i])
    ensures var n := |Split(c.data)|;
            && FirstEmpty(replies, n)
            && Content(replies[n].kind, replies[n].format, Join(seq(n, i requires 0 <= i < n => replies[i].data))) == c
  {
    var n := |Split(c.data)|;
    SplitShape(c.data);
    JoinSplit(c.data);
    forall i | 0 <= i < n ensures replies[i].data == Split(c.data)[i] {
      assert (Split(c.data) + [[]])[i] == Split(c.data)[i];
    }
    assert seq(n, i requires 0 <= i < n => replies[i].data) == Split(c.data);
  }
}
