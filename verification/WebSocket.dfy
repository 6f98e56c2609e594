/**
  WebSocket messages cut into frames and put together again (sections 5.2 and 5.4 of
  RFC 6455), and the arithmetic of the frame limit.
 */
module WebSocket {
  import opened Prelude

  datatype Item = FirstText(bytes: Bytes) | FirstBinary(bytes: Bytes) | Continue(bytes: Bytes) | Last(bytes: Bytes)

  /** A message; the wire frames that carry one have the same kinds. */
  datatype Message =
    | Text(bytes: Bytes)
    | Binary(bytes: Bytes)
    | Ping(bytes: Bytes)
    | Pong(bytes: Bytes)
    | Close(bytes: Bytes)
    | Continuation(item: Item)

  // ---- UTF-8 (section 4 of RFC 3629) ----

  predicate Within(b: Bytes, i: nat, low: byte, high: byte) { i < |b| && low <= b[i] <= high }

  predicate Utf8(b: Bytes)
    decreases |b|
  {
    if b == [] then true
    else if b[0] <= 0x7F then Utf8(b[1..])
    else if 0xC2 <= b[0] <= 0xDF then Within(b, 1, 0x80, 0xBF) && Utf8(b[2..])
    else if 0xE0 <= b[0] <= 0xEF then
      && Within(b, 1, if b[0] == 0xE0 then 0xA0 else 0x80, if b[0] == 0xED then 0x9F else 0xBF)
      && Within(b, 2, 0x80, 0xBF) && Utf8(b[3..])
    else if 0xF0 <= b[0] <= 0xF4 then
      && Within(b, 1, if b[0] == 0xF0 then 0x90 else 0x80, if b[0] == 0xF4 then 0x8F else 0xBF)
      && Within(b, 2, 0x80, 0xBF) && Within(b, 3, 0x80, 0xBF) && Utf8(b[4..])
    else false
  }

  // ---- Sending ----

  /** Pieces of the given size, the last one with what is left. */
  function Pieces(bin: Bytes, size: nat): (parts: seq<Bytes>)
    requires size > 0
    ensures parts != [] && (|bin| > size ==> |parts| > 1)
    decreases |bin|
  {
    if |bin| <= size then [bin] else [bin[..size]] + Pieces(bin[size..], size)
  }

  method SplitParts(bin: Bytes, size: nat) returns (parts: seq<Bytes>)
    requires 0 < size <= |bin|
    ensures parts == Pieces(bin, size)
  {
    parts := [];
    var offset, len, top := 0, size, |bin|;
    while true
      invariant offset < len <= |bin| && top == |bin| - offset
      invariant len == if top <= size then |bin| else offset + size
      invariant parts + Pieces(bin[offset..], size) == Pieces(bin, size)
      decreases top
    {
      top := top - (len - offset);
      var part := bin[offset..len];
      assert bin[offset..][..len - offset] == part;
      if top == 0 {
        assert bin[offset..] == part;
        parts := parts + [part];
        return;
      }
      assert bin[offset..][size..] == bin[len..];
      assert parts + Pieces(bin[offset..], size) == parts + [part] + Pieces(bin[len..], size);
      parts := parts + [part];
      offset := len;
      if top <= size {
        len := offset + top;
      } else {
        len := offset + size;
      }
    }
  }

  function Join(parts: seq<Bytes>): Bytes {
    if parts == [] then [] else parts[0] + Join(parts[1..])
  }

  /** The pieces are the text: full ones, then a last one that is not empty. */
  lemma {:induction false} PiecesMeaning(bin: Bytes, size: nat)
    requires size > 0 && bin != []
    ensures var parts := Pieces(bin, size);
            && Join(parts) == bin
            && (forall k :: 0 <= k < |parts| - 1 ==> |parts[k]| == size)
            && 0 < |parts[|parts| - 1]| <= size
    decreases |bin|
  {
    if |bin| <= size {
      assert Join([bin]) == bin + Join([]) == bin;
    } else {
      var tail := Pieces(bin[size..], size);
      PiecesMeaning(bin[size..], size);
      assert ([bin[..size]] + tail)[1..] == tail && bin[..size] + bin[size..] == bin;
    }
  }

  /** And they are as few as can be. */
  lemma {:induction false} PiecesCount(bin: Bytes, size: nat)
    requires size > 0 && bin != []
    ensures var n := |Pieces(bin, size)|; (n - 1) * size < |bin| <= n * size
    decreases |bin|
  {
    if |bin| > size {
      PiecesCount(bin[size..], size);
      OneMore(|Pieces(bin[size..], size)|, size);
    }
  }

  lemma OneMore(n: nat, size: nat)
    ensures n * size == (n - 1) * size + size && (n + 1) * size == n * size + size
  {
  }

  /** The later pieces: all continue, the last one ends the message. */
  function Later(parts: seq<Bytes>): seq<Message> {
    if parts == [] then []
    else if |parts| == 1 then [Continuation(Last(parts[0]))]
    else [Continuation(Continue(parts[0]))] + Later(parts[1..])
  }

  function Fragments(isBinary: bool, parts: seq<Bytes>): seq<Message>
    requires parts != []
  {
    [Continuation(if isBinary then FirstBinary(parts[0]) else FirstText(parts[0]))] + Later(parts[1..])
  }

  /** No limit, or one that leaves room for a byte. */
  predicate GoodLimit(limit: Option<nat>) { limit.Some? ==> limit.value > 0 }

  /** The frames of a message under a limit on the payload. */
  function Frames(msg: Message, limit: Option<nat>): seq<Message>
    requires GoodLimit(limit)
  {
    if limit.Some? && (msg.Text? || msg.Binary?) && |msg.bytes| > limit.value
    then Fragments(msg.Binary?, Pieces(msg.bytes, limit.value))
    else [msg]
  }

  method LabelParts(isBinary: bool, parts: seq<Bytes>) returns (msgs: seq<Message>)
    requires |parts| > 1
    ensures msgs == Fragments(isBinary, parts)
  {
    msgs := [];
    var isFirst, partsLen, i := true, |parts|, 0;
    while i < |parts|
      invariant 0 <= i <= |parts| && isFirst == (i == 0)
      invariant i < |parts| ==> partsLen == |parts| - i
      invariant i == 0 ==> msgs == []
      invariant i > 0 ==> msgs + Later(parts[i..]) == Fragments(isBinary, parts)
    {
      var part := parts[i];
      assert parts[i..][1..] == parts[i + 1..];
      if isFirst {
        msgs := msgs + [Continuation(if isBinary then FirstBinary(part) else FirstText(part))];
        isFirst, partsLen := false, partsLen - 1;
      } else if partsLen == 1 {
        msgs := msgs + [Continuation(Last(part))];
      } else {
        assert msgs + Later(parts[i..]) == msgs + [Continuation(Continue(part))] + Later(parts[i + 1..]);
        msgs := msgs + [Continuation(Continue(part))];
        partsLen := partsLen - 1;
      }
      i := i + 1;
    }
    assert msgs + [] == msgs;
  }

  method SendFrames(msg: Message, limit: Option<nat>) returns (msgs: seq<Message>)
    requires GoodLimit(limit)
    ensures msgs == Frames(msg, limit)
  {
    if limit.Some? && (msg.Text? || msg.Binary?) {
      if |msg.bytes| > limit.value {
        var parts := SplitParts(msg.bytes, limit.value);
        msgs := LabelParts(msg.Binary?, parts);
        return;
      }
    }
    msgs := [msg];
  }

  // ---- Receiving ----

  datatype Received = Partial(isBinary: bool, buf: Bytes) | Completed(msg: Message) | Failed

  function CompleteText(bytes: Bytes): Received { if Utf8(bytes) then Completed(Text(bytes)) else Failed }

  /** What one more frame makes of what has been received so far. */
  function Receive(received: Option<Received>, frame: Message): Received {
    match frame
    case Continuation(Continue(bytes)) =>
      if received.Some? && received.value.Partial?
      then Partial(received.value.isBinary, received.value.buf + bytes) else Failed
    case Continuation(FirstText(bytes)) => Partial(false, bytes)
    case Continuation(FirstBinary(bytes)) => Partial(true, bytes)
    case Continuation(Last(bytes)) =>
      if received.Some? && received.value.Partial? then
        var all := received.value.buf + bytes;
        if received.value.isBinary then Completed(Binary(all)) else CompleteText(all)
      else Failed
    case Text(bytes) => CompleteText(bytes)
    case Binary(_) => Completed(frame)
    case Ping(_) => Completed(frame)
    case Pong(_) => Completed(frame)
    case Close(_) => Completed(frame)
  }

  /** The receiving loop: the messages delivered, and what is pending, or None after an error. */
  datatype Inbox = Inbox(delivered: seq<Message>, pending: Option<Option<Received>>)

  function Accept(box: Inbox, frame: Message): Inbox {
    if box.pending.None? then box
    else
      var r := Receive(box.pending.value, frame);
      match r
      case Partial(_, _) => box.(pending := Some(Some(r)))
      case Completed(msg) => Inbox(box.delivered + [msg], Some(None))
      case Failed => box.(pending := None)
  }

  function Drive(box: Inbox, frames: seq<Message>): Inbox
    decreases |frames|
  {
    if frames == [] then box else Drive(Accept(box, frames[0]), frames[1..])
  }

  const EMPTY := Inbox([], Some(None))

  lemma DriveOne(box: Inbox, frame: Message)
    ensures Drive(box, [frame]) == Accept(box, frame)
  {
    assert [frame][1..] == [];
  }

  lemma {:induction false} DriveAppend(box: Inbox, a: seq<Message>, b: seq<Message>)
    ensures Drive(box, a + b) == Drive(Drive(box, a), b)
    decreases |a|
  {
    if a == [] {
      assert a + b == b;
    } else {
      assert (a + b)[1..] == a[1..] + b;
      DriveAppend(Accept(box, a[0]), a[1..], b);
    }
  }

  /** The later pieces complete a message begun: the bytes so far and theirs. */
  lemma {:induction false} DriveLater(delivered: seq<Message>, isBinary: bool, buf: Bytes, parts: seq<Bytes>)
    requires parts != [] && (!isBinary ==> Utf8(buf + Join(parts)))
    ensures Drive(Inbox(delivered, Some(Some(Partial(isBinary, buf)))), Later(parts))
         == Inbox(delivered + [if isBinary then Binary(buf + Join(parts)) else Text(buf + Join(parts))], Some(None))
    decreases |parts|
  {
    var box := Inbox(delivered, Some(Some(Partial(isBinary, buf))));
    if |parts| == 1 {
      assert Join(parts) == parts[0] + [] == parts[0];
    } else {
      assert buf + Join(parts) == buf + parts[0] + Join(parts[1..]);
      DriveLater(delivered, isBinary, buf + parts[0], parts[1..]);
      assert Later(parts)[1..] == Later(parts[1..]);
    }
  }

  /** A message the client may send as such. */
  predicate Sendable(msg: Message) { !msg.Continuation? && (msg.Text? ==> Utf8(msg.bytes)) }

  lemma DriveFrames(delivered: seq<Message>, msg: Message, limit: Option<nat>)
    requires Sendable(msg) && GoodLimit(limit)
    ensures Drive(Inbox(delivered, Some(None)), Frames(msg, limit)) == Inbox(delivered + [msg], Some(None))
  {
    var frames := Frames(msg, limit);
    if |frames| > 1 {
      var parts := Pieces(msg.bytes, limit.value);
      PiecesMeaning(msg.bytes, limit.value);
      assert frames[1..] == Later(parts[1..]);
      DriveLater(delivered, msg.Binary?, parts[0], parts[1..]);
    } else {
      assert frames == [msg] && frames[1..] == [];
    }
  }

  /** The frames of messages sent one after the other, each under the limit of its time. */
  function Stream(sends: seq<(Message, Option<nat>)>): seq<Message>
    requires forall i :: 0 <= i < |sends| ==> GoodLimit(sends[i].1)
  {
    if sends == [] then []
    else
      Stream(sends[..|sends| - 1]) + Frames(sends[|sends| - 1].0, sends[|sends| - 1].1)
  }

  function Messages(sends: seq<(Message, Option<nat>)>): seq<Message> {
    if sends == [] then [] else Messages(sends[..|sends| - 1]) + [sends[|sends| - 1].0]
  }

  /** Whatever is sent under whatever limits arrives, in order and complete, even text cut inside a character. */
  lemma {:induction false} StreamRoundTrip(sends: seq<(Message, Option<nat>)>)
    requires forall i :: 0 <= i < |sends| ==> Sendable(sends[i].0) && GoodLimit(sends[i].1)
    ensures Drive(EMPTY, Stream(sends)) == Inbox(Messages(sends), Some(None))
    decreases |sends|
  {
    if sends != [] {
      var before, s := sends[..|sends| - 1], sends[|sends| - 1];
      StreamRoundTrip(before);
      DriveAppend(EMPTY, Stream(before), Frames(s.0, s.1));
      DriveFrames(Messages(before), s.0, s.1);
    }
  }

  // ---- Control frames between fragments ----

  predicate IsControl(msg: Message) { msg.Ping? || msg.Pong? || msg.Close? }

  lemma {:induction false} LaterItems(parts: seq<Bytes>, k: nat)
    requires k < |Later(parts)|
    ensures Later(parts)[k].Continuation? && (Later(parts)[k].item.Continue? || Later(parts)[k].item.Last?)
    decreases |parts|
  {
    if |parts| > 1 && k > 0 { LaterItems(parts[1..], k - 1); }
  }

  /** After an error nothing more is taken. */
  lemma {:induction false} FailedStays(box: Inbox, frames: seq<Message>)
    requires box.pending.None?
    ensures Drive(box, frames) == box
    decreases |frames|
  {
    if frames != [] { FailedStays(box, frames[1..]); }
  }

  /**
    RFC 6455 lets control frames stand between the fragments of a message; here one
    inside makes the rest of the message an error, and one before or after does not.
   */
  lemma ControlFrameIff(msg: Message, limit: Option<nat>, control: Message, k: nat)
    requires Sendable(msg) && GoodLimit(limit) && IsControl(control) && k <= |Frames(msg, limit)|
    ensures var fs := Frames(msg, limit);
            Drive(EMPTY, fs[..k] + [control] + fs[k..]).pending.Some? <==> k == 0 || k == |fs|
  {
    var fs := Frames(msg, limit);
    DriveAppend(EMPTY, fs[..k] + [control], fs[k..]);
    DriveAppend(EMPTY, fs[..k], [control]);
    if k == 0 {
      assert fs[..k] == [] && fs[k..] == fs;
      DriveFrames([control], msg, limit);
      DriveOne(EMPTY, control);
      assert [] + [control] == [control];
    } else if k == |fs| {
      assert fs[..k] == fs && fs[k..] == [];
      DriveFrames([], msg, limit);
      DriveOne(Inbox([] + [msg], Some(None)), control);
    } else {
      InsideFails(fs, Pieces(msg.bytes, limit.value), control, k);
    }
  }

  lemma InsideFails(fs: seq<Message>, parts: seq<Bytes>, control: Message, k: nat)
    requires 0 < k < |fs| && IsControl(control) && parts != []
    requires fs == Fragments(true, parts) || fs == Fragments(false, parts)
    ensures Drive(Drive(Drive(EMPTY, fs[..k]), [control]), fs[k..]).pending.None?
  {
    var mid := Drive(EMPTY, fs[..k]);
    var after := Drive(mid, [control]);
    DriveOne(mid, control);
    assert after.pending.None? || after.pending == Some(None);
    assert fs[k] == Later(parts[1..])[k - 1];
    LaterItems(parts[1..], k - 1);
    assert fs[k..][0] == fs[k];
    assert Accept(after, fs[k]).pending.None?;
    FailedStays(Accept(after, fs[k]), fs[k..][1..]);
  }

  // ---- The frame limit ----

  /** Bytes in front of a payload: two, the extended length, and the mask (section 5.2 of RFC 6455). */
  function HeaderSize(payload: nat, masked: bool): nat {
    2 + (if payload <= 125 then 0 else if payload <= 65535 then 2 else 8) + if masked then 4 else 0
  }

  /** What is set aside for a masked header: as much as RFC 6455 has it, and two bytes more in the middle range. */
  function MaskedHeader(size: nat): nat {
    HeaderSize(size, true) + if 126 <= size <= 65535 then 2 else 0
  }

  function Payload(msg: Message): nat {
    if msg.Continuation? then |msg.item.bytes| else |msg.bytes|
  }

  function Max(a: nat, b: nat): nat { if a > b then a else b }

  lemma {:induction false} LaterPayloads(parts: seq<Bytes>, k: nat)
    requires k < |Later(parts)|
    ensures |Later(parts)| == |parts| && Payload(Later(parts)[k]) == |parts[k]|
    decreases |parts|
  {
    if |parts| > 1 { LaterPayloads(parts[1..], if k > 0 then k - 1 else 0); }
  }

  lemma FramePayloads(msg: Message, limit: nat, k: nat)
    requires (msg.Text? || msg.Binary?) && limit > 0 && k < |Frames(msg, Some(limit))|
    ensures Payload(Frames(msg, Some(limit))[k]) <= limit
  {
    if |msg.bytes| > limit {
      var parts := Pieces(msg.bytes, limit);
      if k > 0 { LaterPayloads(parts[1..], k - 1); }
      PieceFits(msg.bytes, limit, k);
    }
  }

  lemma PieceFits(bin: Bytes, size: nat, k: nat)
    requires size > 0 && bin != [] && k < |Pieces(bin, size)|
    ensures |Pieces(bin, size)[k]| <= size
  {
    PiecesMeaning(bin, size);
  }

  class AsyncWebsocket {
    var sendSize: Option<nat>

    constructor ()
      ensures sendSize == None
    {
      sendSize := None;
    }

    /** Every text or binary frame then fits in the limit, header included, or in three bytes if the limit is smaller. */
    method SetSendFrameLimit(limit: nat)
      modifies this`sendSize
      ensures sendSize.Some? && FitsUnder(sendSize.value, Max(limit, 3), false)
      ensures sendSize.value + HeaderSize(Max(limit, 3), false) == Max(limit, 3)
    {
      var size := if limit < 3 then 3 else limit;
      sendSize := Some(if size < 126 then size - 2 else if size <= 65535 then size - 4 else size - 10);
      LimitFits(sendSize.value, size, false);
    }

    /** The same with the four bytes of the mask, and seven bytes at least. */
    method SetSendFrameLimitMasked(limit: nat)
      modifies this`sendSize
      ensures sendSize.Some? && FitsUnder(sendSize.value, Max(limit, 7), true)
      ensures sendSize.value + MaskedHeader(Max(limit, 7)) == Max(limit, 7)
    {
      var size := if limit < 7 then 7 else limit;
      sendSize := Some(if size < 126 then size - 6 else if size <= 65535 then size - 10 else size - 14);
      LimitFits(sendSize.value, size, true);
    }

    method Send(msg: Message) returns (frames: seq<Message>)
      requires GoodLimit(sendSize)
      ensures frames == Frames(msg, sendSize)
    {
      frames := SendFrames(msg, sendSize);
    }
  }

  /** The payload limit is positive and keeps every text or binary frame within a size. */
  ghost predicate FitsUnder(limit: nat, size: nat, masked: bool) {
    && limit > 0
    && forall msg: Message, k: nat :: (msg.Text? || msg.Binary?) && 0 <= k < |Frames(msg, Some(limit))| ==>
         var payload := Payload(Frames(msg, Some(limit))[k]); HeaderSize(payload, masked) + payload <= size
  }

  /** It is enough that the longest payload fits: a shorter one never has the longer header. */
  lemma LimitFits(limit: nat, size: nat, masked: bool)
    requires limit > 0 && HeaderSize(limit, masked) + limit <= size
    ensures FitsUnder(limit, size, masked)
  {
    forall msg: Message, k: nat | (msg.Text? || msg.Binary?) && 0 <= k < |Frames(msg, Some(limit))|
      ensures var payload := Payload(Frames(msg, Some(limit))[k]); HeaderSize(payload, masked) + payload <= size
    {
      FramePayloads(msg, limit, k);
    }
  }
}
