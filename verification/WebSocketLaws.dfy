/**
  The frames of a message, one by one, and what any sequence of frames is received as,
  told from the frames alone: which message is open, which are delivered, and where the
  first error is.
 */
module WebSocketLaws {
  import opened Prelude
  import opened WebSocket

  // ---- Sending ----

  /** A message is sent as it is, exactly if it is no text or binary message above the limit. */
  lemma SentWhole(msg: Message, limit: Option<nat>)
    requires GoodLimit(limit)
    ensures Frames(msg, limit) == [msg] <==> limit.None? || !(msg.Text? || msg.Binary?) || |msg.bytes| <= limit.value
  {
  }

  function PayloadBytes(frames: seq<Message>): Bytes {
    if frames == [] then []
    else
      (if frames[0].Continuation? then frames[0].item.bytes else frames[0].bytes) + PayloadBytes(frames[1..])
  }

  lemma {:induction false} LaterBytes(parts: seq<Bytes>)
    ensures |Later(parts)| == |parts| && PayloadBytes(Later(parts)) == Join(parts)
    decreases |parts|
  {
    if |parts| == 1 {
      assert Later(parts)[1..] == [] && parts[1..] == [];
    } else if |parts| > 1 {
      LaterBytes(parts[1..]);
      assert Later(parts)[1..] == Later(parts[1..]);
    }
  }

  lemma {:induction false} LaterAt(parts: seq<Bytes>, k: nat)
    requires k < |parts|
    ensures |Later(parts)| == |parts|
    ensures Later(parts)[k] == Continuation(if k == |parts| - 1 then Last(parts[k]) else Continue(parts[k]))
    decreases |parts|
  {
    if |parts| > 1 { LaterAt(parts[1..], if k > 0 then k - 1 else 0); }
  }

  /** A message above the limit: its frames together carry its bytes, and there are no more of them than needed. */
  lemma SentCut(msg: Message, limit: nat)
    requires limit > 0 && (msg.Text? || msg.Binary?) && |msg.bytes| > limit
    ensures var fs := Frames(msg, Some(limit));
            && |fs| > 1 && PayloadBytes(fs) == msg.bytes
            && (|fs| - 1) * limit < |msg.bytes| <= |fs| * limit
  {
    var parts, fs := Pieces(msg.bytes, limit), Frames(msg, Some(limit));
    PiecesMeaning(msg.bytes, limit);
    PiecesCount(msg.bytes, limit);
    LaterBytes(parts[1..]);
    assert fs[1..] == Later(parts[1..]);
  }

  /** The first frame names its kind, the last one ends it, the ones between continue it; all but the last are full. */
  lemma SentLabels(msg: Message, limit: nat, k: nat)
    requires limit > 0 && (msg.Text? || msg.Binary?) && |msg.bytes| > limit && k < |Frames(msg, Some(limit))|
    ensures var fs := Frames(msg, Some(limit));
            && fs[k].Continuation?
            && (k == 0 <==> fs[k].item.FirstText? || fs[k].item.FirstBinary?)
            && (k == 0 ==> (fs[k].item.FirstBinary? <==> msg.Binary?))
            && (k == |fs| - 1 <==> fs[k].item.Last?)
            && (k < |fs| - 1 ==> |fs[k].item.bytes| == limit)
  {
    var parts := Pieces(msg.bytes, limit);
    PiecesMeaning(msg.bytes, limit);
    LaterBytes(parts[1..]);
    LaterAt(parts[1..], if k > 0 then k - 1 else 0);
  }

  // ---- Receiving ----

  /** The message begun by the last frames: a first one and then only continuing ones; whether it is binary, and its bytes. */
  ghost function OpenAt(frames: seq<Message>): Option<(bool, Bytes)> {
    if frames == [] then None
    else
      var open, last := OpenAt(frames[..|frames| - 1]), frames[|frames| - 1];
      if !last.Continuation? then None
      else
        match last.item
        case FirstText(bytes) => Some((false, bytes))
        case FirstBinary(bytes) => Some((true, bytes))
        case Continue(bytes) => if open.Some? then Some((open.value.0, open.value.1 + bytes)) else None
        case Last(_) => None
  }

  /** The message that the last frame completes, if it does: itself, or the open one with its bytes. */
  ghost function CompletedBy(frames: seq<Message>): Option<Message>
    requires frames != []
  {
    var open, last := OpenAt(frames[..|frames| - 1]), frames[|frames| - 1];
    if !last.Continuation? then Some(last)
    else if last.item.Last? && open.Some? then
      var all := open.value.1 + last.item.bytes;
      Some(if open.value.0 then Binary(all) else Text(all))
    else None
  }

  /** The last frame is an error: it goes on with a message that is not open, or completes text that is no UTF-8. */
  ghost predicate BadEnd(frames: seq<Message>)
    requires frames != []
  {
    var open, last := OpenAt(frames[..|frames| - 1]), frames[|frames| - 1];
    || (last.Continuation? && (last.item.Continue? || last.item.Last?) && open.None?)
    || (CompletedBy(frames).Some? && CompletedBy(frames).value.Text? && !Utf8(CompletedBy(frames).value.bytes))
  }

  ghost predicate NoError(frames: seq<Message>) {
    frames != [] ==> NoError(frames[..|frames| - 1]) && !BadEnd(frames)
  }

  /** The messages completed, in order. */
  ghost function Completions(frames: seq<Message>): seq<Message> {
    if frames == [] then []
    else
      var done := Completions(frames[..|frames| - 1]);
      if CompletedBy(frames).Some? then done + [CompletedBy(frames).value] else done
  }

  /**
    Any sequence of frames: it is received without error exactly if no frame goes on with a
    message that is not open or completes text that is no UTF-8; and then exactly the
    completed messages are delivered, and what is open is pending.
   */
  lemma {:induction false} ReceivedExactly(frames: seq<Message>)
    ensures Drive(EMPTY, frames).pending.Some? <==> NoError(frames)
    ensures NoError(frames) ==>
              var box, open := Drive(EMPTY, frames), OpenAt(frames);
              && box.delivered == Completions(frames)
              && box.pending == Some(if open.Some? then Some(Partial(open.value.0, open.value.1)) else None)
    decreases |frames|
  {
    if frames != [] {
      var front, last := frames[..|frames| - 1], frames[|frames| - 1];
      assert frames == front + [last];
      ReceivedExactly(front);
      DriveAppend(EMPTY, front, [last]);
      DriveOne(Drive(EMPTY, front), last);
    }
  }
}
