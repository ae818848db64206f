/**
 * A connected session's two pumps (internal/server/client.go).
 *
 * The read pump turns each inbound frame into a routed message stamped
 * with the session's own username, and hands it to the hub; the write pump
 * drains the session's outbound channel onto the connection. JSON decoding
 * and encoding are library calls: a decoded frame is an input datatype, and
 * `json.Marshal` is a parameter that may fail.
 */
module Session {
  import opened Wrappers
  import opened Bytes
  import opened Protocol
  import opened Hub

  /** The `content` member of an inbound frame, as `json.Unmarshal` into `interface{}` left it. */
  datatype Content =
    /** A JSON string. */
    | Text(text: string)
    /**
     * Any other JSON value. `asMessage` is the content obtained by decoding
     * the whole frame again as a `protocol.Message` (which decodes a JSON
     * string as base64), or None when that second decoding fails.
     */
    | NonText(asMessage: Option<seq<byte>>)

  /** One inbound frame: undecodable JSON, or an `IncomingMessage`. */
  datatype Frame = Malformed | Incoming(recipient: string, sender: string, content: Content)

  /** One result of `conn.ReadMessage`: a frame, or a read error (including an orderly close). */
  datatype Read = Received(frame: Frame) | ReadFailed

  /** What the read pump did with a sequence of reads. */
  datatype ReadOutcome = ReadOutcome(events: seq<Event>, ended: bool)

  /** How the write pump stopped, if it did. */
  datatype WriteEnd =
    /** Still blocked on the channel, which is open and drained. */
    | Waiting
    /** The channel was closed and drained: a close frame was sent. */
    | SentClose
    /** A data frame could not be written. */
    | WriteFailed

  /**
   * The per-frame work of `readPump` (client.go:41-67): a malformed frame is
   * dropped; string content becomes that string's bytes; other content is
   * taken from re-decoding the frame as a `protocol.Message`, and the frame
   * is dropped when that fails. The recipient is copied, the sender is
   * always the session's own username.
   */
  function Normalize(username: string, f: Frame): (r: Option<Message>)
    ensures r.Some? <==> f.Incoming? && (f.content.Text? || f.content.asMessage.Some?)
    ensures r.Some? ==> r.value.sender == username && r.value.recipient == f.recipient
    ensures r.Some? && f.content.Text? ==> r.value.content == Utf8(f.content.text)
    ensures r.Some? && f.content.Text? ==> DecodeUtf8(r.value.content) == Some(f.content.text)
    ensures r.Some? && f.content.NonText? ==> r.value.content == f.content.asMessage.value
  {
    match f
    case Malformed => None
    case Incoming(recipient, _, content) =>
      match content
      case Text(text) =>
        DecodeUtf8RoundTrip(text);
        Some(Message(recipient, username, Utf8(text)))
      case NonText(asMessage) =>
        if asMessage.Some? then Some(Message(recipient, username, asMessage.value)) else None
  }

  /**
   * Whatever sender a frame claims, the forwarded message is the same:
   * the claimed sender is never read.
   */
  lemma SenderClaimIgnored(username: string, f: Frame, claimed: string)
    requires f.Incoming?
    ensures Normalize(username, f.(sender := claimed)) == Normalize(username, f)
  {
  }

  /** The frames the read pump receives before its first read error. */
  function FramesBeforeError(inbound: seq<Read>): (frames: seq<Frame>)
    ensures |frames| <= |inbound|
    ensures ReadFailed !in inbound ==> |frames| == |inbound|
    ensures forall i :: 0 <= i < |frames| ==> inbound[i] == Received(frames[i])
    ensures ReadFailed in inbound ==> inbound[|frames|] == ReadFailed
  {
    if |inbound| == 0 || inbound[0] == ReadFailed then []
    else [inbound[0].frame] + FramesBeforeError(inbound[1..])
  }

  /** The messages a sequence of frames yields, in order, dropping the ones `Normalize` rejects. */
  function Accepted(username: string, frames: seq<Frame>): seq<Message> {
    if |frames| == 0 then []
    else
      var rest := Accepted(username, frames[1..]);
      match Normalize(username, frames[0])
      case None => rest
      case Some(m) => [m] + rest
  }

  function Forwards(ms: seq<Message>): (es: seq<Event>)
    ensures |es| == |ms| && forall i :: 0 <= i < |ms| ==> es[i] == Forward(ms[i])
  {
    seq(|ms|, i requires 0 <= i < |ms| => Forward(ms[i]))
  }

  /**
   * `readPump` (client.go:27-71) over a sequence of reads: every accepted
   * frame is forwarded to the hub in order; the first read error ends the
   * loop, and then the session sends exactly one unregister for itself and
   * closes its connection. Without a read error the pump is still reading.
   */
  function ReadPump(c: Client, inbound: seq<Read>): (r: ReadOutcome)
    ensures r.ended <==> ReadFailed in inbound
    ensures r.events == Forwards(Accepted(c.username, FramesBeforeError(inbound))) + (if r.ended then [Unregister(c)] else [])
    decreases |inbound|
  {
    if |inbound| == 0 then ReadOutcome([], false)
    else
      match inbound[0]
      case ReadFailed => ReadOutcome([Unregister(c)], true)
      case Received(f) =>
        var rest := ReadPump(c, inbound[1..]);
        ReceivedFirst(c.username, inbound);
        match Normalize(c.username, f)
        case None => rest
        case Some(m) =>
          ForwardsCons(m, Accepted(c.username, FramesBeforeError(inbound[1..])));
          ReadOutcome([Forward(m)] + rest.events, rest.ended)
  }

  /** A first read that delivered a frame: the rest decides the end, and the frame is handled first. */
  lemma ReceivedFirst(username: string, inbound: seq<Read>)
    requires |inbound| > 0 && inbound[0].Received?
    ensures ReadFailed in inbound <==> ReadFailed in inbound[1..]
    ensures Accepted(username, FramesBeforeError(inbound)) ==
      match Normalize(username, inbound[0].frame)
      case None => Accepted(username, FramesBeforeError(inbound[1..]))
      case Some(m) => [m] + Accepted(username, FramesBeforeError(inbound[1..]))
  {
    assert inbound == [inbound[0]] + inbound[1..];
    var frames := FramesBeforeError(inbound[1..]);
    assert FramesBeforeError(inbound) == [inbound[0].frame] + frames;
    assert ([inbound[0].frame] + frames)[1..] == frames;
  }

  lemma ForwardsCons(m: Message, ms: seq<Message>)
    ensures Forwards([m] + ms) == [Forward(m)] + Forwards(ms)
  {
  }

  /** Every message the read pump forwards carries the session's username as sender. */
  lemma {:induction false} AcceptedSenders(username: string, frames: seq<Frame>)
    ensures forall i :: 0 <= i < |Accepted(username, frames)| ==> Accepted(username, frames)[i].sender == username
  {
    if |frames| > 0 {
      AcceptedSenders(username, frames[1..]);
    }
  }

  /** Every message the read pump hands to the hub carries the session's own username as sender. */
  lemma ReadPumpSenders(c: Client, inbound: seq<Read>)
    ensures var r := ReadPump(c, inbound);
      forall i :: 0 <= i < |r.events| && r.events[i].Forward? ==> r.events[i].message.sender == c.username
  {
    var accepted := Accepted(c.username, FramesBeforeError(inbound));
    AcceptedSenders(c.username, FramesBeforeError(inbound));
    var r := ReadPump(c, inbound);
    forall i | 0 <= i < |r.events| && r.events[i].Forward?
      ensures r.events[i].message.sender == c.username
    {
      if i < |accepted| {
        assert r.events[i] == Forwards(accepted)[i] == Forward(accepted[i]);
      }
    }
  }

  /** The data frames `json.Marshal` produces for a channel's messages, in order, skipping marshal errors. */
  function Encoded(items: seq<Message>, marshal: Message -> Option<seq<byte>>): seq<seq<byte>>
    decreases |items|
  {
    if |items| == 0 then []
    else
      var init := Encoded(items[..|items| - 1], marshal);
      match marshal(items[|items| - 1])
      case None => init
      case Some(bs) => init + [bs]
  }

  lemma {:induction false} EncodedAppend(a: seq<Message>, b: seq<Message>, marshal: Message -> Option<seq<byte>>)
    ensures Encoded(a + b, marshal) == Encoded(a, marshal) + Encoded(b, marshal)
    decreases |b|
  {
    if |b| == 0 {
      assert a + b == a;
    } else {
      var ab := a + b;
      assert ab[..|ab| - 1] == a + b[..|b| - 1];
      assert ab[|ab| - 1] == b[|b| - 1];
      EncodedAppend(a, b[..|b| - 1], marshal);
    }
  }

  /**
   * `writePump` (client.go:73-95) over the messages waiting in its channel:
   * each message is marshalled, a marshal error skips it, and each encoding
   * is written as one data frame; `writeOk(i)` is the outcome of the i-th
   * data-frame write. A write error stops the pump at once; a closed and
   * drained channel makes it send a close frame and stop; an open, drained
   * channel leaves it waiting.
   */
  method WritePump(q: Queue, marshal: Message -> Option<seq<byte>>, writeOk: nat -> bool)
    returns (sent: seq<seq<byte>>, end: WriteEnd)
    ensures forall i :: 0 <= i < |sent| ==> writeOk(i)
    ensures end != WriteFailed ==> sent == Encoded(q.items, marshal)
    ensures end == WriteFailed ==> |sent| < |Encoded(q.items, marshal)| && !writeOk(|sent|)
    ensures end == WriteFailed ==> sent == Encoded(q.items, marshal)[..|sent|]
    ensures end == SentClose <==> end != WriteFailed && q.closed
    ensures end == WriteFailed <==> exists i :: 0 <= i < |Encoded(q.items, marshal)| && !writeOk(i)
  {
    sent := [];
    var i := 0;
    while i < |q.items|
      invariant 0 <= i <= |q.items|
      invariant sent == Encoded(q.items[..i], marshal)
      invariant forall j :: 0 <= j < |sent| ==> writeOk(j)
    {
      assert q.items[..i + 1][..i] == q.items[..i];
      match marshal(q.items[i]) {
        case None =>
        case Some(bs) =>
          if !writeOk(|sent|) {
            assert q.items == q.items[..i + 1] + q.items[i + 1..];
            EncodedAppend(q.items[..i + 1], q.items[i + 1..], marshal);
            end := WriteFailed;
            assert !writeOk(|sent|);
            return;
          }
          sent := sent + [bs];
      }
      i := i + 1;
    }
    assert q.items[..i] == q.items;
    end := if q.closed then SentClose else Waiting;
  }

  /**
   * String content is taken as the string's own bytes and never base64
   * decoded: "aGk=" (the base64 spelling of "hi") arrives as four bytes.
   */
  lemma TextContentNotBase64Decoded()
    ensures var r := Normalize("alice", Incoming("bob", "mallory", Text("aGk=")));
      r == Some(Message("bob", "alice", [0x61, 0x47, 0x6b, 0x3d]))
  {
    var text := "aGk=";
    assert IsAscii(text);
    var bs := Utf8(text);
    assert |bs| == 4 && bs[0] == 0x61 && bs[1] == 0x47 && bs[2] == 0x6b && bs[3] == 0x3d;
    assert bs == [0x61, 0x47, 0x6b, 0x3d];
  }
}
