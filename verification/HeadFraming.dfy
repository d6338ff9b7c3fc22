/** The length-prefixed framing of head messages on a sync stream: the sender frames each message,
    the receiver reassembles frames from however the stream happens to be cut. */
module HeadFraming {

  newtype byte = b: int | 0 <= b < 0x100

  type Bytes = seq<byte>

  const MAX_HEAD_FRAME_BYTES := 16 * 1024 * 1024

  /** `setUint32`: four bytes, most significant first, of the length modulo 2^32. */
  function Header(length: nat): (header: Bytes)
    ensures |header| == 4
  {
    Digits(length % 0x1_0000_0000)
  }

  function Digits(n: nat): (digits: Bytes)
    requires n < 0x1_0000_0000
    ensures |digits| == 4
  {
    [(n / 0x100 / 0x100 / 0x100) as byte, (n / 0x100 / 0x100 % 0x100) as byte,
     (n / 0x100 % 0x100) as byte, (n % 0x100) as byte]
  }

  /** `getUint32(0)`. */
  function HeaderLength(bytes: Bytes): (length: nat)
    requires |bytes| >= 4
  {
    ((bytes[0] as nat * 0x100 + bytes[1] as nat) * 0x100 + bytes[2] as nat) * 0x100 + bytes[3] as nat
  }

  function Frame(message: Bytes): Bytes {
    Header(|message|) + message
  }

  function Frames(messages: seq<Bytes>): Bytes {
    if messages == [] then [] else Frame(messages[0]) + Frames(messages[1..])
  }

  function Flatten(chunks: seq<Bytes>): Bytes {
    if chunks == [] then [] else chunks[0] + Flatten(chunks[1..])
  }

  /** `frameHead`: a fresh buffer holding the header and then the message. */
  method FrameHead(message: array<byte>) returns (frame: array<byte>)
    ensures fresh(frame) && frame[..] == Frame(message[..])
  {
    frame := new byte[4 + message.Length](_ => 0);
    var n := message.Length % 0x1_0000_0000;
    frame[0] := (n / 0x100 / 0x100 / 0x100) as byte;
    frame[1] := (n / 0x100 / 0x100 % 0x100) as byte;
    frame[2] := (n / 0x100 % 0x100) as byte;
    frame[3] := (n % 0x100) as byte;
    for i := 0 to message.Length
      invariant frame[..4] == Header(message.Length)
      invariant frame[4..4 + i] == message[..i]
    {
      frame[4 + i] := message[i];
    }
    assert frame[..] == frame[..4] + frame[4..];
  }

  lemma Pack(high: nat, low: nat)
    requires low < 0x100
    ensures (high * 0x100 + low) / 0x100 == high && (high * 0x100 + low) % 0x100 == low
  {
  }

  lemma HeaderRoundTrip(length: nat, rest: Bytes)
    ensures HeaderLength(Header(length) + rest) == length % 0x1_0000_0000
  {
    var n := length % 0x1_0000_0000;
    var header := Header(length);
    var bytes := header + rest;
    assert bytes[0] == header[0] && bytes[1] == header[1] && bytes[2] == header[2] && bytes[3] == header[3];
    var a := n / 0x100;
    var b := a / 0x100;
    assert n == a * 0x100 + n % 0x100;
    assert a == b * 0x100 + a % 0x100;
    assert b == b / 0x100 * 0x100 + b % 0x100;
  }

  lemma PackFour(b0: nat, b1: nat, b2: nat, b3: nat)
    requires b0 < 0x100 && b1 < 0x100 && b2 < 0x100 && b3 < 0x100
    ensures var n := ((b0 * 0x100 + b1) * 0x100 + b2) * 0x100 + b3;
            && n < 0x1_0000_0000
            && n % 0x100 == b3 && n / 0x100 % 0x100 == b2
            && n / 0x100 / 0x100 % 0x100 == b1 && n / 0x100 / 0x100 / 0x100 == b0
  {
    Pack((b0 * 0x100 + b1) * 0x100 + b2, b3);
    Pack(b0 * 0x100 + b1, b2);
    Pack(b0, b1);
  }

  lemma SmallRemainder(n: nat)
    requires n < 0x1_0000_0000
    ensures n % 0x1_0000_0000 == n
  {
  }

  lemma HeaderOfLength(bytes: Bytes)
    requires |bytes| >= 4
    ensures Header(HeaderLength(bytes)) == bytes[..4]
  {
    PackFour(bytes[0] as nat, bytes[1] as nat, bytes[2] as nat, bytes[3] as nat);
    var n := HeaderLength(bytes);
    assert n % 0x1_0000_0000 == n by {
      SmallRemainder(n);
    }
    var digits := Digits(n);
    assert digits[0] == bytes[0] && digits[1] == bytes[1] && digits[2] == bytes[2] && digits[3] == bytes[3];
  }

  // ---- The reference parser: what a byte stream means, whole ----

  /** How a stream ends: at a frame boundary, inside a frame, or on a header over the limit. */
  datatype End = Clean | InsideFrame | TooLarge

  /** What a stream delivers and how it ends. */
  datatype Parsed = Parsed(messages: seq<Bytes>, end: End)

  /** The first frame is complete and within the limit. */
  predicate HasFrame(bytes: Bytes) {
    |bytes| >= 4 && HeaderLength(bytes) <= MAX_HEAD_FRAME_BYTES && |bytes| >= 4 + HeaderLength(bytes)
  }

  predicate HasOversizedHeader(bytes: Bytes) {
    |bytes| >= 4 && HeaderLength(bytes) > MAX_HEAD_FRAME_BYTES
  }

  function FirstMessage(bytes: Bytes): Bytes
    requires HasFrame(bytes)
  {
    bytes[4..4 + HeaderLength(bytes)]
  }

  function AfterFirst(bytes: Bytes): Bytes
    requires HasFrame(bytes)
  {
    bytes[4 + HeaderLength(bytes)..]
  }

  function Parse(bytes: Bytes): Parsed
    decreases |bytes|
  {
    if HasFrame(bytes) then
      var rest := Parse(AfterFirst(bytes));
      rest.(messages := [FirstMessage(bytes)] + rest.messages)
    else if HasOversizedHeader(bytes) then Parsed([], TooLarge)
    else if bytes == [] then Parsed([], Clean)
    else Parsed([], InsideFrame)
  }

  // ---- The receiver ----

  /** What was delivered and what is still to be read make up the whole stream. */
  ghost predicate OnCourse(seen: seq<Bytes>, unread: Bytes, whole: Bytes) {
    Prepend(seen, Parse(unread)) == Parse(whole)
  }

  lemma StartsOnCourse(chunks: seq<Bytes>)
    ensures OnCourse([], [] + Flatten(chunks[0..]), Flatten(chunks))
  {
    var whole := Flatten(chunks);
    assert chunks[0..] == chunks && [] + whole == whole;
    assert [] + Parse(whole).messages == Parse(whole).messages;
  }

  lemma ChunkOnCourse(seen: seq<Bytes>, pending: Bytes, chunks: seq<Bytes>, c: nat, whole: Bytes)
    requires c < |chunks| && OnCourse(seen, pending + Flatten(chunks[c..]), whole)
    ensures OnCourse(seen, (pending + chunks[c]) + Flatten(chunks[c + 1..]), whole)
  {
    assert chunks[c..][1..] == chunks[c + 1..];
    assert pending + Flatten(chunks[c..]) == (pending + chunks[c]) + Flatten(chunks[c + 1..]);
  }

  /** Delivering the complete frame at the front of the buffer stays on course. */
  lemma DeliverOnCourse(seen: seq<Bytes>, pending: Bytes, later: Bytes, whole: Bytes)
    requires HasFrame(pending) && OnCourse(seen, pending + later, whole)
    ensures OnCourse(seen + [FirstMessage(pending)], AfterFirst(pending) + later, whole)
  {
    ParseAhead(pending, later);
    PrependTwice(seen, [FirstMessage(pending)], Parse(AfterFirst(pending) + later));
  }

  lemma OversizedEnds(seen: seq<Bytes>, pending: Bytes, later: Bytes, whole: Bytes)
    requires HasOversizedHeader(pending) && OnCourse(seen, pending + later, whole)
    ensures Parse(whole) == Parsed(seen, TooLarge)
  {
    assert HeaderLength(pending + later) == HeaderLength(pending);
    assert seen + [] == seen;
  }

  lemma StreamEnds(seen: seq<Bytes>, pending: Bytes, whole: Bytes)
    requires !HasFrame(pending) && !HasOversizedHeader(pending) && OnCourse(seen, pending + [], whole)
    ensures Parse(whole) == Parsed(seen, if pending == [] then Clean else InsideFrame)
  {
    assert seen + [] == seen && pending + [] == pending;
  }

  /** Reads the stream chunk by chunk. `delivered` are the messages handed to `onSynced`, if there is
      one, before the stream ended as `end` says (the last two ends are the errors it throws). */
  method Receive(chunks: seq<Bytes>, onSynced: bool) returns (delivered: seq<Bytes>, end: End)
    ensures end == Parse(Flatten(chunks)).end
    ensures delivered == if onSynced then Parse(Flatten(chunks)).messages else []
  {
    delivered := [];
    var pending: Bytes := [];
    ghost var seen: seq<Bytes> := [];
    ghost var whole := Flatten(chunks);
    StartsOnCourse(chunks);
    for c := 0 to |chunks|
      invariant !HasFrame(pending) && !HasOversizedHeader(pending)
      invariant delivered == if onSynced then seen else []
      invariant OnCourse(seen, pending + Flatten(chunks[c..]), whole)
    {
      ghost var later := Flatten(chunks[c + 1..]);
      ChunkOnCourse(seen, pending, chunks, c, whole);
      pending := pending + chunks[c];
      while |pending| >= 4
        invariant delivered == if onSynced then seen else []
        invariant OnCourse(seen, pending + later, whole)
        decreases |pending|
      {
        var length := HeaderLength(pending);
        if length > MAX_HEAD_FRAME_BYTES {
          OversizedEnds(seen, pending, later, whole);
          return delivered, TooLarge;
        }
        if |pending| < 4 + length {
          break;
        }
        var headBytes := pending[4..4 + length];
        DeliverOnCourse(seen, pending, later, whole);
        seen := seen + [headBytes];
        pending := pending[4 + length..];
        if onSynced {
          delivered := delivered + [headBytes];
        }
      }
    }
    StreamEnds(seen, pending, whole);
    end := if |pending| > 0 then InsideFrame else Clean;
  }

  function Prepend(messages: seq<Bytes>, parsed: Parsed): Parsed {
    parsed.(messages := messages + parsed.messages)
  }

  lemma PrependTwice(first: seq<Bytes>, second: seq<Bytes>, parsed: Parsed)
    ensures Prepend(first, Prepend(second, parsed)) == Prepend(first + second, parsed)
  {
    assert first + (second + parsed.messages) == first + second + parsed.messages;
  }

  /** A complete first frame is read the same whatever follows it. */
  lemma ParseAhead(bytes: Bytes, later: Bytes)
    requires HasFrame(bytes)
    ensures HasFrame(bytes + later)
    ensures Parse(bytes + later) == Prepend([FirstMessage(bytes)], Parse(AfterFirst(bytes) + later))
  {
    assert HeaderLength(bytes + later) == HeaderLength(bytes);
    assert FirstMessage(bytes + later) == FirstMessage(bytes);
    assert AfterFirst(bytes + later) == AfterFirst(bytes) + later;
  }

  // ---- Main results ----

  ghost predicate WithinLimit(messages: seq<Bytes>) {
    forall message :: message in messages ==> |message| <= 16 * 1024 * 1024
  }

  lemma FrameAhead(message: Bytes, later: Bytes)
    requires |message| <= MAX_HEAD_FRAME_BYTES
    ensures HasFrame(Frame(message) + later)
    ensures FirstMessage(Frame(message) + later) == message
    ensures AfterFirst(Frame(message) + later) == later
  {
    HeaderRoundTrip(|message|, message + later);
    assert Frame(message) + later == Header(|message|) + (message + later);
  }

  /** Whatever follows the frames of messages within the limit, those messages are read first. */
  lemma {:induction false} ParseFrames(messages: seq<Bytes>, later: Bytes)
    requires WithinLimit(messages)
    ensures Parse(Frames(messages) + later) == Prepend(messages, Parse(later))
  {
    if messages == [] {
      assert Frames(messages) + later == later;
    } else {
      var rest := Frames(messages[1..]) + later;
      assert Frames(messages) + later == Frame(messages[0]) + rest;
      FrameAhead(messages[0], rest);
      ParseFrames(messages[1..], later);
      PrependTwice([messages[0]], messages[1..], Parse(later));
      assert [messages[0]] + messages[1..] == messages;
    }
  }

  /** A stream is read back as exactly the messages sent, with nothing left over, if and only if
      each of them was within the limit. */
  lemma {:induction false} RoundTripExactlyWithinLimit(messages: seq<Bytes>)
    ensures Parse(Frames(messages)) == Parsed(messages, Clean) <==> WithinLimit(messages)
  {
    if WithinLimit(messages) {
      ParseFrames(messages, []);
      assert Frames(messages) + [] == Frames(messages);
    } else if |messages[0]| <= MAX_HEAD_FRAME_BYTES {
      var rest := Frames(messages[1..]);
      FrameAhead(messages[0], rest);
      RoundTripExactlyWithinLimit(messages[1..]);
      assert messages == [messages[0]] + messages[1..];
      var read := Parse(rest);
      assert Parse(Frames(messages)) == Prepend([messages[0]], read);
      if [messages[0]] + read.messages == messages {
        assert read.messages == ([messages[0]] + read.messages)[1..] == messages[1..];
      }
    } else {
      var bytes := Frames(messages);
      HeaderRoundTrip(|messages[0]|, messages[0] + Frames(messages[1..]));
      assert bytes == Header(|messages[0]|) + (messages[0] + Frames(messages[1..]));
      if HasFrame(bytes) {
        assert |FirstMessage(bytes)| <= MAX_HEAD_FRAME_BYTES < |messages[0]|;
      }
    }
  }

  /** A stream that begins with a complete frame is that message's framing and the rest. */
  lemma FrameOfFirst(bytes: Bytes)
    requires HasFrame(bytes)
    ensures bytes == Frame(FirstMessage(bytes)) + AfterFirst(bytes)
    ensures |FirstMessage(bytes)| <= MAX_HEAD_FRAME_BYTES
  {
    HeaderOfLength(bytes);
    assert bytes == bytes[..4] + FirstMessage(bytes) + AfterFirst(bytes);
  }

  /** The other direction: every stream that ends cleanly is the framing of what it delivered. */
  lemma {:induction false} CleanStreamsAreFramings(bytes: Bytes)
    ensures WithinLimit(Parse(bytes).messages)
    ensures Parse(bytes).end == Clean <==> bytes == Frames(Parse(bytes).messages)
    decreases |bytes|
  {
    if HasFrame(bytes) {
      var first, rest := FirstMessage(bytes), AfterFirst(bytes);
      FrameOfFirst(bytes);
      CleanStreamsAreFramings(rest);
      var delivered := Parse(rest).messages;
      assert Parse(bytes).messages == [first] + delivered;
      assert ([first] + delivered)[1..] == delivered;
      assert Frames([first] + delivered) == Frame(first) + Frames(delivered);
      if Frame(first) + rest == Frame(first) + Frames(delivered) {
        assert rest == (Frame(first) + rest)[|Frame(first)|..];
        assert Frames(delivered) == (Frame(first) + Frames(delivered))[|Frame(first)|..];
      }
    }
  }

  /** The start of a frame is not taken for a frame, nor for an oversized one. */
  lemma PartialFrame(message: Bytes, bytes: Bytes)
    requires |message| <= MAX_HEAD_FRAME_BYTES && bytes < Frame(message)
    ensures Parse(bytes) == Parsed([], if bytes == [] then Clean else InsideFrame)
  {
    if |bytes| >= 4 {
      HeaderRoundTrip(|message|, message);
      assert bytes[..4] == Frame(message)[..4];
      assert HeaderLength(bytes) == HeaderLength(Frame(message));
    }
  }

  /** `parsed` is what a stream of these messages cut after `cut` bytes delivers: the messages whose
      frames arrived whole, and an error unless the cut is on a frame boundary. */
  ghost predicate ReadsCut(parsed: Parsed, messages: seq<Bytes>, cut: nat) {
    var n := |parsed.messages|;
    && parsed.messages <= messages
    && |Frames(parsed.messages)| <= cut
    && (n < |messages| ==> cut < |Frames(messages[..n + 1])|)
    && parsed.end == if cut == |Frames(parsed.messages)| then Clean else InsideFrame
  }

  lemma ReadsCutNext(parsed: Parsed, messages: seq<Bytes>, cut: nat, first: Bytes)
    requires ReadsCut(parsed, messages, cut)
    ensures ReadsCut(Prepend([first], parsed), [first] + messages, |Frame(first)| + cut)
  {
    var longer, all := [first] + parsed.messages, [first] + messages;
    var n := |parsed.messages|;
    assert longer[1..] == parsed.messages;
    assert |Frames(longer)| == |Frame(first)| + |Frames(parsed.messages)|;
    if n < |messages| {
      assert all[..n + 2] == [first] + messages[..n + 1];
      assert all[..n + 2][1..] == messages[..n + 1];
    }
  }

  lemma CutInFirst(messages: seq<Bytes>, cut: nat)
    requires messages != [] && WithinLimit(messages) && cut < |Frame(messages[0])|
    ensures cut <= |Frames(messages)|
    ensures ReadsCut(Parse(Frames(messages)[..cut]), messages, cut)
  {
    var first := Frame(messages[0]);
    assert Frames(messages) == first + Frames(messages[1..]);
    var bytes := first[..cut];
    assert Frames(messages)[..cut] == bytes;
    PartialFrame(messages[0], bytes);
    assert messages[..0 + 1] == [messages[0]];
    assert Frames([messages[0]]) == first + Frames([messages[0]][1..]);
  }

  lemma CutAfterFirst(messages: seq<Bytes>, cut: nat)
    requires messages != [] && WithinLimit(messages)
    requires |Frame(messages[0])| <= cut <= |Frames(messages)|
    ensures var left := Frames(messages[1..])[..cut - |Frame(messages[0])|];
            Parse(Frames(messages)[..cut]) == Prepend([messages[0]], Parse(left))
  {
    var first, rest := Frame(messages[0]), Frames(messages[1..]);
    var left := rest[..cut - |first|];
    assert Frames(messages)[..cut] == first + left;
    FrameAhead(messages[0], left);
  }

  lemma {:induction false} TruncatedStream(messages: seq<Bytes>, cut: nat)
    requires WithinLimit(messages) && cut <= |Frames(messages)|
    ensures ReadsCut(Parse(Frames(messages)[..cut]), messages, cut)
  {
    if messages == [] {
    } else if cut < |Frame(messages[0])| {
      CutInFirst(messages, cut);
    } else {
      CutAfterFirst(messages, cut);
      var left := cut - |Frame(messages[0])|;
      TruncatedStream(messages[1..], left);
      ReadsCutNext(Parse(Frames(messages[1..])[..left]), messages[1..], left, messages[0]);
      assert messages == [messages[0]] + messages[1..];
    }
  }
}
