/** The frame codec of the host: a 4-byte length field followed by that
    many bytes of UTF-8 JSON text, in both directions, with a ceiling on
    each. Everything here is a function of the byte stream; the stream
    object that applies these functions is `Host.Stdio`. */
module Framing {
  import opened Bytes
  import opened Json

  const HEADER_SIZE: nat := 4
  const MAX_INCOMING: nat := 64 * 1024 * 1024
  const MAX_OUTGOING: nat := 1 * 1024 * 1024

  /** What one attempt to read a frame meets on the stream, before the
      payload is handed to the JSON decoder. */
  datatype RawOutcome =
    | HeaderEof                   // the stream ended inside the length field
    | TooLarge(length: nat)       // the length field declared more than MAX_INCOMING
    | PayloadEof(length: nat)     // the stream ended inside the payload
    | Payload(bytes: seq<byte>)   // a complete payload of the declared length

  /** The outcome, and the stream position after the attempt. */
  datatype RawRead = RawRead(outcome: RawOutcome, next: nat)

  /** The byte-level part of `read_message` on the stream `input` read from
      `pos`. A read that meets the end of the stream has consumed whatever
      was left, as `_read_exact` does before it raises. */
  function ReadRaw(input: seq<byte>, pos: nat): (r: RawRead)
    requires pos <= |input|
    ensures pos <= r.next <= |input|
  {
    if |input| - pos < HEADER_SIZE then RawRead(HeaderEof, |input|)
    else
      var length := DecodeU32(input[pos..pos + HEADER_SIZE]);
      if length > MAX_INCOMING then RawRead(TooLarge(length), pos + HEADER_SIZE)
      else if |input| - (pos + HEADER_SIZE) < length then RawRead(PayloadEof(length), |input|)
      else RawRead(Payload(input[pos + HEADER_SIZE..pos + HEADER_SIZE + length]), pos + HEADER_SIZE + length)
  }

  /** The decoded message (None for Python's None) and the position after it. */
  datatype ReadResult = ReadResult(msg: Option<Json>, next: nat)

  /** `read_message`: every failure (end of stream inside the header or the
      payload, a declared length over the ceiling, a payload that is not
      UTF-8 JSON) gives None. A payload that decodes to JSON `null` gives
      None as well, since that is what `json.loads` returns for it. */
  function ReadFrame(c: Codec, input: seq<byte>, pos: nat): (r: ReadResult)
    requires pos <= |input|
    ensures pos <= r.next <= |input|
    ensures r.msg.Some? ==> pos + HEADER_SIZE <= r.next && r.msg.value != JNull
  {
    var raw := ReadRaw(input, pos);
    match raw.outcome
    case Payload(bytes) =>
      (match c.loads(bytes)
       case Some(v) => ReadResult(if v == JNull then None else Some(v), raw.next)
       case None => ReadResult(None, raw.next))
    case _ => ReadResult(None, raw.next)
  }

  /** The bytes that carry `payload`: its length field, then the payload. */
  function Frame(payload: seq<byte>): (f: seq<byte>)
    requires |payload| < U32_LIMIT
    ensures |f| == HEADER_SIZE + |payload|
    ensures DecodeU32(f[..HEADER_SIZE]) == |payload| && f[HEADER_SIZE..] == payload
  {
    DecodeEncode(|payload|);
    EncodeU32(|payload|) + payload
  }

  /** What `send_message` writes for `msg`: a whole frame, or nothing when
      the message cannot be encoded or its encoding exceeds MAX_OUTGOING. */
  function OutgoingFrame(c: Codec, msg: Json): (f: Option<seq<byte>>)
    ensures f.Some? <==> c.dumps(msg).Some? && |c.dumps(msg).value| <= MAX_OUTGOING
    ensures f.Some? ==> && |f.value| == HEADER_SIZE + |c.dumps(msg).value|
                        && DecodeU32(f.value[..HEADER_SIZE]) == |c.dumps(msg).value|
                        && f.value[HEADER_SIZE..] == c.dumps(msg).value
  {
    match c.dumps(msg)
    case None => None
    case Some(payload) => if |payload| > MAX_OUTGOING then None else Some(Frame(payload))
  }

  /** A frame whose payload is within the incoming ceiling is read back as
      the same payload, consuming exactly the frame, whatever precedes and
      follows it. Every outgoing frame qualifies, as MAX_OUTGOING is below
      MAX_INCOMING. */
  lemma FrameRoundTrip(before: seq<byte>, payload: seq<byte>, after: seq<byte>)
    requires |payload| <= MAX_INCOMING
    ensures ReadRaw(before + Frame(payload) + after, |before|)
            == RawRead(Payload(payload), |before| + HEADER_SIZE + |payload|)
  {
    var input := before + Frame(payload) + after;
    var p := |before|;
    assert input[p..p + HEADER_SIZE] == Frame(payload)[..HEADER_SIZE];
    assert input[p + HEADER_SIZE..p + HEADER_SIZE + |payload|] == payload;
  }

  /** What the host sends is what a peer running the same codec reads: the
      message itself (None for `null`, as `read_message` gives), with the
      position just past the frame. */
  lemma OutgoingRoundTrip(c: Codec, msg: Json, before: seq<byte>, after: seq<byte>)
    requires Sound(c)
    requires OutgoingFrame(c, msg).Some?
    ensures ReadFrame(c, before + OutgoingFrame(c, msg).value + after, |before|)
            == ReadResult(if msg == JNull then None else Some(msg), |before| + |OutgoingFrame(c, msg).value|)
  {
    var payload := c.dumps(msg).value;
    FrameRoundTrip(before, payload, after);
  }

  /** The incoming ceiling: a declared length over MAX_INCOMING (and only
      such a length) is refused, and then nothing past the length field is
      read. A length of exactly MAX_INCOMING is not refused. */
  lemma IncomingCeiling(c: Codec, input: seq<byte>, pos: nat)
    requires pos + HEADER_SIZE <= |input|
    ensures ReadRaw(input, pos).outcome.TooLarge?
            <==> DecodeU32(input[pos..pos + HEADER_SIZE]) > MAX_INCOMING
    ensures ReadRaw(input, pos).outcome.TooLarge?
            ==> ReadRaw(input, pos).next == pos + HEADER_SIZE && ReadFrame(c, input, pos).msg == None
  {
  }

  /** The stream ending inside a frame (with nothing left, inside the length
      field, or inside the payload) gives None and leaves the stream at its
      end; the truncated payload is never decoded. */
  lemma TruncatedFrame(c: Codec, input: seq<byte>, pos: nat)
    requires pos <= |input|
    requires |input| - pos < HEADER_SIZE
             || (DecodeU32(input[pos..pos + HEADER_SIZE]) <= MAX_INCOMING
                 && |input| - pos - HEADER_SIZE < DecodeU32(input[pos..pos + HEADER_SIZE]))
    ensures ReadFrame(c, input, pos) == ReadResult(None, |input|)
  {
  }

  /** A message is only ever produced from a complete frame: the length
      field was read, the declared number of payload bytes followed, all of
      them were consumed, and the message is what those bytes decode to. */
  lemma MessageFromCompleteFrame(c: Codec, input: seq<byte>, pos: nat)
    requires pos <= |input|
    requires ReadFrame(c, input, pos).msg.Some?
    ensures pos + HEADER_SIZE <= |input|
    ensures var length := DecodeU32(input[pos..pos + HEADER_SIZE]);
            && length <= MAX_INCOMING
            && ReadFrame(c, input, pos).next == pos + HEADER_SIZE + length
            && c.loads(input[pos + HEADER_SIZE..pos + HEADER_SIZE + length]) == ReadFrame(c, input, pos).msg
  {
  }

  /** A complete frame whose payload does not decode gives None, after the
      whole frame has been consumed. */
  lemma UndecodablePayload(c: Codec, input: seq<byte>, pos: nat)
    requires pos <= |input|
    requires ReadRaw(input, pos).outcome.Payload?
    requires var decoded := c.loads(ReadRaw(input, pos).outcome.bytes); decoded.None? || decoded == Some(JNull)
    ensures ReadFrame(c, input, pos) == ReadResult(None, ReadRaw(input, pos).next)
  {
  }
}
