/** What the `main` loop of the host does with a whole input stream, as a
    function: read a request, answer it, and go on until a read gives None
    or a reply cannot be sent. `Host.Stdio.Run` is proved to do exactly
    this. */
module Session {
  import opened Bytes
  import opened Json
  import opened Framing
  import opened Dispatcher

  /** One run of the loop: the requests it read, the replies it wrote, the
      bytes it wrote, and the input position where it stopped. */
  datatype Transcript = Transcript(requests: seq<Json>, replies: seq<Json>, out: seq<byte>, stop: nat)

  /** The download engine over a whole run: `engines(n)` is how it answers
      the request the loop reads `n`-th. `process_message` builds a fresh
      `YoutubeDL` each time `main` calls it, once per request, and its
      outcome depends on the network at that moment, so the same request
      may fail once and succeed when sent again. */
  type Engines = nat -> Downloader

  /** What the loop does with the request it reads at turn `n`. */
  type Responder = (nat, Json) -> Json

  /** `process_message` as `main` calls it: at turn `n`, with the engine as
      it is at that turn. */
  function AtTurn(engines: Engines): Responder
  {
    (n: nat, request: Json) => Process(request, engines(n))
  }

  /** The messages `read_message` yields from `pos` on, up to its first
      None: the requests the loop can see at all, whatever it replies. */
  function Decoded(c: Codec, input: seq<byte>, pos: nat): seq<Json>
    requires pos <= |input|
    decreases |input| - pos
  {
    var r := ReadFrame(c, input, pos);
    match r.msg
    case None => []
    case Some(request) => [request] + Decoded(c, input, r.next)
  }

  /** The frames of `replies`, one after the other. */
  function Written(c: Codec, replies: seq<Json>): seq<byte>
  {
    if replies == [] then []
    else
      (match OutgoingFrame(c, replies[0]) case Some(f) => f case None => []) + Written(c, replies[1..])
  }

  /** Each of `replies` is what `respond` answers to the request at the
      same place in `requests`, at turn `turn` plus that place, and fits in
      a frame; a request left without a reply is one whose answer does not
      fit. */
  predicate Answers(c: Codec, respond: Responder, turn: nat, requests: seq<Json>, replies: seq<Json>)
    decreases |replies|
  {
    |replies| <= |requests| <= |replies| + 1
    && if replies == [] then
         requests != [] ==> OutgoingFrame(c, respond(turn, requests[0])).None?
       else
         && replies[0] == respond(turn, requests[0])
         && OutgoingFrame(c, replies[0]).Some?
         && Answers(c, respond, turn + 1, requests[1..], replies[1..])
  }

  /** Answers, one position at a time. */
  lemma {:induction false} AnswersAt(c: Codec, respond: Responder, turn: nat, requests: seq<Json>, replies: seq<Json>, i: nat)
    requires Answers(c, respond, turn, requests, replies)
    requires i < |replies|
    decreases i
    ensures i < |requests| && replies[i] == respond(turn + i, requests[i])
    ensures OutgoingFrame(c, replies[i]).Some?
  {
    if i > 0 {
      AnswersAt(c, respond, turn + 1, requests[1..], replies[1..], i - 1);
    }
  }

  /** The request left without a reply is the one whose answer, at its own
      turn, does not fit in a frame. */
  lemma {:induction false} AnswersUnsent(c: Codec, respond: Responder, turn: nat, requests: seq<Json>, replies: seq<Json>)
    requires Answers(c, respond, turn, requests, replies)
    requires |requests| == |replies| + 1
    decreases |replies|
    ensures OutgoingFrame(c, respond(turn + |replies|, requests[|replies|])).None?
  {
    if replies != [] {
      AnswersUnsent(c, respond, turn + 1, requests[1..], replies[1..]);
      assert requests[1..][|replies[1..]|] == requests[|replies|];
    }
  }

  /** The loop of `main` on `input` from `pos`, from turn `turn` on, with
      `respond` answering each request. Each reply answers the request read
      just before it; the replies are written in the order the requests
      came; the requests are the decoded ones, all of them unless a reply
      could not be sent, in which case the loop stops right after that
      request. */
  function Serve(c: Codec, respond: Responder, input: seq<byte>, pos: nat, turn: nat): (t: Transcript)
    requires pos <= |input|
    decreases |input| - pos
    ensures pos <= t.stop <= |input|
    ensures Answers(c, respond, turn, t.requests, t.replies)
    ensures t.requests <= Decoded(c, input, pos)
    ensures |t.requests| == |t.replies| ==> t.requests == Decoded(c, input, pos)
    ensures t.out == Written(c, t.replies)
  {
    var r := ReadFrame(c, input, pos);
    match r.msg
    case None => Transcript([], [], [], r.next)
    case Some(request) =>
      var reply := respond(turn, request);
      match OutgoingFrame(c, reply)
      case None => Transcript([request], [], [], r.next)
      case Some(frame) =>
        var rest := Serve(c, respond, input, r.next, turn + 1);
        var t := Transcript([request] + rest.requests, [reply] + rest.replies, frame + rest.out, rest.stop);
        assert Decoded(c, input, pos) == [request] + Decoded(c, input, r.next);
        assert t.replies[1..] == rest.replies;
        assert Written(c, t.replies) == frame + Written(c, rest.replies);
        assert t.requests[1..] == rest.requests;
        t
  }

  /** In the run `main` makes, reply `i` is `process_message` of request
      `i` with the engine as it is at turn `i`. */
  lemma ReplyIsProcess(c: Codec, engines: Engines, input: seq<byte>, pos: nat, i: nat)
    requires pos <= |input|
    ensures var t := Serve(c, AtTurn(engines), input, pos, 0);
            i < |t.replies| ==> i < |t.requests| && t.replies[i] == Process(t.requests[i], engines(i))
  {
    var respond := AtTurn(engines);
    var t := Serve(c, respond, input, pos, 0);
    if i < |t.replies| {
      AnswersAt(c, respond, 0, t.requests, t.replies, i);
      assert t.replies[i] == respond(i, t.requests[i]);
    }
  }

  /** One turn of the loop: what a read, its reply and the send of that
      reply leave of the run from `pos`. */
  lemma ServeStep(c: Codec, respond: Responder, input: seq<byte>, pos: nat, turn: nat)
    requires pos <= |input|
    ensures var r := ReadFrame(c, input, pos);
            var t := Serve(c, respond, input, pos, turn);
            if r.msg.None? then t.out == [] && t.stop == r.next
            else
              var frame := OutgoingFrame(c, respond(turn, r.msg.value));
              if frame.None? then t.out == [] && t.stop == r.next
              else t.out == frame.value + Serve(c, respond, input, r.next, turn + 1).out
                   && t.stop == Serve(c, respond, input, r.next, turn + 1).stop
  {
  }

  /** A value the peer can send as one frame. */
  predicate Framable(c: Codec, v: Json)
  {
    v != JNull && c.dumps(v).Some? && |c.dumps(v).value| <= MAX_INCOMING
  }

  /** The stream of frames a peer writes for `requests`. */
  function Incoming(c: Codec, requests: seq<Json>): (s: seq<byte>)
    requires forall i :: 0 <= i < |requests| ==> Framable(c, requests[i])
  {
    if requests == [] then []
    else
      assert Framable(c, requests[0]);
      assert forall i :: 0 <= i < |requests[1..]| ==> requests[1..][i] == requests[i + 1];
      Frame(c.dumps(requests[0]).value) + Incoming(c, requests[1..])
  }

  /** Every one of `requests` gets an answer from `respond` that fits in a
      frame, the first at turn `turn`. */
  predicate AllFit(c: Codec, respond: Responder, turn: nat, requests: seq<Json>)
    decreases |requests|
  {
    requests != [] ==>
      OutgoingFrame(c, respond(turn, requests[0])).Some?
      && AllFit(c, respond, turn + 1, requests[1..])
  }

  /** A peer that sends well-formed requests and then closes its end gets
      exactly one reply per request, in order, provided every reply fits
      in a frame; the loop then stops at the end of the stream. */
  lemma {:induction false} ServeWellFormed(c: Codec, respond: Responder, turn: nat, before: seq<byte>, requests: seq<Json>)
    requires Sound(c)
    requires forall i :: 0 <= i < |requests| ==> Framable(c, requests[i])
    requires AllFit(c, respond, turn, requests)
    decreases |requests|
    ensures var t := Serve(c, respond, before + Incoming(c, requests), |before|, turn);
            && t.requests == requests
            && |t.replies| == |requests|
            && t.stop == |before + Incoming(c, requests)|
  {
    var input := before + Incoming(c, requests);
    if requests == [] {
      assert input == before;
    } else {
      var payload := c.dumps(requests[0]).value;
      var rest := Incoming(c, requests[1..]);
      var next := before + Frame(payload);
      assert input == next + rest;
      FrameRoundTrip(before, payload, rest);
      assert ReadFrame(c, input, |before|) == ReadResult(Some(requests[0]), |next|);
      assert forall i :: 0 <= i < |requests[1..]| ==> requests[1..][i] == requests[i + 1];
      ServeWellFormed(c, respond, turn + 1, next, requests[1..]);
    }
  }

  /** The engine fails at one turn and succeeds at the next: the two
      answers `process_message` gives. */
  lemma RetryReplies(engines: Engines, turn: nat, request: Json, message: string)
    requires Plan(request).Download?
    requires engines(turn)(Plan(request).url, Plan(request).options) == Fail(message)
    requires engines(turn + 1)(Plan(request).url, Plan(request).options).Ok?
    ensures AtTurn(engines)(turn, request) == ErrorReply(message)
    ensures AtTurn(engines)(turn + 1, request) == SuccessReply(Get(request.fields, "action"), Get(request.fields, "url"))
  {
    DownloadOutcome(request, engines(turn));
    DownloadOutcome(request, engines(turn + 1));
  }

  /** A request that fails is worth sending again: the engine is asked
      afresh at every turn, so the same download can fail and then
      succeed, and the two replies say so in that order. */
  lemma RetryAfterFailure(c: Codec, engines: Engines, turn: nat, request: Json, message: string)
    requires Sound(c) && Framable(c, request)
    requires Plan(request).Download?
    requires engines(turn)(Plan(request).url, Plan(request).options) == Fail(message)
    requires engines(turn + 1)(Plan(request).url, Plan(request).options).Ok?
    requires OutgoingFrame(c, ErrorReply(message)).Some?
    requires OutgoingFrame(c, SuccessReply(Get(request.fields, "action"), Get(request.fields, "url"))).Some?
    ensures Serve(c, AtTurn(engines), Incoming(c, [request, request]), 0, turn).replies
            == [ErrorReply(message), SuccessReply(Get(request.fields, "action"), Get(request.fields, "url"))]
  {
    var requests := [request, request];
    RetryReplies(engines, turn, request, message);
    assert AllFit(c, AtTurn(engines), turn + 1, requests[1..]);
    ServeWellFormed(c, AtTurn(engines), turn, [], requests);
    assert [] + Incoming(c, requests) == Incoming(c, requests);
    var t := Serve(c, AtTurn(engines), Incoming(c, requests), 0, turn);
    AnswersAt(c, AtTurn(engines), turn, t.requests, t.replies, 0);
    AnswersAt(c, AtTurn(engines), turn, t.requests, t.replies, 1);
  }

  /** A declared length over the incoming ceiling ends the loop at once:
      no reply, no byte written, and no payload byte consumed. */
  lemma OversizeStops(c: Codec, respond: Responder, input: seq<byte>, pos: nat, turn: nat)
    requires pos + HEADER_SIZE <= |input|
    requires DecodeU32(input[pos..pos + HEADER_SIZE]) > MAX_INCOMING
    ensures Serve(c, respond, input, pos, turn) == Transcript([], [], [], pos + HEADER_SIZE)
  {
  }

  /** A stream that ends on a frame boundary ends the loop cleanly, with
      the position left at the end. */
  lemma EndOfStreamStops(c: Codec, respond: Responder, input: seq<byte>, turn: nat)
    ensures Serve(c, respond, input, |input|, turn) == Transcript([], [], [], |input|)
  {
  }
}
