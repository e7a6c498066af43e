/** The host process's standard streams and the code that drives them:
    `_read_exact`, `read_message`, `send_message` and the `main` loop. Input
    is the whole byte sequence the browser will have written, read from a
    moving position; output is the sequence of bytes written so far, which
    only grows. */
module Host {
  import opened Bytes
  import opened Json
  import opened Framing
  import opened Dispatcher
  import Session

  class Stdio {
    const input: seq<byte>
    var pos: nat
    var output: seq<byte>

    ghost predicate Valid()
      reads this
    {
      pos <= |input|
    }

    constructor (stdin: seq<byte>)
      ensures Valid() && input == stdin && pos == 0 && output == []
    {
      input := stdin;
      pos := 0;
      output := [];
    }

    /** `sys.stdin.buffer.read(k)`: at least one and at most `k` of the next
        bytes, or none once the stream has ended. How many a read returns
        is up to the pipe, so the model leaves the number open. */
    method ReadChunk(k: nat) returns (chunk: seq<byte>)
      requires Valid() && 0 < k
      modifies this`pos
      ensures Valid() && old(pos) <= pos
      ensures chunk == input[old(pos)..pos]
      ensures |chunk| <= k
      ensures chunk == [] <==> old(pos) == |input|
    {
      if pos == |input| {
        chunk := [];
        return;
      }
      var m :| 0 < m <= k && pos + m <= |input|;
      chunk := input[pos..pos + m];
      pos := pos + m;
    }

    /** `_read_exact(n)`: the next `n` bytes, or None (the EOFError) when the
        stream ends first, in which case what was left has been consumed. */
    method ReadExact(n: nat) returns (data: Option<seq<byte>>)
      requires Valid()
      modifies this`pos
      ensures Valid()
      ensures old(pos) + n <= |input| ==> data == Some(input[old(pos)..old(pos) + n]) && pos == old(pos) + n
      ensures |input| < old(pos) + n ==> data == None && pos == |input|
    {
      var acc: seq<byte> := [];
      while |acc| < n
        invariant Valid() && old(pos) <= pos
        invariant |acc| <= n
        invariant acc == input[old(pos)..pos]
        decreases n - |acc|
      {
        var chunk := ReadChunk(n - |acc|);
        if chunk == [] {
          return None;
        }
        acc := acc + chunk;
      }
      return Some(acc);
    }

    /** `read_message`: the next request, or None; every exception the
        reading and decoding can raise ends in None. */
    method ReadMessage(c: Codec) returns (msg: Option<Json>)
      requires Valid()
      modifies this`pos
      ensures Valid()
      ensures ReadFrame(c, input, old(pos)) == ReadResult(msg, pos)
    {
      var header := ReadExact(HEADER_SIZE);
      if header.None? {
        return None;
      }
      var length := DecodeU32(header.value);
      if length > MAX_INCOMING {
        return None;
      }
      var payload := ReadExact(length);
      if payload.None? {
        return None;
      }
      match c.loads(payload.value)
      case None =>
        return None;
      case Some(v) =>
        return if v == JNull then None else Some(v);
    }

    /** `sys.stdout.buffer.write`. */
    method Write(bytes: seq<byte>)
      modifies this`output
      ensures output == old(output) + bytes
    {
      output := output + bytes;
    }

    /** `send_message`: writes the whole frame for `message` and answers
        true, or writes nothing and answers false. */
    method SendMessage(c: Codec, message: Json) returns (ok: bool)
      modifies this`output
      ensures ok <==> OutgoingFrame(c, message).Some?
      ensures output == old(output) + (if ok then OutgoingFrame(c, message).value else [])
    {
      var encoded := c.dumps(message);
      if encoded.None? {
        return false;
      }
      var payload := encoded.value;
      if |payload| > MAX_OUTGOING {
        return false;
      }
      Write(EncodeU32(|payload|));
      Write(payload);
      // The flush has nothing to do here: written bytes are in `output` at once.
      return true;
    }

    /** `main`: read, process and reply until a read gives None or a reply
        cannot be sent. What it writes and where it leaves the input are
        those of `Session.Serve` with `process_message` answering, each
        request with the engine as it is at that request's turn. */
    method Run(c: Codec, engines: Session.Engines)
      requires Valid()
      modifies this`pos, this`output
      ensures Valid()
      ensures var t := Session.Serve(c, Session.AtTurn(engines), input, old(pos), 0);
              output == old(output) + t.out && pos == t.stop
    {
      ghost var respond := Session.AtTurn(engines);
      var turn: nat := 0;
      while true
        invariant Valid() && old(pos) <= pos
        invariant var whole := Session.Serve(c, respond, input, old(pos), 0);
                  var rest := Session.Serve(c, respond, input, pos, turn);
                  old(output) + whole.out == output + rest.out && whole.stop == rest.stop
        decreases |input| - pos
      {
        ghost var start, before := pos, output;
        Session.ServeStep(c, respond, input, start, turn);
        var message := ReadMessage(c);
        if message.None? {
          break;
        }
        // A fresh `YoutubeDL` per request: the engine as it is at this turn.
        var reply := Process(message.value, engines(turn));
        assert reply == respond(turn, message.value);
        var sent := SendMessage(c, reply);
        if !sent {
          break;
        }
        ghost var frame := OutgoingFrame(c, reply).value;
        ghost var rest := Session.Serve(c, respond, input, pos, turn + 1);
        assert Session.Serve(c, respond, input, start, turn).out == frame + rest.out;
        assert output == before + frame;
        AppendAssoc(before, frame, rest.out);
        turn := turn + 1;
      }
    }
  }

  /** Appending to a byte stream is associative. */
  lemma AppendAssoc(a: seq<byte>, b: seq<byte>, c: seq<byte>)
    ensures a + (b + c) == (a + b) + c
  {
  }
}
