/**
 * The chat component's reply reader: it reads the streamed reply chunk by
 * chunk, cuts complete lines off a text buffer, appends every content delta to
 * the reply, and after each delta shows the reply so far in the transcript.
 */
module ChatInterface {
  import opened JsString
  import opened Messages
  import opened EventStream
  import opened StreamReference

  /** The component state the reader updates: the transcript on screen. */
  class Chat {
    var messages: seq<Message>

    constructor ()
      ensures messages == []
    {
      messages := [];
    }

    /**
     * Reads the reply delivered as `chunks` (already decoded to text) and
     * returns it. The reply is what `Consume` describes, which is the
     * reference reading of the concatenated text; the transcript ends up
     * showing that reply, under a new assistant message with identifier `id`
     * and time `now` unless the transcript already ended with one.
     */
    method StreamChat(chunks: seq<string>, parse: string -> Parse, id: string, now: int) returns (reply: string)
      modifies this
      ensures reply == Consume(chunks, "", "", parse)
      ensures reply == ReadWhole(Concat(chunks), "", parse).content
      ensures messages == Transcript(old(messages), reply, id, now)
    {
      ReadsAsWhole(chunks, parse);
      ghost var history := messages;
      var buffer := "";
      reply := "";
      var i := 0;
      while true
        invariant 0 <= i <= |chunks|
        invariant Consume(chunks[i..], buffer, reply, parse) == Consume(chunks, "", "", parse)
        invariant messages == Transcript(history, reply, id, now)
        decreases |chunks| - i
      {
        if i == |chunks| {
          break;
        }
        ghost var pending, start := buffer, reply;
        buffer := buffer + chunks[i];
        ghost var drained := DrainLines(buffer, reply, parse);
        assert chunks[i..][1..] == chunks[i + 1..];
        assert Consume(chunks[i..], pending, start, parse) ==
               match drained
               case Returned(c) => c
               case Waiting(b, c) => Consume(chunks[i + 1..], b, c, parse);
        i := i + 1;

        var newline := IndexOf(buffer, '\n');
        while newline != -1
          invariant newline == IndexOf(buffer, '\n')
          invariant DrainLines(buffer, reply, parse) == drained
          invariant messages == Transcript(history, reply, id, now)
          decreases |buffer|
        {
          DrainFirstLine(buffer, reply, parse);
          var line := StripCr(buffer[..newline]);
          buffer := buffer[newline + 1..];
          match Classify(line) {
            case Skip =>
            case Sentinel =>
              assert drained == Returned(reply);
              return;
            case Data(json) =>
              match parse(json) {
                case ParseFail =>
                  buffer := line + "\n" + buffer;
                  assert drained == Waiting(buffer, reply);
                  break;
                case Parsed(delta) =>
                  if delta.Some? && delta.value != "" {
                    ghost var shown := reply;
                    reply := reply + delta.value;
                    TranscriptAdvances(history, shown, reply, id, now);
                    messages := ShowReply(messages, reply, id, now);
                  }
              }
          }
          newline := IndexOf(buffer, '\n');
        }
        assert drained == Waiting(buffer, reply);
      }
      assert chunks[i..] == [];
    }
  }
}
