/**
 * A reference reading of the reply stream that does not depend on how the
 * transport cut it into chunks: the whole text received is read line by line
 * from the start, and reading ends at the sentinel, at a payload that does not
 * parse, or when no complete line is left. The incremental reader of
 * `EventStream` returns the same content for every chunking.
 */
module StreamReference {
  import opened JsString
  import opened EventStream

  /** How reading a text ends. */
  datatype Progress =
    | Streaming(content: string)   // no complete line is left
    | Terminated(content: string)  // the `[DONE]` sentinel was read
    | Blocked(content: string)     // a payload failed to parse

  /** The text the transport delivered, in order. */
  function Concat(chunks: seq<string>): string {
    if chunks == [] then "" else chunks[0] + Concat(chunks[1..])
  }

  lemma {:induction false} ConcatAppend(a: seq<string>, b: seq<string>)
    ensures Concat(a + b) == Concat(a) + Concat(b)
  {
    if a == [] {
      assert a + b == b;
    } else {
      assert (a + b)[1..] == a[1..] + b;
      ConcatAppend(a[1..], b);
    }
  }

  /**
   * The text after the last line feed: a line not yet complete. It is the
   * whole text when there is no line feed, and otherwise starts right after one.
   */
  function Remainder(text: string): (r: string)
    ensures '\n' !in r
    ensures |r| <= |text| && r == text[|text| - |r|..]
    ensures r == text || text[|text| - |r| - 1] == '\n'
    decreases |text|
  {
    var k := IndexOf(text, '\n');
    if k == -1 then text else Remainder(text[k + 1..])
  }

  /**
   * The complete lines of `text` in order: skipped lines change nothing, the
   * sentinel ends the reading, a payload that does not parse blocks it, and a
   * parsed delta is appended. The content only grows, and text without a
   * complete line reads as nothing.
   */
  function ReadWhole(text: string, content: string, parse: string -> Parse): (p: Progress)
    ensures content <= p.content
    ensures '\n' !in text ==> p == Streaming(content)
    decreases |text|
  {
    var k := IndexOf(text, '\n');
    if k == -1 then Streaming(content)
    else
      var rest := text[k + 1..];
      match LineStep(StripCr(text[..k]), content, parse)
      case Next(c) => ReadWhole(rest, c, parse)
      case Stop(c) => Terminated(c)
      case Fail => Blocked(content)
  }

  /**
   * The content is accumulated append-only: reading from some content gives
   * that content followed by what reading from nothing gives, and the reading
   * ends the same way.
   */
  lemma {:induction false} ReadWholeFromContent(text: string, content: string, parse: string -> Parse)
    ensures ReadWhole(text, content, parse).content == content + ReadWhole(text, "", parse).content
    ensures ReadWhole(text, content, parse).Streaming? == ReadWhole(text, "", parse).Streaming?
    ensures ReadWhole(text, content, parse).Terminated? == ReadWhole(text, "", parse).Terminated?
    decreases |text|
  {
    if '\n' in text {
      var k := IndexOf(text, '\n');
      var line := StripCr(text[..k]);
      var rest := text[k + 1..];
      LineStepFromContent(line, content, parse);
      match LineStep(line, "", parse)
      case Next(d) =>
        ReadWholeFromContent(rest, content + d, parse);
        ReadWholeFromContent(rest, d, parse);
        ConcatAssoc(content, d, ReadWhole(rest, "", parse).content);
      case Stop(d) =>
      case Fail =>
        assert content + "" == content;
    } else {
      assert content + "" == content;
    }
  }

  /**
   * Reading a text and then more: the complete lines of the first part are
   * read first, and the rest is read, from the pending remainder on, only if
   * the first part left the stream open.
   */
  lemma {:induction false} ReadWholeAppend(a: string, b: string, content: string, parse: string -> Parse)
    ensures var p := ReadWhole(a, content, parse);
            ReadWhole(a + b, content, parse) == if p.Streaming? then ReadWhole(Remainder(a) + b, p.content, parse) else p
    decreases |a|
  {
    if '\n' in a {
      var k := IndexOf(a, '\n');
      AppendAfterLine(a, b);
      var rest := a[k + 1..];
      match LineStep(StripCr(a[..k]), content, parse)
      case Next(c) => ReadWholeAppend(rest, b, c, parse);
      case Stop(c) =>
      case Fail =>
    }
  }

  /** A data line whose payload does not parse blocks the reading, whatever follows it. */
  lemma RebufferedLineBlocks(line: string, rest: string, more: string, content: string, parse: string -> Parse)
    requires '\n' !in line
    requires Classify(line).Data? && parse(Classify(line).json).ParseFail?
    ensures ReadWhole(line + "\n" + rest + more, content, parse) == Blocked(content)
  {
    var tail := rest + more;
    var text := line + "\n" + tail;
    ConcatAssoc(line + "\n", rest, more);
    CutAtFirst(line, '\n', tail);
    StripCrKeepsData(line);
    assert LineStep(StripCr(line), content, parse) == Fail;
    ReadFirstLine(text, content, parse);
  }

  /** The first line of the text decides how reading goes on. */
  lemma ReadFirstLine(text: string, content: string, parse: string -> Parse)
    requires '\n' in text
    ensures var k := IndexOf(text, '\n');
            ReadWhole(text, content, parse) ==
              match LineStep(StripCr(text[..k]), content, parse)
              case Next(c) => ReadWhole(text[k + 1..], c, parse)
              case Stop(c) => Terminated(c)
              case Fail => Blocked(content)
  {
  }

  /**
   * The inner loop agrees with the reference on whatever text follows the
   * buffer: it returns where the reference terminates, and what it leaves
   * waiting reads, with the same text after it, as the buffer did.
   */
  lemma {:induction false} DrainLinesAgrees(buffer: string, content: string, parse: string -> Parse, more: string)
    ensures match DrainLines(buffer, content, parse)
            case Returned(c) => ReadWhole(buffer + more, content, parse) == Terminated(c)
            case Waiting(b, c) => ReadWhole(buffer + more, content, parse) == ReadWhole(b + more, c, parse)
    decreases |buffer|
  {
    if '\n' in buffer {
      var k := IndexOf(buffer, '\n');
      AppendAfterLine(buffer, more);
      var line := StripCr(buffer[..k]);
      var rest := buffer[k + 1..];
      match LineStep(line, content, parse)
      case Next(c) => DrainLinesAgrees(rest, c, parse, more);
      case Stop(c) =>
      case Fail => RebufferedLineBlocks(line, rest, more, content, parse);
    }
  }

  /** The read loop agrees with the reference, from any buffer the inner loop can leave behind. */
  lemma {:induction false} ConsumeAgrees(chunks: seq<string>, buffer: string, content: string, parse: string -> Parse)
    requires '\n' !in buffer || Stalled(buffer, parse)
    ensures Consume(chunks, buffer, content, parse) == ReadWhole(buffer + Concat(chunks), content, parse).content
  {
    if chunks == [] {
      assert buffer + Concat(chunks) == buffer;
    } else {
      var text := buffer + chunks[0];
      assert buffer + Concat(chunks) == text + Concat(chunks[1..]);
      DrainLinesAgrees(text, content, parse, Concat(chunks[1..]));
      DrainLeavesNoLineOrStall(text, content, parse);
      match DrainLines(text, content, parse)
      case Returned(c) =>
      case Waiting(b, c) => ConsumeAgrees(chunks[1..], b, c, parse);
    }
  }

  /** What the incremental reader returns is the reference reading of all the text it received. */
  lemma ReadsAsWhole(chunks: seq<string>, parse: string -> Parse)
    ensures Consume(chunks, "", "", parse) == ReadWhole(Concat(chunks), "", parse).content
  {
    ConsumeAgrees(chunks, "", "", parse);
    assert "" + Concat(chunks) == Concat(chunks);
  }

  /** Where the transport cuts the text makes no difference to the reply. */
  lemma ChunkingInvariance(a: seq<string>, b: seq<string>, parse: string -> Parse)
    requires Concat(a) == Concat(b)
    ensures Consume(a, "", "", parse) == Consume(b, "", "", parse)
  {
    ReadsAsWhole(a, parse);
    ReadsAsWhole(b, parse);
  }

  /**
   * Once the text received holds the sentinel or a payload that does not
   * parse, nothing the transport delivers later changes the reply.
   */
  lemma EndedStreamIgnoresLaterInput(chunks: seq<string>, later: seq<string>, parse: string -> Parse)
    requires !ReadWhole(Concat(chunks), "", parse).Streaming?
    ensures Consume(chunks + later, "", "", parse) == Consume(chunks, "", "", parse)
  {
    ReadsAsWhole(chunks, parse);
    ReadsAsWhole(chunks + later, parse);
    ConcatAppend(chunks, later);
    ReadWholeAppend(Concat(chunks), Concat(later), "", parse);
  }

  lemma ConcatSingle(t: string)
    ensures Concat([t]) == t
  {
    assert Concat([t]) == t + Concat([]);
  }

  lemma TailUnread(text: string, tail: string, parse: string -> Parse)
    requires '\n' !in tail
    ensures ReadWhole(text + tail, "", parse).content == ReadWhole(text, "", parse).content
  {
    ReadWholeAppend(text, tail, "", parse);
    assert '\n' !in Remainder(text) + tail;
  }

  /**
   * A last chunk without a line feed is never read: at the end of the
   * transport a pending partial line is dropped, not an error.
   */
  lemma UnterminatedTailDropped(chunks: seq<string>, tail: string, parse: string -> Parse)
    requires '\n' !in tail
    ensures Consume(chunks + [tail], "", "", parse) == Consume(chunks, "", "", parse)
  {
    ReadsAsWhole(chunks, parse);
    ReadsAsWhole(chunks + [tail], parse);
    ConcatAppend(chunks, [tail]);
    ConcatSingle(tail);
    TailUnread(Concat(chunks), tail, parse);
  }
}
