/**
 * The line-buffered reader of the chat reply stream: each chunk is appended to
 * a text buffer, complete lines are cut off at the first line feed, and each
 * line is classified as ignorable, the `[DONE]` sentinel, or a `data: ` line
 * whose JSON payload may carry a content delta.
 *
 * `DrainLines` states what the inner loop does with one buffer, `Consume` what
 * the whole read loop does with a sequence of chunks.
 */
module EventStream {
  import opened Optional
  import opened JsString

  /**
   * What parsing a payload yields: `ParseFail` when `JSON.parse` or the field
   * read throws, otherwise the value found at `choices[0].delta.content`.
   */
  datatype Parse = ParseFail | Parsed(delta: Option<string>)

  /** The ways a line is handled. */
  datatype LineKind = Skip | Sentinel | Data(json: string)

  /** The result of draining the buffer: the stream returned, or waits for more input. */
  datatype Drained = Returned(content: string) | Waiting(buffer: string, content: string)

  const DataPrefix := "data: "
  const DoneSentinel := "[DONE]"

  /** A line with one trailing carriage return removed, if it has one. */
  function StripCr(line: string): (r: string)
    ensures EndsWith(line, "\r") ==> r + "\r" == line
    ensures !EndsWith(line, "\r") ==> r == line
  {
    if EndsWith(line, "\r") then line[..|line| - 1] else line
  }

  /**
   * How the reader handles a line whose carriage return is already stripped:
   * only a line with the `data: ` prefix is acted on, and a data line never
   * carries the `[DONE]` payload. `ClassifyByPrefix` states the converse.
   */
  function Classify(line: string): (kind: LineKind)
    ensures !kind.Skip? ==> StartsWith(line, DataPrefix)
    ensures kind.Data? ==> kind.json != DoneSentinel
  {
    if StartsWith(line, ":") || Trim(line) == "" then Skip
    else if !StartsWith(line, DataPrefix) then Skip
    else
      var json := Trim(line[|DataPrefix|..]);
      if json == DoneSentinel then Sentinel else Data(json)
  }

  /**
   * A line that starts with `data: ` is neither a comment nor blank, so it is
   * the sentinel exactly when its trimmed payload is `[DONE]`, and otherwise
   * a data line carrying that trimmed payload.
   */
  lemma ClassifyPrefixed(payload: string)
    ensures Classify(DataPrefix + payload) ==
              if Trim(payload) == DoneSentinel then Sentinel else Data(Trim(payload))
  {
    var line := DataPrefix + payload;
    assert line[..|DataPrefix|] == DataPrefix;
    assert line[|DataPrefix|..] == payload;
    assert line[0] == 'd';
    assert !StartsWith(line, ":");
    assert !AllWhitespace(line);
    assert Trim(line) != [];
  }

  /**
   * Comment lines, blank lines and lines without the `data: ` prefix are
   * skipped; the first two tests are subsumed by the third. A data line is
   * the sentinel exactly when its trimmed payload is `[DONE]`.
   */
  lemma ClassifyByPrefix(line: string)
    ensures Classify(line).Skip? <==> !StartsWith(line, DataPrefix)
    ensures Classify(line).Sentinel? <==> StartsWith(line, DataPrefix) && Trim(line[|DataPrefix|..]) == DoneSentinel
    ensures Classify(line).Data? ==>
              StartsWith(line, DataPrefix) && Classify(line).json == Trim(line[|DataPrefix|..]) != DoneSentinel
  {
    if StartsWith(line, DataPrefix) {
      assert line == DataPrefix + line[|DataPrefix|..];
      ClassifyPrefixed(line[|DataPrefix|..]);
    }
  }

  /** A delta is appended when it is a non-empty string; otherwise nothing changes. */
  function AppendDelta(content: string, delta: Option<string>): (r: string)
    ensures content <= r
    ensures r == content <==> delta.None? || delta.value == ""
    ensures delta.Some? ==> r == content + delta.value
  {
    if delta.Some? && delta.value != "" then content + delta.value else content
  }

  /** What a delta adds does not depend on the content it is added to. */
  lemma AppendDeltaFromEmpty(content: string, delta: Option<string>)
    ensures AppendDelta(content, delta) == content + AppendDelta("", delta)
  {
    if delta.Some? && delta.value != "" {
      assert "" + delta.value == delta.value;
    } else {
      assert content + "" == content;
    }
  }

  /** A data line ending in a carriage return: its payload ends in it too. */
  lemma CrPayload(line: string)
    requires StartsWith(line, DataPrefix) && EndsWith(line, "\r")
    ensures var p := line[|DataPrefix|..];
            && |p| > 0 && p == p[..|p| - 1] + ['\r'] && StripCr(line) == DataPrefix + p[..|p| - 1]
  {
    assert line[|DataPrefix| - 1] == ' ';
  }

  /**
   * Stripping a carriage return from a data line already stripped once keeps
   * its payload, because `trim` removes the carriage return anyway.
   */
  lemma StripCrKeepsData(line: string)
    requires Classify(line).Data?
    ensures Classify(StripCr(line)) == Classify(line)
  {
    ClassifyByPrefix(line);
    if EndsWith(line, "\r") {
      CrPayload(line);
      var payload := line[|DataPrefix|..];
      var q := payload[..|payload| - 1];
      TrimDropsTrailingWhitespace(q, '\r');
      assert Classify(line) == Data(Trim(q));
      ClassifyPrefixed(q);
    }
  }

  /** What one complete line does to the reply. */
  datatype Step =
    | Next(content: string)  // reading goes on with this content
    | Stop(content: string)  // the sentinel: the reply is this content
    | Fail                   // the payload did not parse

  /**
   * One complete line, its carriage return already stripped: skipped lines
   * leave the content as it is, the sentinel stops with it, a payload that
   * parses appends its delta, and one that does not parse fails.
   */
  function LineStep(line: string, content: string, parse: string -> Parse): (s: Step)
    ensures s.Next? ==> content <= s.content
    ensures s.Stop? ==> s.content == content
    ensures s.Fail? <==> Classify(line).Data? && parse(Classify(line).json).ParseFail?
  {
    match Classify(line)
    case Skip => Next(content)
    case Sentinel => Stop(content)
    case Data(json) =>
      match parse(json)
      case ParseFail => Fail
      case Parsed(delta) => Next(AppendDelta(content, delta))
  }

  /**
   * What a line does does not depend on the content before it, beyond
   * carrying that content along.
   */
  lemma LineStepFromContent(line: string, content: string, parse: string -> Parse)
    ensures LineStep(line, content, parse) ==
            match LineStep(line, "", parse)
            case Next(d) => Next(content + d)
            case Stop(d) => Stop(content + d)
            case Fail => Fail
  {
    var kind := Classify(line);
    if kind.Data? && parse(kind.json).Parsed? {
      AppendDeltaFromEmpty(content, parse(kind.json).delta);
    } else {
      assert content + "" == content;
    }
  }

  /**
   * The buffer starts with a complete data line whose payload does not parse:
   * the reader re-extracts it on every later chunk and fails again.
   */
  predicate Stalled(buffer: string, parse: string -> Parse) {
    var k := IndexOf(buffer, '\n');
    k >= 0 && Classify(StripCr(buffer[..k])).Data? && parse(Classify(StripCr(buffer[..k])).json).ParseFail?
  }

  /** A line put back in front of the buffer after its payload failed to parse. */
  lemma RebufferedLineStalls(line: string, rest: string, parse: string -> Parse)
    requires '\n' !in line
    requires Classify(line).Data? && parse(Classify(line).json).ParseFail?
    ensures Stalled(line + "\n" + rest, parse)
  {
    CutAtFirst(line, '\n', rest);
    StripCrKeepsData(line);
  }

  /**
   * The inner loop over one buffer: cut the text up to the first line feed,
   * strip its carriage return, and go on until no line feed is left, the
   * sentinel is seen, or a payload fails to parse (then the line goes back in
   * front). The content only grows, and text without a line feed stays
   * buffered as it is.
   */
  function DrainLines(buffer: string, content: string, parse: string -> Parse): (r: Drained)
    ensures content <= r.content
    ensures '\n' !in buffer ==> r == Waiting(buffer, content)
    decreases |buffer|
  {
    var k := IndexOf(buffer, '\n');
    if k == -1 then Waiting(buffer, content)
    else
      var line := StripCr(buffer[..k]);
      var rest := buffer[k + 1..];
      match LineStep(line, content, parse)
      case Next(c) => DrainLines(rest, c, parse)
      case Stop(c) => Returned(c)
      case Fail => Waiting(line + "\n" + rest, content)
  }

  /** One turn of the inner loop: the first line decides how draining goes on. */
  lemma DrainFirstLine(buffer: string, content: string, parse: string -> Parse)
    requires '\n' in buffer
    ensures var k := IndexOf(buffer, '\n');
            var line, rest := StripCr(buffer[..k]), buffer[k + 1..];
            DrainLines(buffer, content, parse) ==
              match LineStep(line, content, parse)
              case Next(c) => DrainLines(rest, c, parse)
              case Stop(c) => Returned(c)
              case Fail => Waiting(line + "\n" + rest, content)
  {
  }

  /**
   * What the inner loop leaves waiting holds no complete line, or starts with
   * the line whose payload failed to parse.
   */
  lemma {:induction false} DrainLeavesNoLineOrStall(buffer: string, content: string, parse: string -> Parse)
    ensures var r := DrainLines(buffer, content, parse);
            r.Waiting? ==> '\n' !in r.buffer || Stalled(r.buffer, parse)
    decreases |buffer|
  {
    if '\n' in buffer {
      var k := IndexOf(buffer, '\n');
      var line := StripCr(buffer[..k]);
      var rest := buffer[k + 1..];
      match LineStep(line, content, parse)
      case Next(c) => DrainLeavesNoLineOrStall(rest, c, parse);
      case Stop(c) =>
      case Fail => RebufferedLineStalls(line, rest, parse);
    }
  }

  /**
   * Cutting at the first line feed splits the buffer into a line without line
   * feeds, the line feed, and the rest; nothing is lost or reordered.
   */
  lemma CutFirstLine(buffer: string)
    requires '\n' in buffer
    ensures var k := IndexOf(buffer, '\n');
            && '\n' !in buffer[..k]
            && buffer[..k] + "\n" + buffer[k + 1..] == buffer
  {
    var k := IndexOf(buffer, '\n');
    assert buffer == buffer[..k] + [buffer[k]] + buffer[k + 1..];
  }

  /** A skipped line neither changes the content nor ends the stream. */
  lemma SkippedLineInert(line: string, rest: string, content: string, parse: string -> Parse)
    requires '\n' !in line
    requires Classify(StripCr(line)).Skip?
    ensures DrainLines(line + "\n" + rest, content, parse) == DrainLines(rest, content, parse)
  {
    var buffer := line + "\n" + rest;
    CutAtFirst(line, '\n', rest);
    assert buffer[..|line|] == line && buffer[|line| + 1..] == rest;
  }

  /** The sentinel returns the content as it is; nothing after it is read. */
  lemma SentinelReturns(line: string, rest: string, content: string, parse: string -> Parse)
    requires '\n' !in line
    requires Classify(StripCr(line)).Sentinel?
    ensures DrainLines(line + "\n" + rest, content, parse) == Returned(content)
  {
    var buffer := line + "\n" + rest;
    CutAtFirst(line, '\n', rest);
    assert buffer[..|line|] == line;
  }

  /** A data line whose payload parses appends its delta and reading goes on. */
  lemma ParsedLineAppends(line: string, rest: string, content: string, parse: string -> Parse)
    requires '\n' !in line
    requires Classify(StripCr(line)).Data? && parse(Classify(StripCr(line)).json).Parsed?
    ensures DrainLines(line + "\n" + rest, content, parse) ==
            DrainLines(rest, AppendDelta(content, parse(Classify(StripCr(line)).json).delta), parse)
  {
    var buffer := line + "\n" + rest;
    CutAtFirst(line, '\n', rest);
    assert buffer[..|line|] == line && buffer[|line| + 1..] == rest;
  }

  /**
   * A data line whose payload does not parse is put back, without its
   * carriage return, in front of the rest, and the chunk is done with.
   */
  lemma FailedLineRebuffered(line: string, rest: string, content: string, parse: string -> Parse)
    requires '\n' !in line
    requires Classify(StripCr(line)).Data? && parse(Classify(StripCr(line)).json).ParseFail?
    ensures DrainLines(line + "\n" + rest, content, parse) == Waiting(StripCr(line) + "\n" + rest, content)
  {
    var buffer := line + "\n" + rest;
    CutAtFirst(line, '\n', rest);
    assert buffer[..|line|] == line && buffer[|line| + 1..] == rest;
  }

  /**
   * The read loop over the remaining chunks: the content returned at the
   * sentinel, or the content accumulated when the transport is exhausted
   * (whatever is still buffered is dropped). It extends the starting content.
   */
  function Consume(chunks: seq<string>, buffer: string, content: string, parse: string -> Parse): (r: string)
    ensures content <= r
  {
    if chunks == [] then content
    else
      match DrainLines(buffer + chunks[0], content, parse)
      case Returned(c) => c
      case Waiting(b, c) => Consume(chunks[1..], b, c, parse)
  }

  /** Appending after a line feed keeps the first line and extends the rest. */
  lemma AppendAfterLine(a: string, b: string)
    requires '\n' in a
    ensures var k := IndexOf(a, '\n');
            && IndexOf(a + b, '\n') == k
            && (a + b)[..k] == a[..k]
            && (a + b)[k + 1..] == a[k + 1..] + b
  {
    IndexOfAppend(a, b, '\n');
  }

  /** More text after a stalled buffer leaves the same first line in front. */
  lemma StalledExtends(buffer: string, more: string, parse: string -> Parse)
    requires Stalled(buffer, parse)
    ensures Stalled(buffer + more, parse)
  {
    AppendAfterLine(buffer, more);
  }

  /** Draining a stalled buffer adds nothing and leaves a stalled buffer. */
  lemma StalledDrainWaits(buffer: string, content: string, parse: string -> Parse)
    requires Stalled(buffer, parse)
    ensures DrainLines(buffer, content, parse).Waiting?
    ensures DrainLines(buffer, content, parse).content == content
    ensures Stalled(DrainLines(buffer, content, parse).buffer, parse)
  {
    var k := IndexOf(buffer, '\n');
    var line := StripCr(buffer[..k]);
    RebufferedLineStalls(line, buffer[k + 1..], parse);
  }

  /** A chunk that leaves the reader waiting hands its buffer and content on to the next. */
  lemma WaitingCarriesOver(chunks: seq<string>, buffer: string, content: string, parse: string -> Parse)
    requires chunks != [] && DrainLines(buffer + chunks[0], content, parse).Waiting?
    ensures var w := DrainLines(buffer + chunks[0], content, parse);
            Consume(chunks, buffer, content, parse) == Consume(chunks[1..], w.buffer, w.content, parse)
  {
  }

  /**
   * After the last chunk the reply is the content the inner loop ends with,
   * whether it returned at the sentinel or the transport simply ended; what
   * is still buffered is dropped.
   */
  lemma LastChunkEndsReply(chunk: string, buffer: string, content: string, parse: string -> Parse)
    ensures Consume([chunk], buffer, content, parse) == DrainLines(buffer + chunk, content, parse).content
  {
    assert [chunk][1..] == [];
  }

  /** Once stalled, the reader never accumulates anything again. */
  lemma {:induction false} StalledStaysFrozen(chunks: seq<string>, buffer: string, content: string, parse: string -> Parse)
    requires Stalled(buffer, parse)
    ensures Consume(chunks, buffer, content, parse) == content
  {
    if chunks != [] {
      StalledExtends(buffer, chunks[0], parse);
      StalledDrainWaits(buffer + chunks[0], content, parse);
      StalledStaysFrozen(chunks[1..], DrainLines(buffer + chunks[0], content, parse).buffer, content, parse);
    }
  }
}
