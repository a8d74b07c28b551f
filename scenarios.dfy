/**
 * Replies read end to end: data lines whose payloads are single tokens (no
 * line feed, no surrounding whitespace) that the parser maps to deltas.
 */
module Scenarios {
  import opened Optional
  import opened JsString
  import opened EventStream
  import opened StreamReference

  /** A payload that `trim` leaves alone and that fits on one line. */
  predicate IsToken(payload: string) {
    payload != [] && '\n' !in payload && !IsWhitespace(payload[0]) && !IsWhitespace(payload[|payload| - 1])
  }

  /** The event line carrying `payload`. */
  function DataLine(payload: string): string {
    DataPrefix + payload + "\n"
  }

  /** A token data line is classified by its payload: the sentinel or a data line. */
  lemma ClassifyToken(payload: string)
    requires IsToken(payload)
    ensures Classify(StripCr(DataPrefix + payload)) ==
              if payload == DoneSentinel then Sentinel else Data(payload)
  {
    var line := DataPrefix + payload;
    assert line[|line| - 1] == payload[|payload| - 1];
    assert !EndsWith(line, "\r");
    TrimNonBlankEnds(payload);
    ClassifyPrefixed(payload);
  }

  /** A token data line holds no line feed before its end. */
  lemma TokenLineUnbroken(payload: string)
    requires IsToken(payload)
    ensures '\n' !in DataPrefix + payload
  {
    forall i | 0 <= i < |DataPrefix| ensures DataPrefix[i] != '\n' {
    }
  }

  /** A data line split at its line feed, alone or in front of more text. */
  lemma DataLineSplits(payload: string, rest: string)
    ensures "" + DataLine(payload) == (DataPrefix + payload) + "\n" + ""
    ensures "" + (DataLine(payload) + rest) == (DataPrefix + payload) + "\n" + rest
    ensures DataLine(payload) == (DataPrefix + payload) + "\n" + ""
  {
  }

  /** A token data line appends its delta, and reading goes on after it. */
  lemma DataLineDrains(x: string, dx: string, rest: string, content: string, parse: string -> Parse)
    requires IsToken(x) && x != DoneSentinel && parse(x) == Parsed(Some(dx))
    ensures DrainLines(DataLine(x) + rest, content, parse) == DrainLines(rest, AppendDelta(content, Some(dx)), parse)
  {
    var line := DataPrefix + x;
    ClassifyToken(x);
    TokenLineUnbroken(x);
    DataLineSplits(x, rest);
    ParsedLineAppends(line, rest, content, parse);
  }

  /** The sentinel line returns the content as it is. */
  lemma DoneLineReturns(rest: string, content: string, parse: string -> Parse)
    ensures DrainLines(DataLine(DoneSentinel) + rest, content, parse) == Returned(content)
  {
    ClassifyToken(DoneSentinel);
    TokenLineUnbroken(DoneSentinel);
    DataLineSplits(DoneSentinel, rest);
    SentinelReturns(DataPrefix + DoneSentinel, rest, content, parse);
  }

  /**
   * Two deltas, the second delivered in the same chunk as the sentinel, are
   * joined in order and the reply ends there.
   */
  lemma TwoDeltasThenDone(a: string, b: string, da: string, db: string, parse: string -> Parse)
    requires IsToken(a) && IsToken(b) && a != DoneSentinel && b != DoneSentinel
    requires parse(a) == Parsed(Some(da)) && parse(b) == Parsed(Some(db))
    ensures Consume([DataLine(a), DataLine(b) + DataLine(DoneSentinel)], "", "", parse) == da + db
  {
    var chunks := [DataLine(a), DataLine(b) + DataLine(DoneSentinel)];
    assert "" + chunks[0] == DataLine(a) + "";
    DataLineDrains(a, da, "", "", parse);
    assert AppendDelta("", Some(da)) == da;
    WaitingCarriesOver(chunks, "", "", parse);
    assert chunks[1..] == [chunks[1]];
    LastChunkEndsReply(chunks[1], "", da, parse);
    assert "" + chunks[1] == DataLine(b) + DataLine(DoneSentinel);
    DataLineDrains(b, db, DataLine(DoneSentinel), da, parse);
    DoneLineReturns("", da + db, parse);
    assert DataLine(DoneSentinel) + "" == DataLine(DoneSentinel);
  }

  /** A reply that ends without the sentinel keeps the delta it received. */
  lemma EndWithoutDone(x: string, dx: string, parse: string -> Parse)
    requires IsToken(x) && x != DoneSentinel && parse(x) == Parsed(Some(dx))
    ensures Consume([DataLine(x)], "", "", parse) == dx
  {
    assert "" + DataLine(x) == DataLine(x) + "";
    DataLineDrains(x, dx, "", "", parse);
    assert AppendDelta("", Some(dx)) == dx;
    LastChunkEndsReply(DataLine(x), "", "", parse);
  }

  /**
   * A data line cut in two by the transport, anywhere in its payload, is read
   * once it is complete: the reply is that of the uncut line.
   */
  lemma SplitLineJoined(x1: string, x2: string, dx: string, parse: string -> Parse)
    requires IsToken(x1 + x2) && x1 + x2 != DoneSentinel && parse(x1 + x2) == Parsed(Some(dx))
    ensures Consume([DataPrefix + x1, x2 + "\n"], "", "", parse) == dx
  {
    var split := [DataPrefix + x1, x2 + "\n"];
    var whole := [DataLine(x1 + x2)];
    assert Concat(split) == DataLine(x1 + x2) by {
      assert split[1..] == [x2 + "\n"];
      ConcatSingle(x2 + "\n");
      assert Concat(split) == DataPrefix + x1 + (x2 + "\n");
      assert DataPrefix + x1 + (x2 + "\n") == DataPrefix + (x1 + x2) + "\n";
    }
    ConcatSingle(DataLine(x1 + x2));
    ChunkingInvariance(split, whole, parse);
    EndWithoutDone(x1 + x2, dx, parse);
  }
}
