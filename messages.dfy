/**
 * The chat transcript shown to the user, and the update it receives each time
 * a streamed reply grows.
 */
module Messages {

  datatype Role = User | Assistant

  /** A chat message; `timestamp` is its creation time in milliseconds. */
  datatype Message = Message(id: string, role: Role, content: string, timestamp: int)

  /** The last message of the list exists and is the assistant's. */
  predicate EndsWithAssistant(msgs: seq<Message>) {
    |msgs| > 0 && msgs[|msgs| - 1].role == Assistant
  }

  /**
   * The updater given to `setMessages` after each content delta: when the last
   * message is the assistant's its content is replaced (same id, role and
   * timestamp), otherwise a new assistant message with identifier `id` and
   * creation time `now` is appended. Either way no earlier message changes.
   */
  function ShowReply(prev: seq<Message>, text: string, id: string, now: int): (next: seq<Message>)
    ensures EndsWithAssistant(next) && next[|next| - 1].content == text
    ensures EndsWithAssistant(prev) ==>
              && |next| == |prev|
              && next[..|prev| - 1] == prev[..|prev| - 1]
              && next[|prev| - 1] == prev[|prev| - 1].(content := text)
    ensures !EndsWithAssistant(prev) ==>
              && |next| == |prev| + 1
              && next[..|prev|] == prev
              && next[|prev|] == Message(id, Assistant, text, now)
  {
    if EndsWithAssistant(prev) then
      seq(|prev|, i requires 0 <= i < |prev| =>
        if i == |prev| - 1 then prev[i].(content := text) else prev[i])
    else
      prev + [Message(id, Assistant, text, now)]
  }

  /**
   * Two successive updates leave the same list as the later one alone, with
   * the identity of the message the first one created: a stream creates at
   * most one assistant message and keeps rewriting it.
   */
  lemma LatestReplyWins(prev: seq<Message>, t1: string, id1: string, now1: int,
                        t2: string, id2: string, now2: int)
    ensures ShowReply(ShowReply(prev, t1, id1, now1), t2, id2, now2) == ShowReply(prev, t2, id1, now1)
  {
    var mid := ShowReply(prev, t1, id1, now1);
    var a := ShowReply(mid, t2, id2, now2);
    var b := ShowReply(prev, t2, id1, now1);
    assert |a| == |b|;
    forall i | 0 <= i < |a| ensures a[i] == b[i] {
      if i < |a| - 1 {
        assert a[i] == a[..|a| - 1][i];
        if EndsWithAssistant(prev) {
          assert b[i] == b[..|a| - 1][i];
          assert mid[i] == mid[..|a| - 1][i];
        } else {
          assert b[i] == b[..|prev|][i];
          assert mid[i] == mid[..|prev|][i];
        }
      }
    }
  }

  /**
   * The transcript after a stream that has accumulated `text`: unchanged when
   * no delta arrived (the text is empty), otherwise updated with the text.
   */
  function Transcript(history: seq<Message>, text: string, id: string, now: int): (msgs: seq<Message>)
    ensures text == "" ==> msgs == history
    ensures text != "" ==> EndsWithAssistant(msgs) && msgs[|msgs| - 1].content == text
    ensures |history| <= |msgs| <= |history| + 1
  {
    if text == "" then history else ShowReply(history, text, id, now)
  }

  /** Showing a longer text moves the transcript on to that text. */
  lemma TranscriptAdvances(history: seq<Message>, text: string, text': string, id: string, now: int)
    requires text' != ""
    ensures ShowReply(Transcript(history, text, id, now), text', id, now) == Transcript(history, text', id, now)
  {
    if text != "" {
      LatestReplyWins(history, text, id, now, text', id, now);
    }
  }
}
