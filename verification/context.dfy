/** Rendering of the recent-conversation excerpt embedded in the coordinator
    and direct-reply prompts. */
module Context {
  import opened Wrappers
  import opened Text
  import opened Records

  const NoConversation := "No previous conversation."

  /** The part of a message's content that is shown: at most 100 characters. */
  function Shown(content: string): (r: string)
    ensures |r| == Min(100, |content|) && r <= content
    ensures |content| <= 100 ==> r == content
  {
    Truncate(content, 100)
  }

  /** One excerpt line: `role: content`, the content cut to 100 characters. */
  function RenderLine(m: Message): string {
    m.role + ": " + Shown(m.content)
  }

  /** The excerpt lines, one per message of `history[-lastN:]`, in order. */
  function ContextLines(history: seq<Message>, lastN: int): (r: seq<string>)
    ensures |r| == |Last(history, lastN)|
    ensures forall i :: 0 <= i < |r| ==> r[i] == RenderLine(Last(history, lastN)[i])
  {
    var recent := Last(history, lastN);
    seq(|recent|, i requires 0 <= i < |recent| => RenderLine(recent[i]))
  }

  /** `_get_conversation_context(last_n)`. */
  function ConversationContext(history: seq<Message>, lastN: int): (r: string)
    ensures |history| == 0 ==> r == NoConversation
    ensures |history| > 0 ==> r == Join(ContextLines(history, lastN), "\n")
  {
    if |history| == 0 then NoConversation else Join(ContextLines(history, lastN), "\n")
  }

  /** For a positive window the excerpt of a non-empty history has one line
      per message of the last `min(n, |history|)` messages, oldest first; each
      line is the message's role, ": ", and the shown part of its content
      (`Shown` keeps at most 100 characters, a prefix). */
  lemma ContextShape(history: seq<Message>, lastN: int)
    requires lastN > 0 && |history| > 0
    ensures |ContextLines(history, lastN)| == Min(lastN, |history|)
    ensures forall i :: 0 <= i < Min(lastN, |history|) ==>
      ContextLines(history, lastN)[i]
        == history[|history| - Min(lastN, |history|) + i].role + ": "
           + Shown(history[|history| - Min(lastN, |history|) + i].content)
  {
  }

  /** The excerpt of a non-empty history is never mistaken for the empty
      marker: every line holds ": " and the marker holds no ':'. */
  lemma {:induction false} ContextDistinguishesEmpty(history: seq<Message>, lastN: int)
    requires |history| > 0
    ensures ConversationContext(history, lastN) != NoConversation
  {
    var lines := ContextLines(history, lastN);
    var r := Join(lines, "\n");
    if |lines| > 0 {
      JoinContainsEach(lines, "\n", 0);
      ContainsIffOccurs(r, lines[0]);
      var k :| OccursAt(r, lines[0], k);
      var m := Last(history, lastN)[0];
      assert lines[0][|m.role|] == ':';
      assert r[k + |m.role|] == ':';
      assert ':' !in NoConversation;
    } else {
      assert r == "";
    }
  }
}
