/**
 * The conversation panel (components/Chat.tsx): the message list, the
 * input box, and what is sent to the chat endpoint. The request itself is
 * not made here: the endpoint's reply and the clock readings are
 * parameters of the handlers that receive them.
 */
module Chat {
  import opened Text
  import opened Types

  /** The first line sent to open a conversation (line 36). */
  const OpeningLine: string := "Hello! I want to practice English with you."

  /** The most messages one request carries (`slice(-10)`, line 82). */
  const WindowSize: nat := 10

  /** A message as the request body carries it: role and content only. */
  datatype WireMessage = WireMessage(role: Role, content: string)

  function ToWire(m: Message): WireMessage {
    WireMessage(m.role, m.content)
  }

  /** `messages.map(m => ({ role: m.role, content: m.content }))`. */
  function MapWire(ms: seq<Message>): (w: seq<WireMessage>)
    ensures |w| == |ms|
    ensures forall i :: 0 <= i < |ms| ==> w[i] == ToWire(ms[i])
  {
    if ms == [] then [] else [ToWire(ms[0])] + MapWire(ms[1..])
  }

  /** `xs.slice(-n)` for n > 0: the last n elements, or all of them when there are fewer. */
  function LastN<T>(xs: seq<T>, n: nat): seq<T> {
    if |xs| <= n then xs else xs[|xs| - n..]
  }

  /**
   * The history as one request carries it (lines 79-82): the last ten
   * messages, oldest first, each reduced to its role and content.
   */
  function Payload(history: seq<Message>): (p: seq<WireMessage>)
    ensures |p| == (if |history| < WindowSize then |history| else WindowSize)
    ensures forall i :: 0 <= i < |p| ==> p[i] == ToWire(history[|history| - |p| + i])
  {
    LastN(MapWire(history), WindowSize)
  }

  /**
   * Sending after a history h: the request carries the last min(|h|, 9)
   * messages of h, in order, and then the new message.
   */
  lemma WindowOfSend(h: seq<Message>, m: Message)
    ensures var k := if |h| < WindowSize - 1 then |h| else WindowSize - 1;
            Payload(h + [m]) == MapWire(h[|h| - k..]) + [ToWire(m)]
  {
    var k := if |h| < WindowSize - 1 then |h| else WindowSize - 1;
    var p := Payload(h + [m]);
    var q := MapWire(h[|h| - k..]) + [ToWire(m)];
    assert |p| == k + 1 == |q|;
    forall i | 0 <= i < |p| ensures p[i] == q[i] {
      if i < k {
        assert (h + [m])[|h| - k + i] == h[|h| - k..][i];
      }
    }
  }

  /** A reply counts only when it holds a non-empty message (`if (data.message)`). */
  predicate HasMessage(reply: Option<string>) {
    reply.Some? && reply.value != ""
  }

  /** `n.toString()` for a non-negative integer: its decimal digits. */
  function Decimal(n: nat): (r: string)
    ensures r != [] && forall i :: 0 <= i < |r| ==> '0' <= r[i] <= '9'
  {
    var d := ['0' + (n % 10) as char];
    if n < 10 then d else Decimal(n / 10) + d
  }

  /** The number a string of decimal digits stands for. */
  function DigitsValue(s: string): nat
    requires forall i :: 0 <= i < |s| ==> '0' <= s[i] <= '9'
  {
    if s == [] then 0 else 10 * DigitsValue(s[..|s| - 1]) + (s[|s| - 1] as int - '0' as int)
  }

  /** Ids written from different instants differ: the digits read back as the instant. */
  lemma {:induction false} DecimalRoundTrip(n: nat)
    ensures DigitsValue(Decimal(n)) == n
    decreases n
  {
    var r := Decimal(n);
    if n >= 10 {
      DecimalRoundTrip(n / 10);
      assert r[..|r| - 1] == Decimal(n / 10);
    }
  }

  /** The message a reply becomes: its id is written from `stamp`, its timestamp is `at`. */
  function AssistantMessage(content: string, stamp: nat, at: nat): Message {
    Message(Decimal(stamp), Assistant, content, at)
  }

  class ChatPanel {
    var messages: seq<Message>
    var input: string
    var isLoading: bool

    /** The initial state of the hooks (lines 14-16). */
    constructor ()
      ensures messages == [] && input == "" && !isLoading
    {
      messages := [];
      input := "";
      isLoading := false;
    }

    /** The input box's `onChange` (line 198). */
    method SetInput(value: string)
      modifies this
      ensures input == value
      ensures messages == old(messages) && isLoading == old(isLoading)
    {
      input := value;
    }

    /**
     * `initConversation` (lines 28-58): the request carries the opening
     * line alone; a reply replaces the history with a single assistant
     * message, and loading ends whatever the outcome.
     */
    method InitConversation(reply: Option<string>, now: nat) returns (request: seq<WireMessage>)
      modifies this
      ensures request == [WireMessage(User, OpeningLine)]
      ensures messages == (if HasMessage(reply) then [AssistantMessage(reply.value, now, now)] else old(messages))
      ensures input == old(input) && !isLoading
    {
      isLoading := true;
      request := [WireMessage(User, OpeningLine)];
      if HasMessage(reply) {
        messages := [AssistantMessage(reply.value, now, now)];
      }
      isLoading := false;
    }

    /**
     * `sendMessage` (lines 60-105). A blank input changes nothing and sends
     * nothing. Otherwise the input, untrimmed, is appended as a user
     * message and cleared, the request carries the window of the history
     * ending in that message, and a reply is appended after it; only then
     * is `onStatsUpdate` called.
     */
    method SendMessage(sentAt: nat, reply: Option<string>, repliedAt: nat)
      returns (request: Option<seq<WireMessage>>, statsUpdated: bool)
      modifies this
      ensures IsBlank(old(input)) ==>
        request == None && !statsUpdated
        && messages == old(messages) && input == old(input) && isLoading == old(isLoading)
      ensures !IsBlank(old(input)) ==>
        var sent := old(messages) + [Message(Decimal(sentAt), User, old(input), sentAt)];
        && request == Some(Payload(sent))
        && statsUpdated == HasMessage(reply)
        && messages == sent + (if HasMessage(reply) then [AssistantMessage(reply.value, repliedAt + 1, repliedAt)] else [])
        && input == "" && !isLoading
    {
      if IsBlank(input) {
        return None, false;
      }
      var userMessage := Message(Decimal(sentAt), User, input, sentAt);
      var history := messages + [userMessage];
      messages := messages + [userMessage];
      input := "";
      isLoading := true;
      request := Some(Payload(history));
      statsUpdated := false;
      if HasMessage(reply) {
        messages := messages + [AssistantMessage(reply.value, repliedAt + 1, repliedAt)];
        statsUpdated := true;
      }
      isLoading := false;
    }
  }
}
