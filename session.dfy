/**
 * The conversation controller of the chat component: the state cells `messages`,
 * `input`, `loading` and `isCodingMode`, the ref `hasAddedSystemMessage`, and the
 * handlers that change them (`sendMessage`, `handleKeyDown`, the text-area and
 * check-box change handlers and the send button).
 *
 * The HTTP call is not modelled: `SendMessage` returns the request it would post,
 * and the answer comes back to `ReceiveOutcome` as an abstract `Outcome`. `Send`
 * runs both halves as one atomic exchange.
 */
module ChatSession {
  import opened JsText
  import ThinkTags

  /** Who wrote a transcript entry. */
  datatype Role = User | Bot

  /** An entry of the transcript. */
  datatype Message = Message(role: Role, content: string)

  /** A message as it is sent in the request body; the role is the string sent. */
  datatype WireMessage = WireMessage(role: string, content: string)

  /** The JSON body posted to the chat endpoint. */
  datatype ChatRequest = ChatRequest(model: string, messages: seq<WireMessage>, stream: bool)

  /** How the request ended: a reply text, or a rejection of any kind. */
  datatype Outcome = Success(content: string) | Failure

  const SystemPreamble: string := "모든 응답을 반드시 한국어로 제공하세요."
  const ErrorText: string := "오류가 발생했습니다. 다시 시도해주세요."
  const CodingModel: string := "qwen2.5:14b"
  const GeneralModel: string := "phi4:14b"

  const SystemMessage: WireMessage := WireMessage("system", SystemPreamble)

  /** `!input.trim()`: the trimmed input is the empty string. */
  predicate IsBlank(text: string) {
    Trim(text) == []
  }

  /** A transcript entry spread into the request as it is: role "user" or "bot". */
  function ToWire(m: Message): (w: WireMessage)
    ensures w.content == m.content
    ensures w.role == (if m.role == User then "user" else "bot")
  {
    match m.role
    case User => WireMessage("user", m.content)
    case Bot => WireMessage("bot", m.content)
  }

  /**
   * The request for sending `input` after the transcript `prior`: the system
   * preamble only while it has not been added, then the transcript, then the
   * new user message; the model chosen by the mode; no streaming.
   */
  function BuildRequest(prior: seq<Message>, input: string, preambleAdded: bool, coding: bool): (r: ChatRequest)
    ensures coding ==> r.model == "qwen2.5:14b"
    ensures !coding ==> r.model == "phi4:14b"
    ensures !r.stream
    ensures |r.messages| == |prior| + (if preambleAdded then 1 else 2)
    ensures r.messages[0] == SystemMessage <==> !preambleAdded
    ensures forall i :: 0 < i < |r.messages| ==> r.messages[i].role != "system"
    ensures var offset := if preambleAdded then 0 else 1;
      forall i :: 0 <= i < |prior| ==> r.messages[offset + i] == ToWire(prior[i])
    ensures r.messages[|r.messages| - 1] == WireMessage("user", input)
  {
    var history := seq(|prior|, i requires 0 <= i < |prior| => ToWire(prior[i]));
    var messages := (if preambleAdded then [] else [SystemMessage]) + history + [WireMessage("user", input)];
    ChatRequest(if coding then CodingModel else GeneralModel, messages, false)
  }

  /** The bot entry for an outcome: the reply without reasoning spans, or the fixed error text. */
  function ReplyFor(outcome: Outcome): (m: Message)
    ensures m.role == Bot
    ensures outcome.Success? ==> m.content == ThinkTags.RemoveThinkTags(outcome.content) && IsTrimmed(m.content)
    ensures outcome.Failure? ==> m.content == "오류가 발생했습니다. 다시 시도해주세요."
  {
    match outcome
    case Success(content) => Message(Bot, ThinkTags.RemoveThinkTags(content))
    case Failure => Message(Bot, ErrorText)
  }

  /** What a key press in the text area does. */
  datatype KeyEffect =
    | Submit        // default prevented, message sent
    | NewLine       // default prevented, a newline appended to the input
    | PassThrough   // left to the browser's default action

  /** The dispatch of `handleKeyDown`. */
  function OnKey(key: string, shift: bool, loading: bool): (k: KeyEffect)
    ensures k == Submit <==> key == "Enter" && !shift && !loading
    ensures k == NewLine <==> key == "Enter" && shift
  {
    if key == "Enter" && !shift && !loading then Submit
    else if key == "Enter" && shift then NewLine
    else PassThrough
  }

  /** One mounted chat component. */
  class ChatBot {
    var messages: seq<Message>
    var input: string
    var loading: bool
    var isCodingMode: bool
    var hasAddedSystemMessage: bool

    /** The initial state on mount. */
    constructor ()
      ensures messages == [] && input == "" && !loading && !isCodingMode && !hasAddedSystemMessage
    {
      messages := [];
      input := "";
      loading := false;
      isCodingMode := false;
      hasAddedSystemMessage := false;
    }

    /** The text area's change handler. */
    method SetInput(text: string)
      modifies this`input
      ensures input == text
    {
      input := text;
    }

    /** The coding-mode check box's change handler; it touches nothing else. */
    method SetCodingMode(checked: bool)
      modifies this`isCodingMode
      ensures isCodingMode == checked
    {
      isCodingMode := checked;
    }

    /**
     * `sendMessage` up to the network call: nothing happens for blank input;
     * otherwise the user entry is appended, `loading` set, the input cleared, the
     * preamble marked as added, and the request returned.
     */
    method SendMessage() returns (request: Option<ChatRequest>)
      modifies this`messages, this`input, this`loading, this`hasAddedSystemMessage
      ensures IsBlank(old(input)) ==>
        request == None && messages == old(messages) && input == old(input) &&
        loading == old(loading) && hasAddedSystemMessage == old(hasAddedSystemMessage)
      ensures !IsBlank(old(input)) ==>
        request == Some(BuildRequest(old(messages), old(input), old(hasAddedSystemMessage), isCodingMode)) &&
        messages == old(messages) + [Message(User, old(input))] &&
        input == "" && loading && hasAddedSystemMessage
    {
      if IsBlank(input) {
        return None;
      }
      var text := input;
      var prior := messages;
      messages := messages + [Message(User, text)];
      loading := true;
      input := "";
      var body := BuildRequest(prior, text, hasAddedSystemMessage, isCodingMode);
      hasAddedSystemMessage := true;
      request := Some(body);
    }

    /** `sendMessage` after the network call: one bot entry, and `loading` reset either way. */
    method ReceiveOutcome(outcome: Outcome)
      modifies this`messages, this`loading
      ensures messages == old(messages) + [ReplyFor(outcome)]
      ensures !loading
    {
      messages := messages + [ReplyFor(outcome)];
      loading := false;
    }

    /** One whole exchange: blank input changes nothing; otherwise exactly a user and a bot entry are appended. */
    method Send(outcome: Outcome) returns (request: Option<ChatRequest>)
      modifies this`messages, this`input, this`loading, this`hasAddedSystemMessage
      ensures IsBlank(old(input)) ==>
        request == None && messages == old(messages) && input == old(input) &&
        loading == old(loading) && hasAddedSystemMessage == old(hasAddedSystemMessage)
      ensures !IsBlank(old(input)) ==>
        request == Some(BuildRequest(old(messages), old(input), old(hasAddedSystemMessage), isCodingMode)) &&
        messages == old(messages) + [Message(User, old(input)), ReplyFor(outcome)] &&
        input == "" && !loading && hasAddedSystemMessage
    {
      request := SendMessage();
      if request.Some? {
        ReceiveOutcome(outcome);
      }
    }

    /** The send button, which is disabled while a request is in flight. */
    method ClickSend() returns (request: Option<ChatRequest>)
      modifies this`messages, this`input, this`loading, this`hasAddedSystemMessage
      ensures old(loading) ==>
        request == None && messages == old(messages) && input == old(input) &&
        loading && hasAddedSystemMessage == old(hasAddedSystemMessage)
      ensures !old(loading) && IsBlank(old(input)) ==>
        request == None && messages == old(messages) && input == old(input) &&
        !loading && hasAddedSystemMessage == old(hasAddedSystemMessage)
      ensures !old(loading) && !IsBlank(old(input)) ==>
        request == Some(BuildRequest(old(messages), old(input), old(hasAddedSystemMessage), isCodingMode)) &&
        messages == old(messages) + [Message(User, old(input))] &&
        input == "" && loading && hasAddedSystemMessage
    {
      if loading {
        return None;
      }
      request := SendMessage();
    }

    /**
     * `handleKeyDown`: Enter sends unless Shift is held or a request is in flight;
     * Shift+Enter appends a newline; anything else, Enter while loading included,
     * is left to the browser (`prevented` is false).
     */
    method KeyDown(key: string, shift: bool) returns (prevented: bool, request: Option<ChatRequest>)
      modifies this`messages, this`input, this`loading, this`hasAddedSystemMessage
      ensures prevented <==> OnKey(key, shift, old(loading)) != PassThrough
      ensures OnKey(key, shift, old(loading)) == Submit && IsBlank(old(input)) ==>
        request == None && messages == old(messages) && input == old(input) &&
        loading == old(loading) && hasAddedSystemMessage == old(hasAddedSystemMessage)
      ensures OnKey(key, shift, old(loading)) == Submit && !IsBlank(old(input)) ==>
        request == Some(BuildRequest(old(messages), old(input), old(hasAddedSystemMessage), isCodingMode)) &&
        messages == old(messages) + [Message(User, old(input))] &&
        input == "" && loading && hasAddedSystemMessage
      ensures OnKey(key, shift, old(loading)) == NewLine ==>
        request == None && messages == old(messages) && input == old(input) + "\n" &&
        loading == old(loading) && hasAddedSystemMessage == old(hasAddedSystemMessage)
      ensures OnKey(key, shift, old(loading)) == PassThrough ==>
        request == None && messages == old(messages) && input == old(input) &&
        loading == old(loading) && hasAddedSystemMessage == old(hasAddedSystemMessage)
    {
      match OnKey(key, shift, loading)
      case Submit =>
        prevented := true;
        request := SendMessage();
      case NewLine =>
        prevented := true;
        input := input + "\n";
        request := None;
      case PassThrough =>
        prevented := false;
        request := None;
    }
  }

  /**
   * Two sends in a fresh session: the first request opens with the preamble, the
   * second carries no system message at all, only the transcript so far and the
   * new user message; the first failed exchange still counts as having added it.
   */
  method TwoSends(first: string, second: string, outcome: Outcome) returns (r1: ChatRequest, r2: ChatRequest)
    requires !IsBlank(first) && !IsBlank(second)
    ensures r1.messages == [SystemMessage, WireMessage("user", first)]
    ensures r2.messages == [WireMessage("user", first), ToWire(ReplyFor(outcome)), WireMessage("user", second)]
    ensures forall i :: 0 <= i < |r2.messages| ==> r2.messages[i].role != "system"
  {
    var bot := new ChatBot();
    bot.SetInput(first);
    var q1 := bot.Send(outcome);
    r1 := q1.value;
    bot.SetInput(second);
    var q2 := bot.Send(outcome);
    r2 := q2.value;
  }
}
