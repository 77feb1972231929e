// The weather chatbot's conversation loop (weather-chatbot/src): the Context
// that stores the message history and the user's location, the stub location
// extractor with its module-wide first_call flag, the location agent, and the
// orchestrator that records the user's message, lets the location agent and
// then, if it has nothing to say, the weather agent answer, and records the
// answer. The language-model assistants and the weather agent are not part
// of this model: they are given as functions of what they read.
module Chatbot {
  import opened Tables

  /** One `{"role": ..., "content": ...}` dictionary; the content is the
      text passed in, or None when an agent answered None. */
  datatype Message = Message(role: string, content: Option<string>)

  /** The stored history: every element is a one-element list wrapping one
      message. */
  type History = seq<seq<Message>>

  /** The location assistant, from the history it is given to its reply. */
  type Assistant = History -> Option<string>

  /** The weather agent, from the context's history and location to its reply. */
  type WeatherAgent = (History, Option<string>) -> Option<string>

  /** The postal code the stub extractor reports after its first call. */
  const StubLocation: string := "98144"

  // ---------------------------------------------------------------------
  // The state the methods below change, as a value

  /** The context's history and location, and the extractor module's
      first_call flag. */
  datatype ChatState = ChatState(messages: History, location: Option<string>, firstCall: bool)

  /** The state when the program starts: an empty context, first_call set. */
  const Start: ChatState := ChatState([], None, true)

  /** `if user_message:`: a non-empty string. */
  predicate Truthy(userMessage: Option<string>)
  {
    userMessage.Some? && userMessage.value != ""
  }

  /** The stub extractor's answer: nothing on the first call, the fixed
      postal code on every later one. */
  function ExtractResult(firstCall: bool): (r: Option<string>)
    ensures r.None? <==> firstCall
    ensures r.Some? ==> r.value == StubLocation
  {
    if firstCall then None else Some(StubLocation)
  }

  /** The location agent's step: the extractor runs (and clears the flag);
      a found location is stored and the agent replies None, otherwise the
      assistant's reply on the history is returned and the location kept. */
  function LocationTurn(s: ChatState, assistant: Assistant): (r: (ChatState, Option<string>))
    ensures r.0.messages == s.messages && !r.0.firstCall
    ensures s.firstCall ==> r.0.location == s.location && r.1 == assistant(s.messages)
    ensures !s.firstCall ==> r.0.location == Some(StubLocation) && r.1.None?
  {
    var location := ExtractResult(s.firstCall);
    if location.Some? then (ChatState(s.messages, location, false), None)
    else (ChatState(s.messages, s.location, false), assistant(s.messages))
  }

  /** One call of get_reply: the user's message is recorded when truthy, the
      location agent runs, the weather agent runs when the location agent
      replied None, and the chosen reply is recorded as the assistant's and
      returned. */
  function Turn(s: ChatState, userMessage: Option<string>, assistant: Assistant, weather: WeatherAgent):
    (r: (ChatState, Option<string>))
    ensures var added := if Truthy(userMessage) then [[Message("user", userMessage)]] else [];
      r.0.messages == s.messages + added + [[Message("assistant", r.1)]]
    ensures !r.0.firstCall
    ensures s.firstCall ==> r.0.location == s.location
    ensures !s.firstCall ==> r.0.location == Some(StubLocation)
  {
    var withUser := if Truthy(userMessage) then s.messages + [[Message("user", userMessage)]] else s.messages;
    var (afterLocation, locationReply) := LocationTurn(ChatState(withUser, s.location, s.firstCall), assistant);
    var reply := if locationReply.None? then weather(afterLocation.messages, afterLocation.location) else locationReply;
    (ChatState(afterLocation.messages + [[Message("assistant", reply)]], afterLocation.location, false), reply)
  }

  /** One call of get_reply adds one or two messages and keeps the earlier
      ones; the reply is the location assistant's exactly on the first call
      of the program when that assistant answers, and the weather agent's
      otherwise. */
  lemma TurnReply(s: ChatState, userMessage: Option<string>, assistant: Assistant, weather: WeatherAgent)
    ensures var (t, reply) := Turn(s, userMessage, assistant, weather);
      var withUser := if Truthy(userMessage) then s.messages + [[Message("user", userMessage)]] else s.messages;
      |t.messages| == |s.messages| + (if Truthy(userMessage) then 2 else 1) &&
      t.messages[..|s.messages|] == s.messages &&
      (s.firstCall && assistant(withUser).Some? ==> reply == assistant(withUser)) &&
      (!(s.firstCall && assistant(withUser).Some?) ==> reply == weather(withUser, t.location))
  {
    var (t, reply) := Turn(s, userMessage, assistant, weather);
    var added := if Truthy(userMessage) then [[Message("user", userMessage)]] else [];
    assert t.messages == s.messages + (added + [[Message("assistant", reply)]]);
  }

  /** The state and the replies after a sequence of calls of get_reply. */
  function Conversation(s: ChatState, userMessages: seq<Option<string>>, assistant: Assistant,
                        weather: WeatherAgent): (ChatState, seq<Option<string>>)
    decreases |userMessages|
  {
    if userMessages == [] then (s, [])
    else
      var n := |userMessages| - 1;
      var (before, replies) := Conversation(s, userMessages[..n], assistant, weather);
      var (after, reply) := Turn(before, userMessages[n], assistant, weather);
      (after, replies + [reply])
  }

  /** The number of truthy messages. */
  function TruthyCount(userMessages: seq<Option<string>>): nat
    decreases |userMessages|
  {
    if userMessages == [] then 0
    else TruthyCount(userMessages[..|userMessages| - 1]) + (if Truthy(userMessages[|userMessages| - 1]) then 1 else 0)
  }

  /** From the start of the program, `n` calls leave one reply per call and
      one assistant message per call plus one user message per truthy user
      message; the location stays None for one call and is "98144" from the
      second on, so every call after the first is answered by the weather
      agent. */
  lemma {:induction false} ConversationFromStart(userMessages: seq<Option<string>>, assistant: Assistant,
                                                 weather: WeatherAgent)
    ensures var (t, replies) := Conversation(Start, userMessages, assistant, weather);
      |replies| == |userMessages| &&
      |t.messages| == |userMessages| + TruthyCount(userMessages) &&
      (|userMessages| > 0 ==> !t.firstCall) &&
      (|userMessages| <= 1 ==> t.location.None?) &&
      (|userMessages| >= 2 ==> t.location == Some(StubLocation))
    decreases |userMessages|
  {
    if userMessages != [] {
      var n := |userMessages| - 1;
      ConversationFromStart(userMessages[..n], assistant, weather);
      var (before, replies) := Conversation(Start, userMessages[..n], assistant, weather);
      TurnReply(before, userMessages[n], assistant, weather);
    }
  }

  /** In a conversation from the start, every reply after the first comes
      from the weather agent. */
  lemma {:induction false} LaterRepliesFromWeather(userMessages: seq<Option<string>>, assistant: Assistant,
                                                   weather: WeatherAgent, k: nat)
    requires 1 <= k < |userMessages|
    ensures var (before, _) := Conversation(Start, userMessages[..k], assistant, weather);
      var (t, replies) := Conversation(Start, userMessages, assistant, weather);
      var withUser := if Truthy(userMessages[k]) then before.messages + [[Message("user", userMessages[k])]]
                      else before.messages;
      k < |replies| && replies[k] == weather(withUser, Some(StubLocation))
    decreases |userMessages|
  {
    var n := |userMessages| - 1;
    var prefix := userMessages[..n];
    var c := Conversation(Start, prefix, assistant, weather);
    assert Conversation(Start, userMessages, assistant, weather).1 ==
           c.1 + [Turn(c.0, userMessages[n], assistant, weather).1];
    ConversationFromStart(prefix, assistant, weather);
    if k < n {
      assert prefix[..k] == userMessages[..k] && prefix[k] == userMessages[k];
      LaterRepliesFromWeather(prefix, assistant, weather, k);
    } else {
      assert prefix == userMessages[..k];
      TurnReply(c.0, userMessages[n], assistant, weather);
    }
  }

  // ---------------------------------------------------------------------
  // The objects

  /** Context: the conversation's messages and the user's location. */
  class Context {
    var messages: History
    var location: Option<string>

    /** A new context has no messages and no location. */
    constructor ()
      ensures messages == [] && location == None
    {
      messages := [];
      location := None;
    }

    /** add_message: one element, a one-element list wrapping the message,
        is appended. */
    method AddMessage(role: string, message: Option<string>)
      modifies this
      ensures messages == old(messages) + [[Message(role, message)]]
      ensures location == old(location)
    {
      messages := messages + [[Message(role, message)]];
    }

    /** get_messages. */
    function GetMessages(): (r: History)
      reads this
      ensures r == messages
    {
      messages
    }

    /** The location property's getter. */
    function Location(): (r: Option<string>)
      reads this
      ensures r == location
    {
      location
    }

    /** The location property's setter: the getter then returns the value. */
    method SetLocation(value: Option<string>)
      modifies this
      ensures Location() == value
      ensures messages == old(messages)
    {
      location := value;
    }
  }

  /** The location extractor module: the stub reads and clears the
      module-wide first_call flag, which every LocationExtractor instance
      shares, so one object stands for the module. */
  class LocationExtractor {
    var firstCall: bool

    /** The module as loaded: first_call is set. */
    constructor ()
      ensures firstCall
    {
      firstCall := true;
    }

    /** extract: nothing on the first call, "98144" afterwards; the history
        is not consulted. */
    method Extract(messageHistory: History) returns (r: Option<string>)
      modifies this
      ensures r == ExtractResult(old(firstCall))
      ensures !firstCall
    {
      r := if firstCall then None else Some(StubLocation);
      firstCall := false;
    }
  }

  /** LocationAgent.invoke: the extractor runs on the context's messages; a
      found location is stored in the context and the agent replies None,
      otherwise the assistant's reply is returned. */
  method InvokeLocationAgent(context: Context, extractor: LocationExtractor, assistant: Assistant)
    returns (reply: Option<string>)
    modifies context, extractor
    ensures var (s, r) := LocationTurn(ChatState(old(context.messages), old(context.location), old(extractor.firstCall)),
                                       assistant);
      reply == r && context.messages == s.messages && context.location == s.location &&
      extractor.firstCall == s.firstCall
  {
    var location := extractor.Extract(context.GetMessages());
    if location.Some? {
      context.SetLocation(location);
      return None;
    }
    reply := assistant(context.GetMessages());
  }

  /** Orchestrator.get_reply. */
  method GetReply(userMessage: Option<string>, context: Context, extractor: LocationExtractor,
                  assistant: Assistant, weather: WeatherAgent) returns (reply: Option<string>)
    modifies context, extractor
    ensures var (s, r) := Turn(ChatState(old(context.messages), old(context.location), old(extractor.firstCall)),
                               userMessage, assistant, weather);
      reply == r && context.messages == s.messages && context.location == s.location &&
      extractor.firstCall == s.firstCall
  {
    if Truthy(userMessage) {
      context.AddMessage("user", userMessage);
    }
    reply := InvokeLocationAgent(context, extractor, assistant);
    if reply.None? {
      reply := weather(context.GetMessages(), context.Location());
    }
    context.AddMessage("assistant", reply);
  }
}
