/**
  The chat pane. `handleSend` is one asynchronous handler with a single suspension point, the
  awaited reply; it is modelled as the part before the await (`BeginSend`) and the part after it
  (`FinishSend`), so that anything the user does in between (choosing another agent) can be put
  between the two calls. The component's `agent` prop is the root component's active agent, and
  its `update-agent` emission is the root's `handleUpdateAgent`: both go through the `App.Store`
  the methods are given. The clock is a parameter (`now` before the await, `later` after it).
 */
module ChatInterface {
  import opened Wrappers
  import opened Strings
  import opened Json
  import opened Types
  import opened App
  import GeminiService
  import Lists

  /** The message typed by the user: the clock as id and timestamp, the input as typed. */
  function UserMessage(text: string, now: nat): Message {
    Message(DecimalString(now), User, text, now, None)
  }

  /** The message made from the reply: one past the clock as id, and the reply's chart. */
  function BotMessage(reply: Reply, later: nat): Message {
    Message(DecimalString(later + 1), Model, reply.text, later, reply.chartData)
  }

  /** What the handler holds across the await: the id of the agent it started on, the history it
      emitted, the text it sends, and the prompt and files it read. */
  datatype PendingSend = PendingSend(agentId: string, history: seq<Message>, userText: string,
                                     prompt: string, files: seq<UploadedFile>)

  /** The send started on `agent` with input `text`. */
  function Pending(agent: Agent, text: string, now: nat): (p: PendingSend)
    ensures p.agentId == agent.id
    ensures |p.history| == |agent.messages| + 1 && p.history[..|agent.messages|] == agent.messages
    ensures p.history[|agent.messages|].role == User && p.history[|agent.messages|].text == text
  {
    PendingSend(agent.id, agent.messages + [UserMessage(text, now)], text, agent.systemPrompt, agent.files)
  }

  /** The roster after the first emission: the active agent with the user's message added. */
  function AfterBegin(cs: seq<Category>, activeId: string, text: string, now: nat): seq<Category>
    requires ActiveAgentOf(cs, activeId).Some?
  {
    var agent := ActiveAgentOf(cs, activeId).value;
    ReplaceAgent(cs, agent.(messages := Pending(agent, text, now).history))
  }

  /** The roster after the second emission as written: whatever agent is active when the reply
      arrives gets the pending history and the reply as its messages. */
  function AfterFinish(cs: seq<Category>, activeId: string, pending: PendingSend, reply: Reply, later: nat): seq<Category>
    requires ActiveAgentOf(cs, activeId).Some?
  {
    var agent := ActiveAgentOf(cs, activeId).value;
    ReplaceAgent(cs, agent.(messages := pending.history + [BotMessage(reply, later)]))
  }

  /** The roster after the second emission when it goes to the agent the send started on, in its
      current version; if no agent has that id any more, nothing is emitted. */
  function AfterFinishToOrigin(cs: seq<Category>, pending: PendingSend, reply: Reply, later: nat): seq<Category> {
    match FindInCategories(cs, pending.agentId)
    case None => cs
    case Some(agent) => ReplaceAgent(cs, agent.(messages := pending.history + [BotMessage(reply, later)]))
  }

  // ---------------------------------------------------------------------------
  // What a send does to the roster

  /** Adding two messages one after the other. */
  lemma TwoMessages(messages: seq<Message>, first: Message, second: Message)
    ensures messages + [first] + [second] == messages + [first, second]
  {
    Lists.AppendAssoc(messages, [first], [second]);
    assert [first] + [second] == [first, second];
  }

  /** A send with no agent switch during the await adds exactly two messages to the active agent,
      the user's and the reply, after its old ones; no other agent changes. */
  lemma SendAddsTwoMessages(cs: seq<Category>, id: string, text: string, now: nat, reply: Reply, later: nat)
    requires HasFallback(cs) && FindInCategories(cs, id).Some?
    ensures var agent := FindInCategories(cs, id).value;
            var after := AfterFinish(AfterBegin(cs, id, text, now), id, Pending(agent, text, now), reply, later);
            && FindInCategories(after, id) == Some(agent.(messages := agent.messages + [UserMessage(text, now), BotMessage(reply, later)]))
            && forall other :: other != id ==> FindInCategories(after, other) == FindInCategories(cs, other)
  {
    var agent := FindInCategories(cs, id).value;
    var p := Pending(agent, text, now);
    var first := agent.(messages := p.history);
    var cs1 := AfterBegin(cs, id, text, now);
    FindAfterReplace(cs, id, first);
    var second := first.(messages := p.history + [BotMessage(reply, later)]);
    FindAfterReplace(cs1, id, second);
    TwoMessages(agent.messages, UserMessage(text, now), BotMessage(reply, later));
    forall other | other != id
      ensures FindInCategories(AfterFinish(cs1, id, p, reply, later), other) == FindInCategories(cs, other)
    {
      FindAfterReplace(cs, other, first);
      FindAfterReplace(cs1, other, second);
    }
  }

  /** The service receives the user's text twice: as the last message of the history and as the
      new message, so the request ends with two identical user turns. */
  lemma UserTextSentTwice(agent: Agent, text: string, now: nat)
    ensures var contents := GeminiService.ContentsFor(Pending(agent, text, now).history, text);
            && |contents| == |agent.messages| + 2
            && contents[|agent.messages|] == GeminiService.Turn(User, text)
            && contents[|agent.messages| + 1] == GeminiService.Turn(User, text)
  {
  }

  /** As written, choosing another agent during the await sends the reply to that agent: it gets
      the first agent's history, the user's message and the reply in place of its own messages,
      and the first agent keeps the user's message without a reply. */
  lemma SwitchMisroutesReply(cs: seq<Category>, id: string, other: string, text: string, now: nat, reply: Reply, later: nat)
    requires HasFallback(cs) && FindInCategories(cs, id).Some? && FindInCategories(cs, other).Some? && id != other
    ensures var agent := FindInCategories(cs, id).value;
            var shown := FindInCategories(cs, other).value;
            var after := AfterFinish(AfterBegin(cs, id, text, now), other, Pending(agent, text, now), reply, later);
            && FindInCategories(after, other) == Some(shown.(messages := agent.messages + [UserMessage(text, now), BotMessage(reply, later)]))
            && FindInCategories(after, id) == Some(agent.(messages := agent.messages + [UserMessage(text, now)]))
  {
    var agent := FindInCategories(cs, id).value;
    var shown := FindInCategories(cs, other).value;
    var p := Pending(agent, text, now);
    var first := agent.(messages := p.history);
    var cs1 := AfterBegin(cs, id, text, now);
    FindAfterReplace(cs, other, first);
    FindAfterReplace(cs, id, first);
    var second := shown.(messages := p.history + [BotMessage(reply, later)]);
    FindAfterReplace(cs1, other, second);
    FindAfterReplace(cs1, id, second);
    TwoMessages(agent.messages, UserMessage(text, now), BotMessage(reply, later));
  }

  /** Sent to the agent the send started on, the reply lands there whatever agent is shown when it
      arrives, after the user's message; no other agent changes. */
  lemma ReplyReachesOrigin(cs: seq<Category>, id: string, text: string, now: nat, reply: Reply, later: nat)
    requires HasFallback(cs) && FindInCategories(cs, id).Some?
    ensures var agent := FindInCategories(cs, id).value;
            var after := AfterFinishToOrigin(AfterBegin(cs, id, text, now), Pending(agent, text, now), reply, later);
            && FindInCategories(after, id) == Some(agent.(messages := agent.messages + [UserMessage(text, now), BotMessage(reply, later)]))
            && forall other :: other != id ==> FindInCategories(after, other) == FindInCategories(cs, other)
  {
    var agent := FindInCategories(cs, id).value;
    var p := Pending(agent, text, now);
    var first := agent.(messages := p.history);
    var cs1 := AfterBegin(cs, id, text, now);
    FindAfterReplace(cs, id, first);
    var second := first.(messages := p.history + [BotMessage(reply, later)]);
    FindAfterReplace(cs1, id, second);
    TwoMessages(agent.messages, UserMessage(text, now), BotMessage(reply, later));
    forall other | other != id
      ensures FindInCategories(AfterFinishToOrigin(cs1, p, reply, later), other) == FindInCategories(cs, other)
    {
      FindAfterReplace(cs, other, first);
      FindAfterReplace(cs1, other, second);
    }
  }

  /** Without a switch during the await, sending the reply to the origin is what the code does. */
  lemma OriginAgreesWithoutSwitch(cs: seq<Category>, id: string, text: string, now: nat, reply: Reply, later: nat)
    requires HasFallback(cs) && FindInCategories(cs, id).Some?
    ensures var agent := FindInCategories(cs, id).value;
            var begun := AfterBegin(cs, id, text, now);
            AfterFinishToOrigin(begun, Pending(agent, text, now), reply, later) == AfterFinish(begun, id, Pending(agent, text, now), reply, later)
  {
    var agent := FindInCategories(cs, id).value;
    FindAfterReplace(cs, id, agent.(messages := Pending(agent, text, now).history));
  }

  /** The two refs of the component. */
  class Chat {
    var input: string
    var isLoading: bool

    constructor()
      ensures input == "" && !isLoading
    {
      input := "";
      isLoading := false;
    }

    /** The guard of `handleSend`: a blank input, or a send already under way. */
    predicate Blocked()
      reads this
    {
      Trim(input) == "" || isLoading
    }

    /** `handleSend` up to the await. When blocked nothing happens. Otherwise the active agent is
        emitted with the user's message added, the input is cleared, the loading flag is set, and
        what the call needs is returned. */
    method BeginSend(app: Store, now: nat) returns (pending: Option<PendingSend>)
      requires app.Valid()
      modifies this, app
      ensures old(Blocked()) ==>
                && pending == None && input == old(input) && isLoading == old(isLoading)
                && app.categories == old(app.categories) && app.activeAgentId == old(app.activeAgentId)
      ensures !old(Blocked()) ==>
                && pending == Some(Pending(ActiveAgentOf(old(app.categories), old(app.activeAgentId)).value, old(input), now))
                && app.categories == AfterBegin(old(app.categories), old(app.activeAgentId), old(input), now)
                && app.activeAgentId == old(app.activeAgentId)
                && input == "" && isLoading
      ensures app.Valid()
    {
      if Trim(input) == "" || isLoading {
        return None;
      }
      var agent := app.ActiveAgent();
      var newHistory := agent.value.messages + [UserMessage(input, now)];
      app.HandleUpdateAgent(agent.value.(messages := newHistory));
      var userText := input;
      pending := Some(PendingSend(agent.value.id, newHistory, userText, agent.value.systemPrompt, agent.value.files));
      input := "";
      isLoading := true;
    }

    /** `handleSend` after the await, as written: the agent active now is emitted with the pending
        history and the reply as its messages, and the loading flag is cleared. */
    method FinishSend(app: Store, pending: PendingSend, reply: Reply, later: nat)
      requires app.Valid()
      modifies this, app
      ensures app.categories == AfterFinish(old(app.categories), old(app.activeAgentId), pending, reply, later)
      ensures app.activeAgentId == old(app.activeAgentId)
      ensures input == old(input) && !isLoading
      ensures app.Valid()
    {
      var agent := app.ActiveAgent();
      app.HandleUpdateAgent(agent.value.(messages := pending.history + [BotMessage(reply, later)]));
      isLoading := false;
    }

    /** `handleSend` after the await, sent to the agent the send started on. */
    method FinishSendToOrigin(app: Store, pending: PendingSend, reply: Reply, later: nat)
      requires app.Valid()
      modifies this, app
      ensures app.categories == AfterFinishToOrigin(old(app.categories), pending, reply, later)
      ensures app.activeAgentId == old(app.activeAgentId)
      ensures input == old(input) && !isLoading
      ensures app.Valid()
    {
      var origin := FindInCategories(app.categories, pending.agentId);
      if origin.Some? {
        app.HandleUpdateAgent(origin.value.(messages := pending.history + [BotMessage(reply, later)]));
      }
      isLoading := false;
    }

    /** `handleSend` when nothing happens during the await: the send, the call to the service with
        the pending history, text, prompt and files, and the second emission. The request that went
        out, if any, is returned. */
    method HandleSend(app: Store, hasApiKey: bool, now: nat, later: nat,
                      complete: GeminiService.GenerateRequest -> GeminiService.CallOutcome,
                      parse: string -> Option<JsonValue>)
      returns (sent: Option<GeminiService.GenerateRequest>)
      requires app.Valid()
      modifies this, app
      ensures old(Blocked()) ==>
                && sent == None && input == old(input) && isLoading == old(isLoading)
                && app.categories == old(app.categories) && app.activeAgentId == old(app.activeAgentId)
      ensures !old(Blocked()) ==> (hasApiKey <==> sent.Some?)
      ensures !old(Blocked()) ==>
                var agent := ActiveAgentOf(old(app.categories), old(app.activeAgentId)).value;
                var p := Pending(agent, old(input), now);
                var reply := if hasApiKey then GeminiService.ReplyFromOutcome(complete(sent.value), parse)
                             else GeminiService.MockResponse(p.userText);
                && (hasApiKey ==> sent.value == GeminiService.RequestFor(p.history, p.userText, p.prompt, p.files, GeminiService.DefaultModel))
                && app.categories == AfterFinish(AfterBegin(old(app.categories), old(app.activeAgentId), old(input), now),
                                                 old(app.activeAgentId), p, reply, later)
                && input == "" && !isLoading
      ensures app.activeAgentId == old(app.activeAgentId)
      ensures app.Valid()
    {
      var pending := BeginSend(app, now);
      if pending.None? {
        return None;
      }
      var p := pending.value;
      var reply;
      reply, sent := GeminiService.SendMessageToGemini(hasApiKey, p.history, p.userText, p.prompt, p.files,
                                                       GeminiService.DefaultModel, complete, parse);
      FinishSend(app, p, reply, later);
    }
  }
}
