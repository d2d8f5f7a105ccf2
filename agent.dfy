/** The tool-calling assistant: a graph that alternates a chat-model step and a tool step over a
    growing message history, and `invoke`, which runs it and reads the answer and the document
    links out of the final history. The chat model and the retriever are parameters. */
module Agent {
  import opened Outcomes
  import opened Text
  import opened Search
  import opened Routing

  const SystemPrompt: string :=
    "You are a helpful assistant that answers questions about documents. "
    + "You have access to a search_documents tool that allows you to search through a user's local files. "
    + "When a user asks a question that requires information from their documents, use the search_documents tool. "
    + "After receiving the search results, provide a comprehensive answer based on the retrieved context. "
    + "If you don't find relevant information in the documents, say so clearly. "
    + "Always cite which documents you found the information in."

  const SearchToolName: string := "search_documents"
  /** The message of the argument-validation error the tool raises when a call has no `query`. */
  const MissingQuery: string := "query: Field required"
  const ContainerPathNone: string := "replace() argument 1 must be str, not None"
  const LocalPathNone: string := "replace() argument 2 must be str, not None"
  const ErrorStatus: string := "error"

  /** A tool call the model asks for: its name, the `query` argument if given, and its id. */
  datatype ToolCall = ToolCall(name: string, query: Option<string>, id: string)

  /** A message of the history. Only tool messages can carry a name here: the user's and the
      model's messages of this flow have none. */
  datatype Message =
    | Human(content: string)
    | System(content: string)
    | Assistant(content: string, toolCalls: seq<ToolCall>)
    | Tool(content: string, toolCallId: string, name: Option<string>)

  /** What the chat model answers: text and the tool calls it wants made. */
  datatype Reply = Reply(content: string, toolCalls: seq<ToolCall>)

  function NameOf(m: Message): Option<string>
  {
    if m.Tool? then m.name else None
  }

  predicate SameClass(a: Message, b: Message)
  {
    (a.Human? && b.Human?) || (a.System? && b.System?) || (a.Assistant? && b.Assistant?) || (a.Tool? && b.Tool?)
  }

  /** The agent step's test: some message has the class of the first one and is a system message. */
  predicate HasSystemMessage(h: seq<Message>)
  {
    exists i | 0 <= i < |h| :: SameClass(h[i], h[0]) && h[i].System?
  }

  /** What the agent step sends the model: the history, behind the system prompt unless the test
      finds a system message. */
  function Prompt(h: seq<Message>): seq<Message>
  {
    if HasSystemMessage(h) then h else [System(SystemPrompt)] + h
  }

  /** The test holds exactly when the history starts with a system message, so the model always
      sees a system message first and the whole history after it. */
  lemma PromptLeadsWithSystem(h: seq<Message>)
    ensures HasSystemMessage(h) <==> h != [] && h[0].System?
    ensures Prompt(h) != [] && Prompt(h)[0].System?
    ensures Prompt(h) == h || Prompt(h) == [System(SystemPrompt)] + h
    ensures Prompt(h)[|Prompt(h)| - |h|..] == h
  {
    if h != [] && h[0].System? {
      assert SameClass(h[0], h[0]);
    }
  }

  /** The agent step: the state update holding the model's one new message. */
  function CallAgent(h: seq<Message>, chat: seq<Message> -> Result<Reply>): (r: Result<seq<Message>>)
    ensures r.Ok? <==> chat(Prompt(h)).Ok?
    ensures r.Ok? ==> r.value == [Assistant(chat(Prompt(h)).value.content, chat(Prompt(h)).value.toolCalls)]
    ensures r.Err? ==> r.message == chat(Prompt(h)).message
  {
    match chat(Prompt(h))
    case Err(e) => Err(e)
    case Ok(reply) => Ok([Assistant(reply.content, reply.toolCalls)])
  }

  datatype Route = ToTools | ToEnd

  /** Where the graph goes after the agent step. */
  function ShouldContinue(h: seq<Message>): (r: Route)
    requires h != []
    ensures r == ToTools <==> h[|h| - 1].Assistant? && h[|h| - 1].toolCalls != []
  {
    var last := h[|h| - 1];
    if last.Assistant? && last.toolCalls != [] then ToTools else ToEnd
  }

  /** The tool calls of the last message, none when it is not the model's. */
  function LastToolCalls(h: seq<Message>): seq<ToolCall>
    requires h != []
  {
    if h[|h| - 1].Assistant? then h[|h| - 1].toolCalls else []
  }

  /** The search tool on one call: the formatted documents the retriever finds for its query. */
  function SearchTool(call: ToolCall, retrieve: string -> Result<seq<Doc>>): (r: Result<string>)
    ensures call.query.None? ==> r == Err(MissingQuery)
    ensures call.query.Some? ==> (r.Ok? <==> retrieve(call.query.value).Ok?)
    ensures r.Ok? ==> r.value == SearchText(retrieve(call.query.value).value)
  {
    if call.query.None? then Err(MissingQuery)
    else match retrieve(call.query.value)
      case Err(e) => Err(e)
      case Ok(docs) => Ok(SearchText(docs))
  }

  /** The calls of `calls` that name the search tool, in order. */
  function SearchCalls(calls: seq<ToolCall>): (r: seq<ToolCall>)
    ensures |r| <= |calls|
    ensures forall c | c in r :: c in calls && c.name == SearchToolName
    ensures forall c | c in calls && c.name == SearchToolName :: c in r
  {
    if calls == [] then []
    else
      var front := SearchCalls(calls[..|calls| - 1]);
      var last := calls[|calls| - 1];
      assert forall c | c in calls[..|calls| - 1] :: c in calls;
      assert forall c | c in calls :: c in calls[..|calls| - 1] || c == last;
      if last.name == SearchToolName then front + [last] else front
  }

  /** The tool messages for `calls`, made in order; the first failing call's error ends it. */
  function ToolResults(calls: seq<ToolCall>, retrieve: string -> Result<seq<Doc>>): Result<seq<Message>>
  {
    if calls == [] then Ok([])
    else match ToolResults(calls[..|calls| - 1], retrieve)
      case Err(e) => Err(e)
      case Ok(ms) =>
        var last := calls[|calls| - 1];
        if last.name != SearchToolName then Ok(ms)
        else match SearchTool(last, retrieve)
          case Err(e) => Err(e)
          case Ok(text) => Ok(ms + [Tool(text, last.id, None)])
  }

  /** The tool step succeeds when every search call does; it then yields one unnamed tool message
      per search call, in call order, answering that call's id with that call's result, and
      nothing for calls to other tools. */
  lemma {:induction false} ToolResultsPerSearchCall(calls: seq<ToolCall>, retrieve: string -> Result<seq<Doc>>)
    ensures ToolResults(calls, retrieve).Ok? <==>
      forall c | c in SearchCalls(calls) :: SearchTool(c, retrieve).Ok?
    ensures ToolResults(calls, retrieve).Ok? ==>
      var ms := ToolResults(calls, retrieve).value;
      var sc := SearchCalls(calls);
      && |ms| == |sc|
      && forall j | 0 <= j < |ms| :: ms[j] == Tool(SearchTool(sc[j], retrieve).value, sc[j].id, None)
  {
    if calls != [] {
      var front := calls[..|calls| - 1];
      var last := calls[|calls| - 1];
      ToolResultsPerSearchCall(front, retrieve);
      assert SearchCalls(calls) == if last.name == SearchToolName then SearchCalls(front) + [last] else SearchCalls(front);
    }
  }

  /** Every message of a successful tool step is a tool message without a name. */
  lemma {:induction false} ToolResultsUnnamed(calls: seq<ToolCall>, retrieve: string -> Result<seq<Doc>>)
    requires ToolResults(calls, retrieve).Ok?
    ensures forall i | 0 <= i < |ToolResults(calls, retrieve).value| ::
      ToolResults(calls, retrieve).value[i].Tool? && ToolResults(calls, retrieve).value[i].name == None
  {
    if calls != [] {
      ToolResultsUnnamed(calls[..|calls| - 1], retrieve);
    }
  }

  /** Once a prefix of the calls fails, the whole step fails with the same error. */
  lemma {:induction false} ToolResultsKeepsError(calls: seq<ToolCall>, k: nat, retrieve: string -> Result<seq<Doc>>)
    requires k <= |calls|
    requires ToolResults(calls[..k], retrieve).Err?
    ensures ToolResults(calls, retrieve) == ToolResults(calls[..k], retrieve)
    decreases |calls| - k
  {
    if k < |calls| {
      assert calls[..k + 1][..k] == calls[..k];
      ToolResultsKeepsError(calls, k + 1, retrieve);
    } else {
      assert calls[..k] == calls;
    }
  }

  /** The tool step: runs the search tool for every search call of the last message. */
  method ExecuteTools(h: seq<Message>, retrieve: string -> Result<seq<Doc>>) returns (r: Result<seq<Message>>)
    requires h != []
    ensures r == ToolResults(LastToolCalls(h), retrieve)
  {
    var toolCalls := if h[|h| - 1].Assistant? then h[|h| - 1].toolCalls else [];
    if toolCalls == [] {
      return Ok([]);
    }
    var toolMessages: seq<Message> := [];
    for i := 0 to |toolCalls|
      invariant ToolResults(toolCalls[..i], retrieve) == Ok(toolMessages)
    {
      var call := toolCalls[i];
      assert toolCalls[..i + 1][..i] == toolCalls[..i];
      if call.name == SearchToolName {
        var result := SearchTool(call, retrieve);
        if result.Err? {
          ToolResultsKeepsError(toolCalls, i + 1, retrieve);
          return Err(result.message);
        }
        toolMessages := toolMessages + [Tool(result.value, call.id, None)];
      }
    }
    assert toolCalls[..|toolCalls|] == toolCalls;
    return Ok(toolMessages);
  }

  /** How a run of the graph ends: with the final history, with an exception, or without having
      ended within the given number of agent steps. */
  datatype RunOutcome = Finished(history: seq<Message>) | Raised(message: string) | OutOfFuel

  /** The graph from the agent node on, with at most `fuel` agent steps. */
  function Run(h: seq<Message>, chat: seq<Message> -> Result<Reply>, retrieve: string -> Result<seq<Doc>>, fuel: nat): RunOutcome
    decreases fuel
  {
    if fuel == 0 then OutOfFuel
    else match CallAgent(h, chat)
      case Err(e) => Raised(e)
      case Ok(update) =>
        var h1 := h + update;
        if ShouldContinue(h1) == ToEnd then Finished(h1)
        else match ToolResults(LastToolCalls(h1), retrieve)
          case Err(e) => Raised(e)
          case Ok(ms) => Run(h1 + ms, chat, retrieve, fuel - 1)
  }

  /** Runs the graph: agent, then tools and back while the model asks for tools. */
  method RunGraph(h: seq<Message>, chat: seq<Message> -> Result<Reply>, retrieve: string -> Result<seq<Doc>>, fuel: nat)
    returns (r: RunOutcome)
    ensures r == Run(h, chat, retrieve, fuel)
  {
    var history := h;
    var steps := fuel;
    while true
      invariant Run(history, chat, retrieve, steps) == Run(h, chat, retrieve, fuel)
      decreases steps
    {
      if steps == 0 {
        return OutOfFuel;
      }
      var update := CallAgent(history, chat);
      if update.Err? {
        return Raised(update.message);
      }
      history := history + update.value;
      if ShouldContinue(history) == ToEnd {
        return Finished(history);
      }
      var toolMessages := ExecuteTools(history, retrieve);
      if toolMessages.Err? {
        return Raised(toolMessages.message);
      }
      history := history + toolMessages.value;
      steps := steps - 1;
    }
  }

  /** A finished run only added messages, and it ended on a model message without tool calls. */
  lemma {:induction false} RunExtends(h: seq<Message>, chat: seq<Message> -> Result<Reply>, retrieve: string -> Result<seq<Doc>>, fuel: nat)
    requires Run(h, chat, retrieve, fuel).Finished?
    ensures var h' := Run(h, chat, retrieve, fuel).history;
      && |h| < |h'| && h'[..|h|] == h
      && h'[|h'| - 1].Assistant? && h'[|h'| - 1].toolCalls == []
    decreases fuel
  {
    var update := CallAgent(h, chat).value;
    var h1 := h + update;
    if ShouldContinue(h1) == ToTools {
      var ms := ToolResults(LastToolCalls(h1), retrieve).value;
      RunExtends(h1 + ms, chat, retrieve, fuel - 1);
      var h' := Run(h, chat, retrieve, fuel).history;
      assert h'[..|h1 + ms|] == h1 + ms;
      assert h'[..|h|] == (h1 + ms)[..|h|];
    }
  }

  /** More agent steps change nothing about a run that ends within fewer. */
  lemma {:induction false} RunFuelIrrelevant(h: seq<Message>, chat: seq<Message> -> Result<Reply>, retrieve: string -> Result<seq<Doc>>, fuel: nat, more: nat)
    requires fuel <= more
    requires !Run(h, chat, retrieve, fuel).OutOfFuel?
    ensures Run(h, chat, retrieve, more) == Run(h, chat, retrieve, fuel)
    decreases fuel
  {
    var update := CallAgent(h, chat);
    if update.Ok? {
      var h1 := h + update.value;
      if ShouldContinue(h1) == ToTools {
        var results := ToolResults(LastToolCalls(h1), retrieve);
        if results.Ok? {
          RunFuelIrrelevant(h1 + results.value, chat, retrieve, fuel - 1, more - 1);
        }
      }
    }
  }

  /** No history message names the search tool. */
  predicate NoSearchNames(h: seq<Message>)
  {
    forall i | 0 <= i < |h| :: NameOf(h[i]) != Some(SearchToolName)
  }

  /** From index `k` on, no message carries a name and none is a system message. */
  predicate UnnamedFrom(h: seq<Message>, k: nat)
  {
    forall i | k <= i < |h| :: NameOf(h[i]) == None && !h[i].System?
  }

  /** A finished run took an agent step; after a tool step it is the run from the longer
      history, and otherwise it ends with the agent's messages. */
  lemma RunFinishedStep(h: seq<Message>, chat: seq<Message> -> Result<Reply>, retrieve: string -> Result<seq<Doc>>, fuel: nat)
    requires Run(h, chat, retrieve, fuel).Finished?
    ensures fuel > 0 && CallAgent(h, chat).Ok?
    ensures var h1 := h + CallAgent(h, chat).value;
      if ShouldContinue(h1) == ToTools then
        && ToolResults(LastToolCalls(h1), retrieve).Ok?
        && Run(h, chat, retrieve, fuel) == Run(h1 + ToolResults(LastToolCalls(h1), retrieve).value, chat, retrieve, fuel - 1)
      else Run(h, chat, retrieve, fuel).history == h1
  {
  }

  /** The messages a run adds carry no name, and the system prompt is never stored. */
  lemma {:induction false} RunAddsUnnamed(h: seq<Message>, chat: seq<Message> -> Result<Reply>, retrieve: string -> Result<seq<Doc>>, fuel: nat)
    requires Run(h, chat, retrieve, fuel).Finished?
    ensures UnnamedFrom(Run(h, chat, retrieve, fuel).history, |h|)
    decreases fuel
  {
    RunFinishedStep(h, chat, retrieve, fuel);
    var update := CallAgent(h, chat).value;
    var h1 := h + update;
    if ShouldContinue(h1) == ToTools {
      var ms := ToolResults(LastToolCalls(h1), retrieve).value;
      ToolResultsUnnamed(LastToolCalls(h1), retrieve);
      RunAddsUnnamed(h1 + ms, chat, retrieve, fuel - 1);
      RunExtends(h1 + ms, chat, retrieve, fuel - 1);
      UnnamedStep(h, update, ms, Run(h1 + ms, chat, retrieve, fuel - 1).history);
    } else {
      StepUnnamed(h, update, []);
      assert h1 + [] == h1;
    }
  }

  /** One agent step followed by tool results adds only unnamed, non-system messages. */
  lemma StepUnnamed(h: seq<Message>, update: seq<Message>, ms: seq<Message>)
    requires forall i | 0 <= i < |update| :: update[i].Assistant?
    requires forall i | 0 <= i < |ms| :: ms[i].Tool? && ms[i].name == None
    ensures UnnamedFrom(h + update + ms, |h|)
  {
    forall i | |h| <= i < |h + update + ms|
      ensures NameOf((h + update + ms)[i]) == None && !(h + update + ms)[i].System?
    {
      if i < |h + update| {
        assert (h + update + ms)[i] == update[i - |h|];
      } else {
        assert (h + update + ms)[i] == ms[i - |h + update|];
      }
    }
  }

  /** A history that extends an agent step and its tool results, and is unnamed after them, is
      unnamed from before the step. */
  lemma UnnamedStep(h: seq<Message>, update: seq<Message>, ms: seq<Message>, s: seq<Message>)
    requires forall i | 0 <= i < |update| :: update[i].Assistant?
    requires forall i | 0 <= i < |ms| :: ms[i].Tool? && ms[i].name == None
    requires |h + update + ms| <= |s| && s[..|h + update + ms|] == h + update + ms
    requires UnnamedFrom(s, |h + update + ms|)
    ensures UnnamedFrom(s, |h|)
  {
    StepUnnamed(h, update, ms);
    UnnamedAcross(s, h + update + ms, |h|);
  }

  /** A history that extends `t` is unnamed from `k` on when `t` is and the extension is. */
  lemma UnnamedAcross(s: seq<Message>, t: seq<Message>, k: nat)
    requires k <= |t| <= |s| && s[..|t|] == t
    requires UnnamedFrom(t, k) && UnnamedFrom(s, |t|)
    ensures UnnamedFrom(s, k)
  {
    forall i | k <= i < |t| ensures NameOf(s[i]) == None && !s[i].System? {
      assert s[i] == s[..|t|][i];
    }
  }

  /** A model message that ends the exchange: one without tool calls. */
  predicate IsFinal(m: Message)
  {
    m.Assistant? && m.toolCalls == []
  }

  /** The content of the latest final model message, or `""` when there is none. */
  function LatestAnswer(h: seq<Message>): string
  {
    if h == [] then ""
    else if IsFinal(h[|h| - 1]) then h[|h| - 1].content
    else LatestAnswer(h[..|h| - 1])
  }

  /** The answer is the content of the final model message with no final one after it, and it is
      `""` exactly when there is none. */
  lemma {:induction false} LatestAnswerIsLatest(h: seq<Message>)
    ensures (forall i | 0 <= i < |h| :: !IsFinal(h[i])) ==> LatestAnswer(h) == ""
    ensures forall k | 0 <= k < |h| && IsFinal(h[k]) && (forall i | k < i < |h| :: !IsFinal(h[i])) ::
      LatestAnswer(h) == h[k].content
  {
    if h != [] {
      var front := h[..|h| - 1];
      LatestAnswerIsLatest(front);
      assert forall i | 0 <= i < |front| :: front[i] == h[i];
    }
  }

  /** Scans the history from the latest message back for the answer. */
  method ExtractAnswer(h: seq<Message>) returns (answer: string)
    ensures answer == LatestAnswer(h)
  {
    answer := "";
    var i := |h|;
    assert h[..i] == h;
    while i > 0
      invariant 0 <= i <= |h|
      invariant LatestAnswer(h) == LatestAnswer(h[..i])
      decreases i
    {
      var m := h[i - 1];
      assert h[..i][..i - 1] == h[..i - 1];
      if m.Assistant? && m.toolCalls == [] {
        answer := m.content;
        return;
      }
      i := i - 1;
    }
  }

  /** The links for the captured paths of one message: each path rewritten from the container
      path to the local one behind `file://`. With either path unset, the first rewrite raises. */
  function MatchLinks(matches: seq<string>, containerPath: Option<string>, localFilesPath: Option<string>): (r: Result<set<string>>)
    ensures matches == [] ==> r == Ok({})
    ensures r.Ok? && matches != [] ==> containerPath.Some? && localFilesPath.Some?
  {
    if matches == [] then Ok({})
    else if containerPath.None? then Err(ContainerPathNone)
    else if localFilesPath.None? then Err(LocalPathNone)
    else Ok(LinkSet(matches, containerPath.value, localFilesPath.value))
  }

  /** The links of `paths`, deduplicated. */
  function LinkSet(paths: seq<string>, containerPath: string, localFilesPath: string): set<string>
  {
    if paths == [] then {}
    else LinkSet(paths[..|paths| - 1], containerPath, localFilesPath) + {LinkOf(paths[|paths| - 1], containerPath, localFilesPath)}
  }

  /** A link is in the set exactly when it is the link of one of the paths. */
  lemma LinkSetMembers(paths: seq<string>, containerPath: string, localFilesPath: string)
    ensures forall k | 0 <= k < |paths| :: LinkOf(paths[k], containerPath, localFilesPath) in LinkSet(paths, containerPath, localFilesPath)
    ensures forall x | x in LinkSet(paths, containerPath, localFilesPath) ::
      exists k | 0 <= k < |paths| :: x == LinkOf(paths[k], containerPath, localFilesPath)
  {
    forall k | 0 <= k < |paths| ensures LinkOf(paths[k], containerPath, localFilesPath) in LinkSet(paths, containerPath, localFilesPath) {
      LinkOfEachPath(paths, containerPath, localFilesPath, k);
    }
    forall x | x in LinkSet(paths, containerPath, localFilesPath)
      ensures exists k | 0 <= k < |paths| :: x == LinkOf(paths[k], containerPath, localFilesPath)
    {
      var k := PathOfLink(paths, containerPath, localFilesPath, x);
    }
  }

  /** The link of each path is in the set. */
  lemma {:induction false} LinkOfEachPath(paths: seq<string>, containerPath: string, localFilesPath: string, k: nat)
    requires k < |paths|
    ensures LinkOf(paths[k], containerPath, localFilesPath) in LinkSet(paths, containerPath, localFilesPath)
  {
    var front := paths[..|paths| - 1];
    if k < |front| {
      LinkOfEachPath(front, containerPath, localFilesPath, k);
      assert front[k] == paths[k];
    }
  }

  /** Each link in the set is the link of some path, found at index `k`. */
  lemma {:induction false} PathOfLink(paths: seq<string>, containerPath: string, localFilesPath: string, x: string) returns (k: nat)
    requires x in LinkSet(paths, containerPath, localFilesPath)
    ensures k < |paths| && x == LinkOf(paths[k], containerPath, localFilesPath)
  {
    var front := paths[..|paths| - 1];
    if x == LinkOf(paths[|paths| - 1], containerPath, localFilesPath) {
      k := |paths| - 1;
    } else {
      k := PathOfLink(front, containerPath, localFilesPath, x);
      assert front[k] == paths[k];
    }
  }

  /** The links of one message: those of the paths the pattern captures in a message named
      after the search tool, none for other messages. */
  function MessageLinks(m: Message, containerPath: Option<string>, localFilesPath: Option<string>): Result<set<string>>
  {
    if NameOf(m) == Some(SearchToolName) then MatchLinks(FindAll(m.content), containerPath, localFilesPath)
    else Ok({})
  }

  /** The links of the whole history, collected message by message; the first error ends it. */
  function LinksOf(h: seq<Message>, containerPath: Option<string>, localFilesPath: Option<string>): Result<set<string>>
  {
    if h == [] then Ok({})
    else match LinksOf(h[..|h| - 1], containerPath, localFilesPath)
      case Err(e) => Err(e)
      case Ok(found) =>
        match MessageLinks(h[|h| - 1], containerPath, localFilesPath)
        case Err(e) => Err(e)
        case Ok(more) => Ok(found + more)
  }

  /** A history in which no message names the search tool yields no links and no error,
      whatever the configured paths. */
  lemma {:induction false} UnnamedHistoryHasNoLinks(h: seq<Message>, containerPath: Option<string>, localFilesPath: Option<string>)
    requires NoSearchNames(h)
    ensures LinksOf(h, containerPath, localFilesPath) == Ok({})
  {
    if h != [] {
      var front := h[..|h| - 1];
      assert forall i | 0 <= i < |front| :: front[i] == h[i];
      UnnamedHistoryHasNoLinks(front, containerPath, localFilesPath);
      assert MessageLinks(h[|h| - 1], containerPath, localFilesPath) == Ok({});
      var none: set<string> := {};
      assert none + none == none;
      assert LinksOf(h, containerPath, localFilesPath) == Ok(none + none);
    }
  }

  /** A message named after the search tool that holds the tool's text for readable documents
      yields exactly the links of those documents' paths. */
  lemma NamedResultLinks(docs: seq<Doc>, id: string, containerPath: string, localFilesPath: string)
    requires docs != []
    requires forall j | 0 <= j < |docs| :: Readable(docs[j])
    ensures var r := MessageLinks(Tool(SearchText(docs), id, Some(SearchToolName)), Some(containerPath), Some(localFilesPath));
      && r.Ok?
      && (forall j | 0 <= j < |docs| :: LinkOf(PathOf(docs[j]), containerPath, localFilesPath) in r.value)
      && (forall x | x in r.value :: exists j | 0 <= j < |docs| :: x == LinkOf(PathOf(docs[j]), containerPath, localFilesPath))
  {
    var matches := FindAll(SearchText(docs));
    assert matches == Paths(docs) by {
      SearchTextRoundTrip(docs);
    }
    var r := MessageLinks(Tool(SearchText(docs), id, Some(SearchToolName)), Some(containerPath), Some(localFilesPath));
    assert r == Ok(LinkSet(Paths(docs), containerPath, localFilesPath));
    LinkSetMembers(Paths(docs), containerPath, localFilesPath);
  }

  /** Once a prefix of the history fails, the whole extraction fails with the same error. */
  lemma {:induction false} LinksOfKeepsError(h: seq<Message>, k: nat, containerPath: Option<string>, localFilesPath: Option<string>)
    requires k <= |h|
    requires LinksOf(h[..k], containerPath, localFilesPath).Err?
    ensures LinksOf(h, containerPath, localFilesPath) == LinksOf(h[..k], containerPath, localFilesPath)
    decreases |h| - k
  {
    if k < |h| {
      assert h[..k + 1][..k] == h[..k];
      LinksOfKeepsError(h, k + 1, containerPath, localFilesPath);
    } else {
      assert h[..k] == h;
    }
  }

  /** Reads the links out of the history, message by message. */
  method ExtractLinks(h: seq<Message>, containerPath: Option<string>, localFilesPath: Option<string>)
    returns (r: Result<set<string>>)
    ensures r == LinksOf(h, containerPath, localFilesPath)
  {
    var links: set<string> := {};
    for i := 0 to |h|
      invariant LinksOf(h[..i], containerPath, localFilesPath) == Ok(links)
    {
      assert h[..i + 1][..i] == h[..i];
      var added := AddMessageLinks(h[i], links, containerPath, localFilesPath);
      if added.Err? {
        LinksOfKeepsError(h, i + 1, containerPath, localFilesPath);
        return added;
      }
      links := added.value;
    }
    assert h[..|h|] == h;
    return Ok(links);
  }

  /** Adds the links of one message to `links`, match by match. */
  method AddMessageLinks(m: Message, links: set<string>, containerPath: Option<string>, localFilesPath: Option<string>)
    returns (r: Result<set<string>>)
    ensures MessageLinks(m, containerPath, localFilesPath).Err? ==> r == MessageLinks(m, containerPath, localFilesPath)
    ensures MessageLinks(m, containerPath, localFilesPath).Ok? ==> r == Ok(links + MessageLinks(m, containerPath, localFilesPath).value)
  {
    if !(m.Tool? && m.name == Some(SearchToolName)) {
      assert links + {} == links;
      return Ok(links);
    }
    var matches := FindAll(m.content);
    var found := links;
    for j := 0 to |matches|
      invariant j > 0 ==> containerPath.Some? && localFilesPath.Some?
      invariant j == 0 ==> found == links
      invariant j > 0 ==> found == links + LinkSet(matches[..j], containerPath.value, localFilesPath.value)
    {
      assert matches[..j + 1][..j] == matches[..j];
      if containerPath.None? {
        return Err(ContainerPathNone);
      }
      if localFilesPath.None? {
        return Err(LocalPathNone);
      }
      found := found + {FileScheme + Replace(matches[j], containerPath.value, localFilesPath.value)};
    }
    assert matches[..|matches|] == matches;
    assert links + {} == links;
    return Ok(found);
  }

  /** What `invoke` returns: the answer and the links, or the error and its status. */
  datatype Response = Answered(answer: string, links: set<string>) | Failed(error: string, status: string)

  /** `invoke` for one user message on a fresh thread, with at most `fuel` agent steps; `None`
      when the run has not ended within them. */
  function InvokeResult(message: string, chat: seq<Message> -> Result<Reply>, retrieve: string -> Result<seq<Doc>>, fuel: nat,
                        containerPath: Option<string>, localFilesPath: Option<string>): Option<Response>
  {
    match Run([Human(message)], chat, retrieve, fuel)
    case OutOfFuel => None
    case Raised(e) => Some(Failed(e, ErrorStatus))
    case Finished(h) =>
      match LinksOf(h, containerPath, localFilesPath)
      case Err(e) => Some(Failed(e, ErrorStatus))
      case Ok(links) => Some(Answered(LatestAnswer(h), links))
  }

  /** Runs the graph on the user's message, then extracts the answer and the links; every
      exception becomes an error response. */
  method Invoke(message: string, chat: seq<Message> -> Result<Reply>, retrieve: string -> Result<seq<Doc>>, fuel: nat,
                containerPath: Option<string>, localFilesPath: Option<string>) returns (r: Option<Response>)
    ensures r == InvokeResult(message, chat, retrieve, fuel, containerPath, localFilesPath)
  {
    var outcome := RunGraph([Human(message)], chat, retrieve, fuel);
    if outcome.OutOfFuel? {
      return None;
    }
    if outcome.Raised? {
      return Some(Failed(outcome.message, ErrorStatus));
    }
    var messages := outcome.history;
    var answer := ExtractAnswer(messages);
    var links := ExtractLinks(messages, containerPath, localFilesPath);
    if links.Err? {
      return Some(Failed(links.message, ErrorStatus));
    }
    return Some(Answered(answer, links.value));
  }

  /** `invoke` answers with the content of the model's closing message and never with links, since
      the tool messages it makes carry no name; any exception becomes an error response. */
  lemma InvokeOutcome(message: string, chat: seq<Message> -> Result<Reply>, retrieve: string -> Result<seq<Doc>>, fuel: nat,
                      containerPath: Option<string>, localFilesPath: Option<string>)
    ensures var run := Run([Human(message)], chat, retrieve, fuel);
      var r := InvokeResult(message, chat, retrieve, fuel, containerPath, localFilesPath);
      && (run.OutOfFuel? <==> r.None?)
      && (run.Raised? ==> r == Some(Failed(run.message, ErrorStatus)))
      && (run.Finished? ==> run.history != [] && r == Some(Answered(run.history[|run.history| - 1].content, {})))
  {
    var run := Run([Human(message)], chat, retrieve, fuel);
    if run.Finished? {
      var h := run.history;
      RunExtends([Human(message)], chat, retrieve, fuel);
      RunAddsUnnamed([Human(message)], chat, retrieve, fuel);
      assert NameOf(h[0]) == None by {
        assert h[..1] == [Human(message)];
        assert h[0] == h[..1][0];
      }
      UnnamedHistoryHasNoLinks(h, containerPath, localFilesPath);
    }
  }
}
