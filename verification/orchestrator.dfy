/** One turn of the agent: the coordinator call, the dispatch of the selected
    tools with per-tool error isolation, and the final reply, synthesised from
    the tool outputs or, when no tool ran, written directly. */
module Orchestrator {
  import opened Wrappers
  import opened Text
  import opened Records
  import opened Json
  import opened Context
  import opened Coordinator
  import opened Tools

  /** The coordinator: one model call at step 0 with the last three messages
      as context, whose failure is not caught, then the tolerant parse of its
      answer. */
  function Coordinate(agent: Agent, message: string, llm: Llm, parse: string -> Option<Object>): (r: Result<Object, string>)
    ensures var answer := llm(0, CoordinationRequest(agent.user, ConversationContext(agent.history, 3), message));
      && (answer.Failure? ==> r == Failure(answer.error))
      && (answer.Success? ==> r == Success(Decide(answer.value, parse)))
  {
    var answer :- llm(0, CoordinationRequest(agent.user, ConversationContext(agent.history, 3), message));
    Success(Decide(answer, parse))
  }

  /** Iterating the decision's "tools" entry: a missing entry iterates as
      the empty list, a list as its items, a string as its characters and an
      object as its keys; any other value is not iterable and the turn fails. */
  function ToolsToUse(decision: Object): (r: Result<seq<JsonValue>, string>)
    ensures Get(decision, "tools").None? ==> r == Success([])
    ensures r.Failure? <==> (Get(decision, "tools").Some? &&
      (Get(decision, "tools").value.JNull? || Get(decision, "tools").value.JBool? ||
       Get(decision, "tools").value.JInt? || Get(decision, "tools").value.JFloat?))
    ensures Get(decision, "tools") == Some(JArr([])) ==> r == Success([])
    ensures Get(decision, "tools").Some? && Get(decision, "tools").value.JArr? ==>
      r == Success(Get(decision, "tools").value.items)
    ensures Get(decision, "tools").Some? && Get(decision, "tools").value.JStr? ==>
      var s := Get(decision, "tools").value.s;
      && r.Success? && |r.value| == |s|
      && forall i :: 0 <= i < |s| ==> r.value[i] == JStr([s[i]])
    ensures Get(decision, "tools").Some? && Get(decision, "tools").value.JObj? ==>
      r == Success(Keys(Get(decision, "tools").value.fields))
  {
    match Get(decision, "tools")
    case None => Success([])
    case Some(v) =>
      match v
      case JArr(items) => Success(items)
      case JStr(s) => Success(seq(|s|, i requires 0 <= i < |s| => JStr([s[i]])))
      case JObj(fields) => Success(Keys(fields))
      case JNull => Failure("'NoneType' object is not iterable")
      case JBool(_) => Failure("'bool' object is not iterable")
      case JInt(_) => Failure("'int' object is not iterable")
      case JFloat(_) => Failure("'float' object is not iterable")
  }

  /** Lists and objects cannot be looked up in the tool registry. */
  predicate Hashable(v: JsonValue) {
    !v.JArr? && !v.JObj?
  }

  function UnhashableError(v: JsonValue): string {
    if v.JArr? then "unhashable type: 'list'" else "unhashable type: 'dict'"
  }

  /** The tool an item names, if it is the name of a registered tool. */
  function Registered(v: JsonValue): (r: Option<Tool>)
    ensures forall t :: r == Some(t) <==> v == JStr(ToolName(t))
  {
    if v.JStr? then LookupTool(v.s) else None
  }

  /** The tool an item selects, as a list of at most one. */
  function Pick(v: JsonValue): (r: seq<Tool>)
    ensures |r| <= 1
  {
    match Registered(v)
    case Some(t) => [t]
    case None => []
  }

  /** The registered tools among the items, in order, repeats included. */
  function Selected(items: seq<JsonValue>): (r: seq<Tool>)
    ensures |r| <= |items|
    decreases |items|
  {
    if |items| == 0 then [] else Pick(items[0]) + Selected(items[1..])
  }

  /** Selection distributes over concatenation of the coordinator's list. */
  lemma {:induction false} SelectedAppend(a: seq<JsonValue>, b: seq<JsonValue>)
    ensures Selected(a + b) == Selected(a) + Selected(b)
    decreases |a|
  {
    if |a| > 0 {
      assert (a + b)[0] == a[0];
      assert (a + b)[1..] == a[1..] + b;
      SelectedAppend(a[1..], b);
      assert Selected(a + b) == Pick(a[0]) + Selected(a[1..] + b);
      assert Selected(a) == Pick(a[0]) + Selected(a[1..]);
      assert Pick(a[0]) + (Selected(a[1..]) + Selected(b)) == (Pick(a[0]) + Selected(a[1..])) + Selected(b);
    } else {
      assert a + b == b;
    }
  }

  /** Exactly the named tools are selected, each occurrence of a name once. */
  lemma {:induction false} SelectedNames(names: seq<Tool>)
    ensures Selected(seq(|names|, i requires 0 <= i < |names| => JStr(ToolName(names[i])))) == names
    decreases |names|
  {
    var items := seq(|names|, i requires 0 <= i < |names| => JStr(ToolName(names[i])));
    if |names| > 0 {
      assert Registered(items[0]) == Some(names[0]);
      assert items[1..] == seq(|names[1..]|, i requires 0 <= i < |names[1..]| => JStr(ToolName(names[1..][i])));
      SelectedNames(names[1..]);
    }
  }

  /** One entry of `tool_results`. */
  datatype ToolResult = ToolResult(tool: Tool, result: string)

  /** A tool's output, or the text of its exception after "Error: ". */
  function Outcome(res: Result<string, string>): string {
    match res
    case Success(s) => s
    case Failure(e) => "Error: " + e
  }

  /** A tool run: the outcome of running a tool at a model step. */
  type Runner = (Tool, nat) -> Result<string, string>

  /** The agent's own handlers as a runner. */
  function Handlers(agent: Agent, message: string, llm: Llm): Runner {
    (t: Tool, step: nat) => RunTool(t, agent, message, llm, step)
  }

  /** The entry a tool run at `step` leaves. */
  function Entry(t: Tool, run: Runner, step: nat): ToolResult {
    ToolResult(t, Outcome(run(t, step)))
  }

  /** The entries of running the tools one after another from `step`. */
  function Entries(tools: seq<Tool>, run: Runner, step: nat): (r: seq<ToolResult>)
    ensures |r| == |tools|
    decreases |tools|
  {
    if |tools| == 0 then [] else [Entry(tools[0], run, step)] + Entries(tools[1..], run, step + 1)
  }

  lemma EntriesCons(t: Tool, tools: seq<Tool>, run: Runner, step: nat)
    ensures Entries([t] + tools, run, step) == [Entry(t, run, step)] + Entries(tools, run, step + 1)
  {
    assert ([t] + tools)[1..] == tools;
  }

  /** The i-th entry is the i-th tool, run at the i-th step from `step`. */
  lemma {:induction false} EntriesAt(tools: seq<Tool>, run: Runner, step: nat, i: int)
    requires 0 <= i < |tools|
    ensures Entries(tools, run, step)[i] == Entry(tools[i], run, step + i)
    decreases |tools|
  {
    if i > 0 {
      EntriesAt(tools[1..], run, step + 1, i - 1);
    }
  }

  /** The dispatch loop. Every registered name runs its tool once, each run
      taking the next model step; a failing tool is recorded and the loop goes
      on. Names that are not registered are skipped, and an item that cannot
      be looked up fails the turn. */
  function Dispatch(items: seq<JsonValue>, run: Runner, step: nat): (r: Result<seq<ToolResult>, string>)
    ensures r.Failure? <==> exists i :: 0 <= i < |items| && !Hashable(items[i])
    ensures r.Success? ==> |r.value| == |Selected(items)|
    ensures r.Success? ==> r.value == Entries(Selected(items), run, step)
    decreases |items|
  {
    if |items| == 0 then Success([])
    else if !Hashable(items[0]) then Failure(UnhashableError(items[0]))
    else
      assert forall i :: 0 < i < |items| ==> items[i] == items[1..][i - 1];
      match Registered(items[0])
      case None =>
        assert Selected(items) == Selected(items[1..]);
        Dispatch(items[1..], run, step)
      case Some(t) =>
        assert Selected(items) == [t] + Selected(items[1..]);
        EntriesCons(t, Selected(items[1..]), run, step);
        var rest :- Dispatch(items[1..], run, step + 1);
        Success([Entry(t, run, step)] + rest)
  }

  /** Dropping names that are not registered changes nothing: they take no
      model step and leave no entry. */
  lemma {:induction false} UnknownNamesInert(items: seq<JsonValue>, v: JsonValue, run: Runner, step: nat)
    requires Hashable(v) && Registered(v).None?
    ensures Dispatch(items + [v], run, step) == Dispatch(items, run, step)
    ensures Dispatch([v] + items, run, step) == Dispatch(items, run, step)
    decreases |items|
  {
    assert ([v] + items)[1..] == items;
    if |items| > 0 {
      assert (items + [v])[1..] == items[1..] + [v];
      var next := if Registered(items[0]).Some? then step + 1 else step;
      UnknownNamesInert(items[1..], v, run, next);
    } else {
      assert [v][1..] == [];
    }
  }

  /** A failing tool does not stop the next one: with two tools selected and
      the first failing, both have an entry, the first recording the error. */
  lemma FailureIsolated(a: Tool, b: Tool, run: Runner)
    requires run(a, 1).Failure?
    ensures Dispatch([JStr(ToolName(a)), JStr(ToolName(b))], run, 1) ==
      Success([ToolResult(a, "Error: " + run(a, 1).error), ToolResult(b, Outcome(run(b, 2)))])
  {
    var items := [JStr(ToolName(a)), JStr(ToolName(b))];
    assert Pick(items[0]) == [a] && Pick(items[1]) == [b];
    assert items[1..][1..] == [];
    assert Selected(items) == [a, b];
    var r := Dispatch(items, run, 1);
    assert r.Success?;
    EntriesCons(a, [b], run, 1);
    EntriesCons(b, [], run, 2);
    assert r.value == [Entry(a, run, 1), Entry(b, run, 2)];
    assert Entry(a, run, 1) == ToolResult(a, "Error: " + run(a, 1).error);
  }

  /** The section a tool contributes to the synthesis prompt. */
  function Section(tr: ToolResult): string {
    "=== " + ToolName(tr.tool) + " ===\n" + tr.result
  }

  function Sections(results: seq<ToolResult>): (r: seq<string>)
    ensures |r| == |results|
    ensures forall i :: 0 <= i < |results| ==> r[i] == Section(results[i])
  {
    seq(|results|, i requires 0 <= i < |results| => Section(results[i]))
  }

  /** The tool outputs block: every tool's section appears in it, in the
      order the tools ran. */
  function FormatOutputs(results: seq<ToolResult>): (r: string)
    ensures forall i :: 0 <= i < |results| ==> Contains(r, Section(results[i]))
    ensures forall i, j :: 0 <= i < j < |results| ==>
      OccursBefore(r, Section(results[i]), Section(results[j]))
  {
    var sections := Sections(results);
    assert forall i :: 0 <= i < |results| ==> Contains(Join(sections, "\n\n"), sections[i]) by {
      forall i | 0 <= i < |results| ensures Contains(Join(sections, "\n\n"), sections[i]) {
        JoinContainsEach(sections, "\n\n", i);
      }
    }
    assert forall i, j :: 0 <= i < j < |results| ==>
      OccursBefore(Join(sections, "\n\n"), sections[i], sections[j]) by {
      forall i, j | 0 <= i < j < |results|
        ensures OccursBefore(Join(sections, "\n\n"), sections[i], sections[j])
      {
        JoinOrder(sections, "\n\n", i, j);
      }
    }
    Join(sections, "\n\n")
  }

  /** The final prompt: a synthesis of the tool outputs when some tool ran,
      otherwise a direct reply with the last five messages as context. */
  function FinalRequest(results: seq<ToolResult>, agent: Agent, message: string): (r: Request)
    ensures r.user == agent.user && r.message == message
    ensures r.SynthesisRequest? <==> |results| > 0
    ensures r.DirectRequest? <==> |results| == 0
    ensures r.SynthesisRequest? ==> forall i :: 0 <= i < |results| ==> Contains(r.toolOutputs, Section(results[i]))
    ensures r.SynthesisRequest? ==> forall i, j :: 0 <= i < j < |results| ==>
      OccursBefore(r.toolOutputs, Section(results[i]), Section(results[j]))
    ensures r.DirectRequest? ==> r.context == ConversationContext(agent.history, 5)
  {
    if |results| > 0 then SynthesisRequest(agent.user, message, FormatOutputs(results))
    else DirectRequest(agent.user, ConversationContext(agent.history, 5), message)
  }

  /** The part of `chat` after the coordinator: run the named tools, then
      make the final model call after the last tool's step. */
  function Reply(items: seq<JsonValue>, run: Runner, agent: Agent, message: string, llm: Llm): Result<string, string> {
    var results :- Dispatch(items, run, 1);
    llm(1 + |results|, FinalRequest(results, agent, message))
  }

  /** `chat`: the coordinator at step 0, the tools at steps 1.., the final
      reply at the step after the last tool. */
  function Chat(agent: Agent, message: string, llm: Llm, parse: string -> Option<Object>): Result<string, string> {
    var decision :- Coordinate(agent, message, llm, parse);
    var items :- ToolsToUse(decision);
    Reply(items, Handlers(agent, message, llm), agent, message, llm)
  }

  /** Whatever the tools answer, a list of hashable names leads to the final
      model call, made after one step per selected tool, and it is a
      synthesis exactly when some registered tool was named. */
  lemma ReplyAfterDispatch(items: seq<JsonValue>, run: Runner, agent: Agent, message: string, llm: Llm)
    requires forall i :: 0 <= i < |items| ==> Hashable(items[i])
    ensures Dispatch(items, run, 1).Success?
    ensures var results := Dispatch(items, run, 1).value;
      && Reply(items, run, agent, message, llm) == llm(1 + |Selected(items)|, FinalRequest(results, agent, message))
      && (FinalRequest(results, agent, message).SynthesisRequest? <==> |Selected(items)| > 0)
  {
  }

  /** Tool failures never fail the turn: once the coordinator has answered
      with a usable list, the reply is the final model call, made after one
      step per selected tool, and it is a synthesis exactly when some
      registered tool was named. */
  lemma ChatAfterCoordination(agent: Agent, message: string, llm: Llm, parse: string -> Option<Object>)
    requires Coordinate(agent, message, llm, parse).Success?
    requires ToolsToUse(Coordinate(agent, message, llm, parse).value).Success?
    requires var items := ToolsToUse(Coordinate(agent, message, llm, parse).value).value;
      forall i :: 0 <= i < |items| ==> Hashable(items[i])
    ensures var items := ToolsToUse(Coordinate(agent, message, llm, parse).value).value;
      var results := Dispatch(items, Handlers(agent, message, llm), 1).value;
      && Chat(agent, message, llm, parse) == llm(1 + |Selected(items)|, FinalRequest(results, agent, message))
      && (FinalRequest(results, agent, message).SynthesisRequest? <==> |Selected(items)| > 0)
  {
    var items := ToolsToUse(Coordinate(agent, message, llm, parse).value).value;
    ReplyAfterDispatch(items, Handlers(agent, message, llm), agent, message, llm);
  }

  /** A model failure at the coordinator step is the failure of the turn. */
  lemma CoordinatorFailureFailsTurn(agent: Agent, message: string, llm: Llm, parse: string -> Option<Object>)
    requires llm(0, CoordinationRequest(agent.user, ConversationContext(agent.history, 3), message)).Failure?
    ensures Chat(agent, message, llm, parse) ==
      Failure(llm(0, CoordinationRequest(agent.user, ConversationContext(agent.history, 3), message)).error)
  {
  }

  /** When the coordinator's answer cannot be parsed the turn falls back to a
      direct reply at step 1, without running any tool. */
  lemma FallbackRepliesDirectly(agent: Agent, message: string, llm: Llm, parse: string -> Option<Object>)
    requires Coordinate(agent, message, llm, parse) == Success(Fallback)
    ensures Chat(agent, message, llm, parse) ==
      llm(1, DirectRequest(agent.user, ConversationContext(agent.history, 5), message))
  {
    assert Get(Fallback, "tools") == Some(JArr([]));
  }
}
