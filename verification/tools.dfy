/** The six tool handlers of the agent. Each one builds a prompt (the
    workout, progress, motivation and injury handlers from signals mined out
    of the history, the meal and calorie handlers from the user data alone)
    and makes one call to the language model; the model is an oracle, and a
    prompt is represented by what it embeds besides its fixed wording. */
module Tools {
  import opened Wrappers
  import opened Text
  import opened Records
  import opened Context
  import opened Mining

  /** The agent's state for one turn: the user data it was built with and the
      conversation history it was handed. */
  datatype Agent = Agent(user: UserData, history: seq<Message>)

  /** What a prompt embeds. Every request carries the user data (the profile
      fields the prompt shows) and the user's message. */
  datatype Request =
    | CoordinationRequest(user: UserData, context: string, message: string)
    | WorkoutRequest(user: UserData, likes: string, dislikes: string, message: string)
    | MealRequest(user: UserData, message: string)
    | ProgressRequest(user: UserData, summary: string, totalMessages: nat, message: string)
    | MotivationRequest(user: UserData, emotion: string, message: string)
    | CaloriesRequest(user: UserData, heightInches: real, message: string)
    | InjuryRequest(user: UserData, exercises: string, pains: string, message: string)
    | SynthesisRequest(user: UserData, message: string, toolOutputs: string)
    | DirectRequest(user: UserData, context: string, message: string)

  /** The language model: for the call made at a given step of the turn
      (0 for the coordinator, then one step per tool run, then the final
      reply), its completion, or the text of the exception it raised. */
  type Llm = (nat, Request) -> Result<string, string>

  const NoneTimesInt := "unsupported operand type(s) for *: 'NoneType' and 'int'"
  const StrFormatCode := "Unknown format code 'f' for object of type 'str'"

  /** The height in inches as `calculate_calories` computes it: the stored
      height in feet times 12, rendered with one decimal. The height is read
      with a default of 0, but the user data always holds a height entry, so
      a missing height arrives as `None` and the default never applies. */
  function HeightInchesAsWritten(height: Value): (r: Result<real, string>)
    ensures r.Failure? <==> height.VNone? || height.VStr?
    ensures height.VNone? ==> r == Failure(NoneTimesInt)
  {
    match height
    case VNone => Failure(NoneTimesInt)
    case VStr(_) => Failure(StrFormatCode)
    case VInt(i) => Success(i as real * 12.0)
    case VReal(x) => Success(x * 12.0)
  }

  /** The height in inches with the default the code evidently intends: a
      height that is not set counts as 0. Only a text height, which no path of
      the application stores, still fails. */
  function HeightInches(height: Value): (r: Result<real, string>)
    ensures r.Failure? <==> height.VStr?
    ensures height.VNone? ==> r == Success(0.0)
    ensures HeightInchesAsWritten(height).Success? ==> r == HeightInchesAsWritten(height)
  {
    match height
    case VNone => Success(0.0)
    case VStr(_) => Failure(StrFormatCode)
    case VInt(i) => Success(i as real * 12.0)
    case VReal(x) => Success(x * 12.0)
  }

  /** The work a handler does before calling the model: the mining and the
      request it prompts with, or the exception raised on the way. The calorie
      handler converts the height as the code writes it, so an unset height
      raises before the model is called. */
  function ToolRequest(t: Tool, agent: Agent, message: string): (r: Result<Request, string>)
    ensures r.Failure? <==> t == CalculateCalories && (agent.user.height.VNone? || agent.user.height.VStr?)
    ensures t == CalculateCalories && agent.user.height.VNone? ==> r == Failure(NoneTimesInt)
    ensures r.Success? ==> r.value.user == agent.user && r.value.message == message
  {
    var user := agent.user;
    var history := agent.history;
    match t
    case CreateWorkoutPlan =>
      var p := MinePreferences(history);
      Success(WorkoutRequest(user, RenderTags(p.likes, ", ", NoneDetected),
        RenderTags(p.dislikes, ", ", NoneDetected), message))
    case CreateMealPlan =>
      Success(MealRequest(user, message))
    case AnalyzeProgress =>
      Success(ProgressRequest(user, ProgressSummary(history), |history|, message))
    case GiveMotivation =>
      Success(MotivationRequest(user, Sentiment(history), message))
    case CalculateCalories =>
      var inches :- HeightInchesAsWritten(user.height);
      Success(CaloriesRequest(user, inches, message))
    case InjuryPrevention =>
      var ic := MineInjury(history);
      Success(InjuryRequest(user, RenderTags(ic.exercises, ", ", NoExercises),
        RenderTags(ic.pains, "; ", NoPain), message))
  }

  /** Running a handler: its local work, then one model call at `step`. */
  function RunTool(t: Tool, agent: Agent, message: string, llm: Llm, step: nat): Result<string, string> {
    var request :- ToolRequest(t, agent, message);
    llm(step, request)
  }

  /** The workout prompt shows the distinct mined likes and dislikes, each
      once, and the placeholder for an empty list. */
  lemma WorkoutSignals(agent: Agent, message: string)
    ensures var p := MinePreferences(agent.history);
      var w := ToolRequest(CreateWorkoutPlan, agent, message).value;
      && (p.likes == [] ==> w.likes == NoneDetected)
      && (p.dislikes == [] ==> w.dislikes == NoneDetected)
      && (p.likes != [] ==> JoinsDistinct(w.likes, p.likes, ", "))
      && (p.dislikes != [] ==> JoinsDistinct(w.dislikes, p.dislikes, ", "))
      && (forall i :: 0 <= i < |p.likes| ==> Contains(w.likes, p.likes[i]))
      && (forall i :: 0 <= i < |p.dislikes| ==> Contains(w.dislikes, p.dislikes[i]))
  {
    var p := MinePreferences(agent.history);
    var lk := RenderTags(p.likes, ", ", NoneDetected);
    var dl := RenderTags(p.dislikes, ", ", NoneDetected);
    assert ToolRequest(CreateWorkoutPlan, agent, message).value == WorkoutRequest(agent.user, lk, dl, message);
    RenderTagsSpec(p.likes, ", ", NoneDetected);
    RenderTagsSpec(p.dislikes, ", ", NoneDetected);
  }

  /** The injury prompt shows the distinct mined exercises and pains, each
      once, and the placeholder for an empty list. */
  lemma InjurySignals(agent: Agent, message: string)
    ensures var ic := MineInjury(agent.history);
      var j := ToolRequest(InjuryPrevention, agent, message).value;
      && (ic.exercises == [] ==> j.exercises == NoExercises)
      && (ic.pains == [] ==> j.pains == NoPain)
      && (ic.exercises != [] ==> JoinsDistinct(j.exercises, ic.exercises, ", "))
      && (ic.pains != [] ==> JoinsDistinct(j.pains, ic.pains, "; "))
      && (forall i :: 0 <= i < |ic.exercises| ==> Contains(j.exercises, ic.exercises[i]))
      && (forall i :: 0 <= i < |ic.pains| ==> Contains(j.pains, ic.pains[i]))
  {
    var ic := MineInjury(agent.history);
    var ex := RenderTags(ic.exercises, ", ", NoExercises);
    var pn := RenderTags(ic.pains, "; ", NoPain);
    assert ToolRequest(InjuryPrevention, agent, message).value == InjuryRequest(agent.user, ex, pn, message);
    RenderTagsSpec(ic.exercises, ", ", NoExercises);
    RenderTagsSpec(ic.pains, "; ", NoPain);
  }
}
