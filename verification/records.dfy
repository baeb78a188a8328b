/** The records the agent works on: a conversation message, a loosely typed
    profile value, the user data the agent is built with, and the closed set
    of tools it can dispatch to. */
module Records {
  import opened Wrappers

  /** One entry of a conversation history; `role` is "user", "assistant" or
      whatever the store holds, and `timestamp` is a clock reading. */
  datatype Message = Message(role: string, content: string, timestamp: int)

  /** A value held in a profile column or a user-data entry. Python code
      stores whatever it is handed, so the type stays dynamic; `VNone` is
      Python's `None`. */
  datatype Value = VNone | VInt(i: int) | VReal(r: real) | VStr(s: string)

  /** The dictionary the agent is constructed with. */
  datatype UserData = UserData(
    username: string,
    age: Value,
    weight: Value,
    height: Value,
    fitnessGoal: Value,
    activityLevel: Value,
    dietaryRestrictions: Value,
    preferences: Value)

  /** The fixed tool registry. */
  datatype Tool =
    | CreateWorkoutPlan
    | CreateMealPlan
    | AnalyzeProgress
    | GiveMotivation
    | CalculateCalories
    | InjuryPrevention

  /** The registry key under which each tool is registered. */
  function ToolName(t: Tool): string {
    match t
    case CreateWorkoutPlan => "create_workout_plan"
    case CreateMealPlan => "create_meal_plan"
    case AnalyzeProgress => "analyze_progress"
    case GiveMotivation => "give_motivation"
    case CalculateCalories => "calculate_calories"
    case InjuryPrevention => "injury_prevention"
  }

  /** Registry lookup `name in self.tools`: the tool registered under `name`,
      if any. */
  function LookupTool(name: string): (r: Option<Tool>)
    ensures forall t :: r == Some(t) <==> ToolName(t) == name
  {
    if name == "create_workout_plan" then Some(CreateWorkoutPlan)
    else if name == "create_meal_plan" then Some(CreateMealPlan)
    else if name == "analyze_progress" then Some(AnalyzeProgress)
    else if name == "give_motivation" then Some(GiveMotivation)
    else if name == "calculate_calories" then Some(CalculateCalories)
    else if name == "injury_prevention" then Some(InjuryPrevention)
    else None
  }

  /** Distinct tools are registered under distinct names. */
  lemma ToolNameInjective(t: Tool, u: Tool)
    ensures ToolName(t) == ToolName(u) ==> t == u
  {
    assert LookupTool(ToolName(t)) == Some(t);
  }
}
