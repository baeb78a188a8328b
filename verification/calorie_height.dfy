/** The height a fresh account hands the calorie tool. */
module CalorieHeight {
  import opened Wrappers
  import opened Records
  import opened Json
  import opened Store
  import opened Tools
  import opened Orchestrator

  /** The calorie tool named alone, as the coordinator would list it. */
  const CaloriesOnly := [JStr(ToolName(CalculateCalories))]

  /** A tool list naming only the calorie tool runs it once, at step 1. */
  lemma CaloriesOnlyDispatch(run: Runner)
    ensures Dispatch(CaloriesOnly, run, 1) == Success([Entry(CalculateCalories, run, 1)])
  {
    assert Pick(CaloriesOnly[0]) == [CalculateCalories];
    assert CaloriesOnly[1..] == [];
    assert Selected(CaloriesOnly) == [CalculateCalories];
    EntriesCons(CalculateCalories, [], run, 1);
    assert [CalculateCalories] + [] == [CalculateCalories];
    assert Entries([CalculateCalories], run, 1) == [Entry(CalculateCalories, run, 1)];
  }

  /** With the height unset, the calorie entry is the `TypeError` text and
      no model call is made for it. */
  lemma UnsetHeightCaloriesEntry(agent: Agent, message: string, llm: Llm)
    requires agent.user.height == VNone
    ensures Dispatch(CaloriesOnly, Handlers(agent, message, llm), 1) ==
      Success([ToolResult(CalculateCalories, "Error: " + NoneTimesInt)])
  {
    var run := Handlers(agent, message, llm);
    CaloriesOnlyDispatch(run);
    assert ToolRequest(CalculateCalories, agent, message) == Failure(NoneTimesInt);
    assert run(CalculateCalories, 1) == Failure(NoneTimesInt);
  }

  /** A newly registered user has no height, and the calorie handler as
      written fails on it with a `TypeError` before calling the model: when
      the coordinator picks the calorie tool, its entry is the error text.
      With the intended default the height counts as 0 inches. */
  lemma FreshUserCaloriesFail(db: Db, username: string, password: string,
                              history: seq<Message>, message: string, llm: Llm)
    requires Valid(db) && Register(db, username, password).ok
    ensures var d := GetUserData(Register(db, username, password).db, db.nextId);
      && d.Success?
      && HeightInchesAsWritten(d.value.height) == Failure(NoneTimesInt)
      && HeightInches(d.value.height) == Success(0.0)
      && Dispatch(CaloriesOnly, Handlers(Agent(d.value, history), message, llm), 1) ==
         Success([ToolResult(CalculateCalories, "Error: " + NoneTimesInt)])
  {
    FreshUserData(db, username, password);
    var d := GetUserData(Register(db, username, password).db, db.nextId);
    UnsetHeightCaloriesEntry(Agent(d.value, history), message, llm);
  }

  /** An update that supplies no height leaves an unset height unset. */
  lemma UpdateKeepsUnsetHeight(db: Db, userId: nat, data: map<string, Value>)
    requires UserById(db.users, userId).Some? && ProfileOf(db, userId).Some?
    requires ProfileOf(db, userId).value.height == VNone
    requires !Supplied(data, Height)
    ensures var d := GetUserData(UpdateProfile(db, userId, data), userId);
      d.Success? && d.value.height == VNone
  {
    UpdateThenGet(db, userId, data);
    var d := GetUserData(UpdateProfile(db, userId, data), userId);
    assert FieldValue(d.value, Height) == FieldOf(ProfileOf(db, userId).value, Height);
  }

  /** Saving the profile form without a height (the form leaves out a height
      of 0) keeps the height unset, so the handler as written keeps failing. */
  lemma ProfileWithoutHeightStillFails(db: Db, userId: nat, data: map<string, Value>,
                                       history: seq<Message>, message: string, llm: Llm)
    requires UserById(db.users, userId).Some? && ProfileOf(db, userId).Some?
    requires ProfileOf(db, userId).value.height == VNone
    requires !Supplied(data, Height)
    ensures var d := GetUserData(UpdateProfile(db, userId, data), userId);
      && d.Success?
      && HeightInchesAsWritten(d.value.height) == Failure(NoneTimesInt)
      && Dispatch(CaloriesOnly, Handlers(Agent(d.value, history), message, llm), 1) ==
         Success([ToolResult(CalculateCalories, "Error: " + NoneTimesInt)])
  {
    UpdateKeepsUnsetHeight(db, userId, data);
    var d := GetUserData(UpdateProfile(db, userId, data), userId);
    UnsetHeightCaloriesEntry(Agent(d.value, history), message, llm);
  }
}
