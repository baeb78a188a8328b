# Fitness coach agent — a Dafny model

This project models the core of FitnessTrainerAI, a chat fitness coach.
Each user turn goes through an agent (`FitnessCoachAgent`). First a coordinator
call to a language model picks tools from a fixed registry of six. The tools
are workout plan, meal plan, progress analysis, motivation, calorie
calculation and injury prevention. Each selected tool builds a prompt and
calls the model. The workout, progress, motivation and injury tools first mine
the conversation history with keyword heuristics; the meal and calorie tools
use only the user data. A failing tool is
recorded as an `Error: …` entry and the other tools still run. Finally one
more model call either combines the tool outputs or, when no tool ran,
replies directly with recent history as context. Behind the chat page there
is a small store with accounts, one profile row per user and saved messages.
The model covers registration, login, history loading, the user-data
dictionary the agent is built with, and profile updates.

The language model is an oracle `Llm = (nat, Request) -> Result<string, string>`.
The number is the step of the turn: 0 for the coordinator, then one step per
tool run, then the final reply. A `Request` records what a prompt embeds
besides its fixed wording. `json.loads` is an oracle
`string -> Option<Object>`. The database is a value `Db` whose tables are
sequences of rows. The clock reading of a saved message is a parameter.

Modules:
- `Wrappers`: `Option` and `Result`.
- `Text`: the Python string operations used — `lower()`, substring `in`,
  `find`/`rfind`, negative slicing, `join`, `set()` de-duplication and
  `str(n)`.
- `Records`: messages, profile values, the user data and the tool registry.
- `Json`: parsed JSON values.
- `Context`: `_get_conversation_context`.
- `Coordinator`: brace extraction and the fallback decision.
- `Mining`: the keyword heuristics.
- `Tools`: the six handlers.
- `Orchestrator`: `_coordinator_llm` and `chat`.
- `Store`: the `streamlit_app.py` database functions.
- `Scenarios`: a worked example.
- `CalorieHeight`: the unset-height defect of the calorie tool, described
  under "## Findings".

Behaviours of the code worth knowing, each stated as the model states it:
- **Coordinator failures.** The coordinator's model call
  (`app/agent.py:114`) sits outside the `try` of `app/agent.py:118-125`, so
  an exception raised by the call fails the whole turn; only a parse
  failure falls back to the empty decision
  (`Orchestrator.CoordinatorFailureFailsTurn`).
- **Selected tools.** The loop of `app/agent.py:474-487` neither
  de-duplicates the coordinator's list nor filters it first: a name that is
  not in the registry is skipped, and a repeated name runs its tool once per
  occurrence (`Orchestrator.Dispatch`, `Orchestrator.UnknownNamesInert`).
  A tool list that is not iterable, or an item that is a list or an object
  (the registry lookup of `app/agent.py:475` hashes it), raises and fails
  the turn.
- **Negation shadowing.** The negation test of `app/agent.py:144` looks at
  the whole message, so "I don't like running but I love lifting weights"
  yields dislikes {weightlifting, running} and no likes
  (`Scenarios.NegationShadowsLike`).
- **Sentiment window.** `app/agent.py:286` takes the last five history
  entries and only then keeps the user messages among them, so the window is
  not the last five user messages.
- **Substring matching.** Every keyword test is a substring test. For
  example, "dislike" contains the like cue "like".
- **Calorie height.** `calculate_calories` converts the stored height as
  written (`app/agent.py:325,332`), so an unset height raises a `TypeError`
  before the model is called and the calorie entry is the error text
  (`Tools.ToolRequest`, `CalorieHeight.FreshUserCaloriesFail`).

## Model

| member | source | states |
|---|---|---|
| Context.Shown | app/agent.py:57 | a shown message is the first min(100, length) characters of the content: the whole content when it is short |
| Context.ContextLines | app/agent.py:52-58 | one rendered line per message of the last `last_n` entries, in order |
| Context.ConversationContext | app/agent.py:47-60 | an empty history gives "No previous conversation."; otherwise the lines joined by newlines |
| Context.ContextShape | app/agent.py:52-60 | a non-empty history gives min(last_n, length) lines, the i-th one rendering the i-th message of the window |
| Context.ContextDistinguishesEmpty | app/agent.py:49-60 | a non-empty history's excerpt is never the empty-history placeholder |
| Text.Lower | app/agent.py:141 | lower-casing keeps the length and lower-cases every letter in place |
| Text.ContainsIffOccurs | app/agent.py:144-163 | the substring test succeeds exactly when some start position holds the keyword |
| Text.Find | app/agent.py:119 | `find` returns -1 exactly when the character is absent, else its first position |
| Text.RFind | app/agent.py:120 | `rfind` returns -1 exactly when the character is absent, else its last position |
| Text.Last | app/agent.py:52 | `xs[-n:]` keeps the last min(n, length) entries for positive n and everything for n = 0 |
| Text.Dedup | app/agent.py:166-167 | `set()` keeps each element once, loses none and adds none |
| Text.JoinContainsEach | app/agent.py:491 | each joined piece appears in the joined text |
| Text.JoinAt | app/agent.py:491 | the i-th piece sits in the joined text at the offset of all earlier pieces and separators |
| Text.JoinOffsetOrder | app/agent.py:491 | a later piece starts after an earlier piece and its separator end |
| Text.JoinOrder | app/agent.py:491 | for i < j, piece i occurs before piece j in the joined text |
| Text.ContainsJoinSpace | app/agent.py:289-291 | a space-free word occurs in the space-joined text exactly when it occurs in one of the pieces |
| Text.NatToStringRoundTrip | app/agent.py:252 | the decimal rendering of the workout count reads back as the count |
| Records.LookupTool | app/agent.py:25-32 | the registry maps a name to a tool exactly when that tool is registered under the name |
| Records.ToolNameInjective | app/agent.py:25-32 | distinct tools are registered under distinct names |
| Json.Get | app/agent.py:470 | a key lookup fails exactly when no entry has the key, else it returns an entry's value |
| Json.GetDistinct | app/agent.py:470 | in an object with distinct keys, the lookup of an entry's key returns that entry's value |
| Coordinator.BraceSpan | app/agent.py:119-121 | no span exists exactly when no '{' precedes a '}'; a span runs from the first '{' to just after the last '}' |
| Coordinator.Decide | app/agent.py:118-128 | the parsed span when it exists and parses, otherwise the fixed fallback with no tools |
| Coordinator.NoBracesFallback | app/agent.py:121-128 | without a '{' followed later by a '}', the decision is the fallback |
| Mining.UserContents | app/agent.py:140 | the user-role contents, no more entries than the window, each from a user message, and every user message's content included |
| Mining.UserContentsAppend | app/agent.py:139-140 | the user contents of two histories in sequence are those of the first followed by those of the second, keeping order and repeats |
| Mining.UserContentsOne | app/agent.py:140 | one message contributes its content exactly when it is a user message, and nothing otherwise |
| Mining.UserContentsAgree | app/agent.py:140 | histories that agree on user-role positions and their contents give the same contents |
| Mining.WindowIgnoresOlder | app/agent.py:139 | entries older than the last n never reach a window of n |
| Mining.NonUserEntryIgnored | app/agent.py:140 | replacing a non-user entry by another non-user entry changes nothing mined |
| Mining.ApplyRules | app/agent.py:144-163 | a tag is produced exactly when some rule with that tag has a keyword in the text |
| Mining.Collect | app/agent.py:139-163 | a tag is collected exactly when some message yields it |
| Mining.RenderTagsSpec | app/agent.py:166-167 | no tags render as the placeholder; otherwise the rendering is a join of some list holding exactly the mined tags, each once, so every tag appears in it |
| Mining.CollectOne | app/agent.py:139-163 | collecting over one message yields that message's lower-cased tags |
| Mining.CollectAppend | app/agent.py:139-163 | collecting over two runs of messages is the first run's tags followed by the second's, so tags keep message order |
| Mining.NegatedMessageTags | app/agent.py:144-152 | a message with "don't want"/"don't like" gives no like, and exactly the dislike tags of the keywords it holds |
| Mining.PlainMessageTags | app/agent.py:153-163 | a message without negation gives no dislike, and with a like cue exactly the like tags of the keywords it holds |
| Mining.MinePreferencesSpec | app/agent.py:139-163 | a tag is liked (disliked) exactly when a user message among the last 10 entries contributes it |
| Mining.MinePreferencesOlder | app/agent.py:139 | entries older than the last 10 do not affect the mined preferences |
| Mining.MinePreferencesNonUser | app/agent.py:140 | replacing a non-user entry by another, in any history, does not affect the mined preferences |
| Mining.WorkoutMentions | app/agent.py:245-246 | the count is at most the number of messages, 0 exactly when none mentions a workout word, full exactly when all do |
| Mining.WorkoutMentionsAppend | app/agent.py:242-246 | the count over two lists in sequence is the sum of their counts |
| Mining.WorkoutMentionsOne | app/agent.py:245-246 | one message counts 1 exactly when it mentions a workout word, else 0 |
| Mining.HistoryWorkoutMentions | app/agent.py:242-246 | appending a message to the history adds 1 to the count exactly when it is a user message mentioning a workout word |
| Mining.ShownClues | app/agent.py:252 | exactly the first min(3, n) clues are shown, in order: all of them when there are at most three |
| Mining.CluesShape | app/agent.py:247-250 | one message yields the fatigue clue when it holds "tired" or "sore", then the improvement clue when it holds "easier" or "better", and nothing else |
| Mining.ProgressCluesAppend | app/agent.py:242-250 | a further user message appends its clues after the earlier ones; any other message appends none |
| Mining.ProgressSummarySpec | app/agent.py:242-252 | the count covers the whole history's user messages, the clues are the two fixed texts, exactly the first min(3, n) shown; the summary is the count in decimal, then " workout mentions; ", then the shown clues joined by "; " |
| Mining.JoinedMentions | app/agent.py:286-291 | a vocabulary word occurs in the lower-cased joined text exactly when it occurs in one lowered message |
| Mining.SentimentSpec | app/agent.py:286-294 | "struggling" exactly on a distress word in the last five entries' user messages, "positive" exactly on a success word without distress, "neutral" otherwise |
| Mining.WordRulesTags | app/agent.py:394-403 | a text yields the tag of each listed word it holds, and nothing else |
| Mining.MineInjurySpec | app/agent.py:389-403 | an exercise (pain indicator) is listed exactly when its word occurs in a user message among the last 10 entries |
| Mining.MineInjuryOlder | app/agent.py:389 | entries older than the last 10 do not affect the injury scan |
| Mining.MineInjuryNonUser | app/agent.py:390 | replacing a non-user entry by another, in any history, does not affect the injury scan |
| Tools.HeightInchesAsWritten | app/agent.py:324-332 | an unset or text height fails; an unset one with the `NoneType` multiplication error |
| Tools.HeightInches | app/agent.py:324-332 | with the intended default an unset height is 0 and only a text height fails; it agrees with the code wherever the code succeeds |
| Tools.ToolRequest | app/agent.py:130-458 | a handler's local work fails exactly for the calorie tool on an unset or text height, an unset one with the `NoneType` multiplication error; every prompt carries the user data and the message |
| Tools.WorkoutSignals | app/agent.py:166-167 | the workout prompt shows "none detected" when nothing was mined, and otherwise a distinct join of exactly the mined likes (dislikes) by ", " |
| Tools.InjurySignals | app/agent.py:405-406 | the injury prompt shows its placeholders when nothing was mined, and otherwise a distinct join of exactly the mined exercises by ", " and pain indicators by "; " |
| Orchestrator.Coordinate | app/agent.py:62-128 | a failing coordinator call fails the turn; otherwise the decision is the tolerant parse of the answer |
| Orchestrator.ToolsToUse | app/agent.py:470-474 | a missing tools entry iterates as empty, a list as its items, a string as its one-character strings and an object as its keys; iteration fails exactly on a null, boolean or number |
| Orchestrator.Registered | app/agent.py:475 | an item selects a tool exactly when it is that tool's registered name |
| Orchestrator.SelectedAppend | app/agent.py:474-475 | selection distributes over concatenation of the tool list |
| Orchestrator.SelectedNames | app/agent.py:474-475 | a list of registered names selects exactly those tools, repeats included, in order |
| Orchestrator.Dispatch | app/agent.py:472-487 | fails exactly when an item is unhashable; otherwise one entry per selected tool in order, the i-th run at step start+i, holding its output or "Error: " and the exception text |
| Orchestrator.UnknownNamesInert | app/agent.py:475 | adding an unregistered name at either end of the list changes neither the entries nor the model steps used |
| Orchestrator.EntriesAt | app/agent.py:474-487 | the i-th entry of a run of tools is the i-th tool, run at the i-th model step after the first |
| Orchestrator.ReplyAfterDispatch | app/agent.py:472-540 | for any tool outcomes, a list of hashable names leads to the final model call after one step per selected tool, a synthesis exactly when a registered tool was named |
| Orchestrator.FailureIsolated | app/agent.py:476-487 | when the first of two tools fails, both still have entries, the first holding the error |
| Orchestrator.FormatOutputs | app/agent.py:491 | every tool's labelled section appears in the outputs block, section i before section j when tool i ran first |
| Orchestrator.FinalRequest | app/agent.py:490-538 | a synthesis prompt exactly when some tool ran, embedding every section in the order the tools ran; otherwise a direct prompt with the last-five context |
| Orchestrator.ChatAfterCoordination | app/agent.py:460-540 | once the coordinator gives a usable list, the reply is the final model call after one step per selected tool, a synthesis exactly when a registered tool was named |
| Orchestrator.CoordinatorFailureFailsTurn | app/agent.py:114 | a model failure at the coordinator step is the failure of the turn |
| Orchestrator.FallbackRepliesDirectly | app/agent.py:128 | a fallback decision leads to a direct reply at step 1 with the last-five context |
| Store.UserByName | streamlit_app.py:36 | the lookup fails exactly when no user has the name, else returns a user with it |
| Store.UserById | streamlit_app.py:86 | the lookup fails exactly when no user has the id, else returns a user with it |
| Store.ProfileIndex | streamlit_app.py:87 | the first profile row of the user, or -1 exactly when there is none |
| Store.Register | streamlit_app.py:35-52 | a taken name is refused with the store unchanged; otherwise exactly one user row and one empty profile row are added |
| Store.RegisterPreservesValid | streamlit_app.py:35-52 | registration keeps usernames and ids unique |
| Store.RegisterTwice | streamlit_app.py:36-38 | a second registration of a name is refused and changes nothing |
| Store.Login | streamlit_app.py:54-60 | a user is returned exactly when the name is found and the password matches it |
| Store.LoginOnlyWithPassword | streamlit_app.py:54-60 | in a valid store, login succeeds exactly when some user has that name and password |
| Store.RegisterThenLogin | streamlit_app.py:35-60 | a new account logs in with its password and with no other |
| Store.SaveMessage | streamlit_app.py:76-83 | saving appends exactly one row and changes nothing else |
| Store.RowsOf | streamlit_app.py:63-65 | a message is in the user's rows exactly when some row of that user holds it |
| Store.SortByTime | streamlit_app.py:65 | the sorted history is chronological and a permutation of its input |
| Store.SortChronological | streamlit_app.py:65 | a chronological history sorts to itself |
| Store.LoadHistory | streamlit_app.py:62-74 | the loaded history is chronological and holds exactly the user's messages |
| Store.SaveThenLoad | streamlit_app.py:62-83 | with saves in clock order, loading after a save gives the earlier history followed by the new message |
| Store.SaveForOtherUser | streamlit_app.py:62-83 | another user's message never enters a user's history |
| Store.GetUserData | streamlit_app.py:85-102 | a missing user fails; without a profile the fixed defaults; otherwise every column of the profile |
| Store.Merge | streamlit_app.py:112-122 | each column supplied with a value other than None takes it, every other column keeps its value |
| Store.MergeIdempotent | streamlit_app.py:104-124 | submitting the same form twice has the effect of submitting it once |
| Store.MergeIgnoresOtherKeys | streamlit_app.py:112-121 | keys that name no column are ignored |
| Store.MergeSkipsNone | streamlit_app.py:121 | a key submitted as None counts as not submitted |
| Store.UpdateProfile | streamlit_app.py:104-124 | without a profile row nothing changes; otherwise only the user's first profile row changes, to the merged profile |
| Store.UpdateThenGet | streamlit_app.py:85-124 | after an update the user data shows the supplied columns' new values and the others' old ones |
| Store.FreshUserData | streamlit_app.py:35-102 | a fresh account's user data has the name and every column unset |
| CalorieHeight.CaloriesOnlyDispatch | app/agent.py:474-487 | a tool list naming only the calorie tool runs it once, at step 1 |
| CalorieHeight.UnsetHeightCaloriesEntry | app/agent.py:324-332 | with the height unset, the calorie entry is "Error: " and the `NoneType` multiplication error |
| CalorieHeight.FreshUserCaloriesFail | app/agent.py:324-332 | for a fresh account the calorie entry is the `TypeError` text, and with the intended default the height is 0 |
| CalorieHeight.UpdateKeepsUnsetHeight | streamlit_app.py:104-124 | an update that supplies no height leaves an unset height unset |
| CalorieHeight.ProfileWithoutHeightStillFails | app/agent.py:324-332 | after saving a profile without a height, the calorie entry is still the `TypeError` text |
| Scenarios.NegationShadowsLike | app/agent.py:139-163 | "I don't like running but I love lifting weights" yields no likes and dislikes {weightlifting, running} |

## Left out

- The Groq client behind `_call_llm`, the model name and the temperatures are not modelled. The model is an oracle, and a failed call is a `Failure`.
- The fixed wording of every prompt is not modelled. A `Request` keeps only what the prompt embeds.
- The internals of `json.loads` are not modelled. It is an oracle from text to an optional object.
- A successful parse that is not an object cannot happen, because the span starts with '{'.
- The `print` diagnostics are not modelled.
- A float height's `:.1f` rendering is not modelled. Heights are reals, and only the failure of the formatting is modelled.
- `Tools.HeightInchesAsWritten`: a boolean height, which Python multiplies as 0 or 1, is not modelled. Booleans are not a profile value here.
- `lower()` covers ASCII letters only. Python's Unicode case mapping is not modelled.
- JSON objects with a repeated key: behaviour on them is not meant to match. `Json.Get` returns the first entry for a key where `json.loads` keeps the last; `Json.GetDistinct` states that the two agree whenever the keys are distinct (`Json.DistinctKeys`), which is the only case the model claims to follow.
- The iteration order of `set()` is unspecified in Python. The model uses first-occurrence order, so the contracts state only which tags appear.
- SQL `ORDER BY timestamp` leaves the order of equal timestamps unspecified. The model sorts stably.
- Timestamps are integers, and the `utcnow` default is the `now` parameter.
- SQLAlchemy column type coercion and the `updated_at` and `created_at` columns are not modelled.
- Id assignment is a `nextId` counter standing in for SQLite's row ids.
- Messages always carry a role and a content. The `.get` defaults for missing keys are not modelled.
- The Streamlit pages (`auth_view`, `chat_page`, `main`) are not modelled. Neither are the form checks done before `register_user`/`login_user`, or the session state.
- `app/database.py` beyond its columns, `run_streamlit.py` and `view_db_simple.py` are not part of this model.
- `Store.Login`: the password comparison is plain string equality. The code also compares plain text, because passwords are stored unhashed.

## Findings

| source | as written | input that shows it | evidently intended | confidence | as-written member | corrected member |
|---|---|---|---|---|---|---|
| app/agent.py:324-332 | `height_ft = user_data.get('height', 0)` then `height_ft * 12`; `get_user_data` always puts a `height` key, set to `None` when the profile has no height, so the default never applies | a freshly registered user (or one who saved the profile form with height 0) asks for calories: `None * 12` raises `TypeError`, so the calorie entry is "Error: unsupported operand type(s) for *: 'NoneType' and 'int'" | an unset height counts as 0, as the `.get` default shows; handlers render missing profile data rather than fail | not executed | Tools.HeightInchesAsWritten | Tools.HeightInches |
