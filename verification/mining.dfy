/** The keyword heuristics the tools run over the conversation history before
    prompting: like/dislike mining, workout-mention counting and progress
    clues, three-way sentiment, and exercise and pain scanning. Every test is
    a substring test on lower-cased user-role content. */
module Mining {
  import opened Wrappers
  import opened Text
  import opened Records

  /** The contents of the user-role messages of `history`, in order. */
  function UserContents(history: seq<Message>): (r: seq<string>)
    ensures |r| <= |history|
    ensures forall c :: c in r <==>
      exists i :: 0 <= i < |history| && history[i].role == "user" && history[i].content == c
    decreases |history|
  {
    if |history| == 0 then []
    else
      var rest := UserContents(history[1..]);
      assert forall i :: 0 < i < |history| ==> history[i] == history[1..][i - 1];
      var head := if history[0].role == "user" then [history[0].content] else [];
      head + rest
  }

  /** Two histories whose messages agree position by position on which are
      user-role and on the content of those yield the same user contents:
      non-user messages contribute nothing. */
  lemma {:induction false} UserContentsAgree(a: seq<Message>, b: seq<Message>)
    requires |a| == |b|
    requires forall k :: 0 <= k < |a| ==> (a[k].role == "user" <==> b[k].role == "user")
    requires forall k :: 0 <= k < |a| && a[k].role == "user" ==> a[k].content == b[k].content
    ensures UserContents(a) == UserContents(b)
    decreases |a|
  {
    if |a| > 0 {
      UserContentsAgree(a[1..], b[1..]);
    }
  }

  /** The user contents of a history are those of its parts, in order, each
      user message contributing its content once per occurrence. */
  lemma {:induction false} UserContentsAppend(a: seq<Message>, b: seq<Message>)
    ensures UserContents(a + b) == UserContents(a) + UserContents(b)
    decreases |a|
  {
    if |a| > 0 {
      assert (a + b)[0] == a[0];
      assert (a + b)[1..] == a[1..] + b;
      UserContentsAppend(a[1..], b);
    } else {
      assert a + b == b;
    }
  }

  /** One message contributes its content exactly when it is a user message. */
  lemma UserContentsOne(m: Message)
    ensures UserContents([m]) == if m.role == "user" then [m.content] else []
  {
    assert [m][1..] == [];
  }

  /** Entries older than the last `n` never reach a window of `n`. */
  lemma WindowIgnoresOlder<T>(older: seq<T>, history: seq<T>, n: int)
    requires 0 < n <= |history|
    ensures Last(older + history, n) == Last(history, n)
  {
    var all := older + history;
    assert all[|all| - n..] == history[|history| - n..];
  }

  /** Replacing a non-user entry of the window by another non-user entry
      changes nothing the window's user contents show. */
  lemma NonUserEntryIgnored(history: seq<Message>, i: int, m: Message, n: int)
    requires 0 <= i < |history| && history[i].role != "user" && m.role != "user"
    ensures UserContents(Last(history[i := m], n)) == UserContents(Last(history, n))
  {
    var a := Last(history[i := m], n);
    var b := Last(history, n);
    assert |a| == |b|;
    var off := |history| - |b|;
    forall k | 0 <= k < |a|
      ensures (a[k].role == "user" <==> b[k].role == "user")
      ensures a[k].role == "user" ==> a[k].content == b[k].content
    {
      assert a[k] == history[i := m][off + k];
      assert b[k] == history[off + k];
    }
    UserContentsAgree(a, b);
  }

  // ---------------------------------------------------------------------
  // Rule tables

  /** Keyword rule: `tag` is produced when any of `keywords` occurs. */
  datatype Rule = Rule(keywords: seq<string>, tag: string)

  predicate Fires(rule: Rule, text: string) {
    ContainsAny(text, rule.keywords)
  }

  /** The tags of the rules that fire on `text`, in table order. */
  function ApplyRules(rules: seq<Rule>, text: string): (r: seq<string>)
    ensures |r| <= |rules|
    ensures forall t :: t in r <==>
      exists i :: 0 <= i < |rules| && rules[i].tag == t && Fires(rules[i], text)
    decreases |rules|
  {
    if |rules| == 0 then []
    else
      var rest := ApplyRules(rules[1..], text);
      assert forall i :: 0 < i < |rules| ==> rules[i] == rules[1..][i - 1];
      var head := if Fires(rules[0], text) then [rules[0].tag] else [];
      head + rest
  }

  /** A tag comes from the first rule of a table, when it fires, or from the
      rest of the table. */
  lemma ApplyRulesHead(rules: seq<Rule>, text: string, t: string)
    requires |rules| > 0
    ensures t in ApplyRules(rules, text) <==>
      (rules[0].tag == t && Fires(rules[0], text)) || t in ApplyRules(rules[1..], text)
  {
  }

  /** The tags `tagsOf` yields for each lower-cased text, message after
      message: a tag is collected exactly when some message yields it. */
  function Collect(tagsOf: string -> seq<string>, contents: seq<string>): (r: seq<string>)
    ensures forall t :: t in r <==>
      exists i :: 0 <= i < |contents| && t in tagsOf(Lower(contents[i]))
    decreases |contents|
  {
    if |contents| == 0 then []
    else
      var rest := Collect(tagsOf, contents[1..]);
      assert forall i :: 0 < i < |contents| ==> contents[i] == contents[1..][i - 1];
      tagsOf(Lower(contents[0])) + rest
  }

  /** The tags of one message are its lowered content's tags. */
  lemma CollectOne(tagsOf: string -> seq<string>, c: string)
    ensures Collect(tagsOf, [c]) == tagsOf(Lower(c))
  {
    assert [c][1..] == [];
    assert tagsOf(Lower(c)) + [] == tagsOf(Lower(c));
  }

  /** Collecting over two lists in sequence gives the tags of the first
      followed by those of the second, message by message, repeats kept. */
  lemma {:induction false} CollectAppend(tagsOf: string -> seq<string>, a: seq<string>, b: seq<string>)
    ensures Collect(tagsOf, a + b) == Collect(tagsOf, a) + Collect(tagsOf, b)
    decreases |a|
  {
    if |a| > 0 {
      assert (a + b)[0] == a[0];
      assert (a + b)[1..] == a[1..] + b;
      CollectAppend(tagsOf, a[1..], b);
    } else {
      assert a + b == b;
    }
  }

  /** `s` is `sep` joining a list that holds exactly the distinct elements of
      `tags`, each once. */
  ghost predicate JoinsDistinct(s: string, tags: seq<string>, sep: string) {
    exists d :: s == Join(d, sep) && (forall x :: x in d <==> x in tags) &&
      (forall i, j :: 0 <= i < j < |d| ==> d[i] != d[j])
  }

  /** The tags, each once, joined by `sep`; the placeholder `empty` when there
      are none. */
  function RenderTags(tags: seq<string>, sep: string, empty: string): string {
    if |tags| == 0 then empty else Join(Dedup(tags), sep)
  }

  /** No tags render as the placeholder; otherwise the rendering joins the
      distinct tags, each once and nothing else, so every tag shows up. */
  lemma RenderTagsSpec(tags: seq<string>, sep: string, empty: string)
    ensures |tags| == 0 ==> RenderTags(tags, sep, empty) == empty
    ensures |tags| > 0 ==> JoinsDistinct(RenderTags(tags, sep, empty), tags, sep)
    ensures forall i :: 0 <= i < |tags| ==> Contains(RenderTags(tags, sep, empty), tags[i])
  {
    if |tags| > 0 {
      var d := Dedup(tags);
      assert forall x :: x in d <==> x in tags by {
        forall x ensures x in d <==> x in tags {
          if x in d {
            var k :| 0 <= k < |d| && d[k] == x;
          }
          if x in tags {
            var k :| 0 <= k < |tags| && tags[k] == x;
          }
        }
      }
      assert RenderTags(tags, sep, empty) == Join(d, sep);
      forall i | 0 <= i < |tags|
        ensures Contains(RenderTags(tags, sep, empty), tags[i])
      {
        var k :| 0 <= k < |d| && d[k] == tags[i];
        JoinContainsEach(d, sep, k);
      }
    }
  }

  // ---------------------------------------------------------------------
  // Likes and dislikes (create_workout_plan)

  const Negations := ["don't want", "don't like"]
  const LikeCues := ["like", "prefer", "want to"]
  const DislikeRules := [
    Rule(["lift", "weight"], "weightlifting"),
    Rule(["run"], "running"),
    Rule(["cardio"], "cardio"),
    Rule(["gym"], "gym workouts")]
  const LikeRules := [
    Rule(["run", "running"], "running"),
    Rule(["lift", "weight"], "weightlifting"),
    Rule(["cardio"], "cardio"),
    Rule(["yoga"], "yoga"),
    Rule(["swim"], "swimming")]
  const NoneDetected := "none detected"

  datatype Preferences = Preferences(likes: seq<string>, dislikes: seq<string>)

  predicate Negated(text: string) {
    ContainsAny(text, Negations)
  }

  /** The like tags one lower-cased user message contributes: none when it
      holds a negation phrase, the like rules' tags when it holds a like cue. */
  function LikesOf(text: string): seq<string> {
    if Negated(text) then []
    else if ContainsAny(text, LikeCues) then ApplyRules(LikeRules, text)
    else []
  }

  /** The dislike tags one lower-cased user message contributes: the dislike
      rules' tags when it holds a negation phrase, none otherwise. */
  function DislikesOf(text: string): seq<string> {
    if Negated(text) then ApplyRules(DislikeRules, text) else []
  }

  /** Negation shadows preference: a message holding "don't want" or
      "don't like" contributes no like tag, and each activity keyword it holds
      contributes the matching dislike tag, and only those. */
  lemma NegatedMessageTags(text: string)
    requires Negated(text)
    ensures LikesOf(text) == []
    ensures forall t :: t in DislikesOf(text) <==>
      || (t == "weightlifting" && (Contains(text, "lift") || Contains(text, "weight")))
      || (t == "running" && Contains(text, "run"))
      || (t == "cardio" && Contains(text, "cardio"))
      || (t == "gym workouts" && Contains(text, "gym"))
  {
    ContainsAnyTwo(text, "lift", "weight");
    ContainsAnyOne(text, "run");
    ContainsAnyOne(text, "cardio");
    ContainsAnyOne(text, "gym");
    assert forall t :: t in DislikesOf(text) <==>
      exists i :: 0 <= i < 4 && DislikeRules[i].tag == t && Fires(DislikeRules[i], text);
  }

  /** The like rules' tags on a text: the tag of each activity keyword it
      holds, and only those. */
  lemma LikeRulesTags(text: string, t: string)
    ensures t in ApplyRules(LikeRules, text) <==> (
      || (t == "running" && (Contains(text, "run") || Contains(text, "running")))
      || (t == "weightlifting" && (Contains(text, "lift") || Contains(text, "weight")))
      || (t == "cardio" && Contains(text, "cardio"))
      || (t == "yoga" && Contains(text, "yoga"))
      || (t == "swimming" && Contains(text, "swim")))
  {
    ContainsAnyTwo(text, "run", "running");
    ContainsAnyTwo(text, "lift", "weight");
    ContainsAnyOne(text, "cardio");
    ContainsAnyOne(text, "yoga");
    ContainsAnyOne(text, "swim");
    var r1 := LikeRules[1..];
    var r2 := r1[1..];
    var r3 := r2[1..];
    var r4 := r3[1..];
    assert r1[0] == LikeRules[1] && r2[0] == LikeRules[2] && r3[0] == LikeRules[3] && r4[0] == LikeRules[4];
    assert r4[1..] == [];
    ApplyRulesHead(LikeRules, text, t);
    ApplyRulesHead(r1, text, t);
    ApplyRulesHead(r2, text, t);
    ApplyRulesHead(r3, text, t);
    ApplyRulesHead(r4, text, t);
  }

  /** A message without a negation phrase contributes no dislike; with a like
      cue it contributes the like tag of each activity keyword it holds, and
      only those; without one it contributes nothing. */
  lemma PlainMessageTags(text: string)
    requires !Negated(text)
    ensures DislikesOf(text) == []
    ensures forall t :: t in LikesOf(text) <==> (ContainsAny(text, LikeCues) && (
      || (t == "running" && (Contains(text, "run") || Contains(text, "running")))
      || (t == "weightlifting" && (Contains(text, "lift") || Contains(text, "weight")))
      || (t == "cardio" && Contains(text, "cardio"))
      || (t == "yoga" && Contains(text, "yoga"))
      || (t == "swimming" && Contains(text, "swim"))))
  {
    forall t | true
      ensures t in LikesOf(text) <==> (ContainsAny(text, LikeCues) && (
        || (t == "running" && (Contains(text, "run") || Contains(text, "running")))
        || (t == "weightlifting" && (Contains(text, "lift") || Contains(text, "weight")))
        || (t == "cardio" && Contains(text, "cardio"))
        || (t == "yoga" && Contains(text, "yoga"))
        || (t == "swimming" && Contains(text, "swim"))))
    {
      LikeRulesTags(text, t);
    }
  }

  /** The mining step of `create_workout_plan`: the last 10 history entries,
      then only their user-role messages. */
  function MinePreferences(history: seq<Message>): Preferences {
    var contents := UserContents(Last(history, 10));
    Preferences(Collect(LikesOf, contents), Collect(DislikesOf, contents))
  }

  /** A tag collected from the user contents of a window is one some user-role
      message of the window yields, and conversely. */
  lemma CollectWindow(tagsOf: string -> seq<string>, w: seq<Message>, t: string)
    ensures t in Collect(tagsOf, UserContents(w)) <==>
      exists i :: 0 <= i < |w| && w[i].role == "user" && t in tagsOf(Lower(w[i].content))
  {
    var cs := UserContents(w);
    if t in Collect(tagsOf, cs) {
      var k :| 0 <= k < |cs| && t in tagsOf(Lower(cs[k]));
      assert cs[k] in cs;
    }
    if i :| 0 <= i < |w| && w[i].role == "user" && t in tagsOf(Lower(w[i].content)) {
      assert w[i].content in cs;
      var k :| 0 <= k < |cs| && cs[k] == w[i].content;
    }
  }

  /** A tag is liked (disliked) exactly when some user-role message among the
      last 10 entries contributes it; assistant messages and older entries
      play no part. */
  lemma MinePreferencesSpec(history: seq<Message>, t: string)
    ensures var w := Last(history, 10);
      && (t in MinePreferences(history).likes <==>
            exists i :: 0 <= i < |w| && w[i].role == "user" && t in LikesOf(Lower(w[i].content)))
      && (t in MinePreferences(history).dislikes <==>
            exists i :: 0 <= i < |w| && w[i].role == "user" && t in DislikesOf(Lower(w[i].content)))
  {
    CollectWindow(LikesOf, Last(history, 10), t);
    CollectWindow(DislikesOf, Last(history, 10), t);
  }

  /** Entries older than the last 10 leave the mined preferences unchanged. */
  lemma MinePreferencesOlder(older: seq<Message>, history: seq<Message>)
    requires |history| >= 10
    ensures MinePreferences(older + history) == MinePreferences(history)
  {
    WindowIgnoresOlder(older, history, 10);
  }

  /** Replacing one non-user entry by another leaves the mined preferences
      unchanged. */
  lemma MinePreferencesNonUser(history: seq<Message>, i: int, m: Message)
    requires 0 <= i < |history| && history[i].role != "user" && m.role != "user"
    ensures MinePreferences(history[i := m]) == MinePreferences(history)
  {
    NonUserEntryIgnored(history, i, m, 10);
  }

  // ---------------------------------------------------------------------
  // Workout mentions and progress clues (analyze_progress)

  const WorkoutWords := ["workout", "exercise", "ran", "lifted", "trained"]
  const FatigueClue := "User mentioned physical fatigue (good sign of activity)"
  const ImprovementClue := "User noted improvement"
  const ClueRules := [Rule(["tired", "sore"], FatigueClue), Rule(["easier", "better"], ImprovementClue)]

  function CluesOf(text: string): seq<string> {
    ApplyRules(ClueRules, text)
  }

  predicate MentionsWorkout(content: string) {
    ContainsAny(Lower(content), WorkoutWords)
  }

  /** The number of contents that mention a workout word: each message counts
      at most once. */
  function WorkoutMentions(contents: seq<string>): (r: nat)
    ensures r <= |contents|
    ensures r == 0 <==> forall i :: 0 <= i < |contents| ==> !MentionsWorkout(contents[i])
    ensures r == |contents| <==> forall i :: 0 <= i < |contents| ==> MentionsWorkout(contents[i])
    decreases |contents|
  {
    if |contents| == 0 then 0
    else
      var rest := WorkoutMentions(contents[1..]);
      assert forall i :: 0 < i < |contents| ==> contents[i] == contents[1..][i - 1];
      var head := if MentionsWorkout(contents[0]) then 1 else 0;
      head + rest
  }

  /** The count of a list is the sum of the counts of its parts. */
  lemma {:induction false} WorkoutMentionsAppend(a: seq<string>, b: seq<string>)
    ensures WorkoutMentions(a + b) == WorkoutMentions(a) + WorkoutMentions(b)
    decreases |a|
  {
    if |a| > 0 {
      assert (a + b)[0] == a[0];
      assert (a + b)[1..] == a[1..] + b;
      WorkoutMentionsAppend(a[1..], b);
    } else {
      assert a + b == b;
    }
  }

  /** One message counts 1 exactly when it mentions a workout word. */
  lemma WorkoutMentionsOne(c: string)
    ensures WorkoutMentions([c]) == if MentionsWorkout(c) then 1 else 0
  {
    assert [c][1..] == [];
  }

  /** The number of user messages of a history that mention a workout word:
      appending a message adds one exactly when it is a user message that
      mentions one. */
  lemma HistoryWorkoutMentions(history: seq<Message>, m: Message)
    ensures WorkoutMentions(UserContents(history + [m])) ==
      WorkoutMentions(UserContents(history)) + (if m.role == "user" && MentionsWorkout(m.content) then 1 else 0)
  {
    UserContentsAppend(history, [m]);
    UserContentsOne(m);
    WorkoutMentionsAppend(UserContents(history), UserContents([m]));
    if m.role == "user" {
      WorkoutMentionsOne(m.content);
    } else {
      assert UserContents(history) + [] == UserContents(history);
    }
  }

  /** The clues of one history, message after message, over the whole
      history. */
  function ProgressClues(history: seq<Message>): seq<string> {
    Collect(CluesOf, UserContents(history))
  }

  /** The first three clues, the ones the summary shows. */
  function ShownClues(clues: seq<string>): (r: seq<string>)
    ensures |r| == Min(3, |clues|) && r <= clues
    ensures |clues| <= 3 ==> r == clues
  {
    Truncate(clues, 3)
  }

  /** The progress summary: the workout count in decimal, then the words
      " workout mentions; ", then the first three clues joined by "; ". */
  function ProgressSummary(history: seq<Message>): string {
    var contents := UserContents(history);
    NatToString(WorkoutMentions(contents)) + " workout mentions; "
      + Join(ShownClues(ProgressClues(history)), "; ")
  }

  /** One message's clues: the fatigue clue when it mentions "tired" or
      "sore", then the improvement clue when it mentions "easier" or
      "better". */
  lemma CluesShape(text: string)
    ensures CluesOf(text) ==
      (if Contains(text, "tired") || Contains(text, "sore") then [FatigueClue] else [])
      + (if Contains(text, "easier") || Contains(text, "better") then [ImprovementClue] else [])
  {
    ContainsAnyTwo(text, "tired", "sore");
    ContainsAnyTwo(text, "easier", "better");
    var rest := ClueRules[1..];
    assert rest[0] == Rule(["easier", "better"], ImprovementClue);
    assert rest[1..] == [];
    assert Fires(ClueRules[0], text) <==> Contains(text, "tired") || Contains(text, "sore");
    assert Fires(rest[0], text) <==> Contains(text, "easier") || Contains(text, "better");
    assert ApplyRules(rest, text) ==
      (if Fires(rest[0], text) then [ImprovementClue] else []) + ApplyRules(rest[1..], text);
    assert ApplyRules(ClueRules, text) ==
      (if Fires(ClueRules[0], text) then [FatigueClue] else []) + ApplyRules(rest, text);
    var b := if Fires(rest[0], text) then [ImprovementClue] else [];
    assert b + [] == b;
  }

  /** The clues grow message by message: appending a message appends its
      clues exactly when it is a user message. */
  lemma ProgressCluesAppend(history: seq<Message>, m: Message)
    ensures ProgressClues(history + [m]) ==
      ProgressClues(history) + (if m.role == "user" then CluesOf(Lower(m.content)) else [])
  {
    UserContentsAppend(history, [m]);
    UserContentsOne(m);
    CollectAppend(CluesOf, UserContents(history), UserContents([m]));
    if m.role == "user" {
      CollectOne(CluesOf, m.content);
    } else {
      assert ProgressClues(history) + [] == ProgressClues(history);
    }
  }

  /** The count is at most the number of user-role messages of the whole
      history, every clue is one of the two fixed clue texts, exactly the
      first three are shown, the count the summary starts with reads back as
      the count, and the rest of the summary joins the shown clues. */
  lemma ProgressSummarySpec(history: seq<Message>)
    ensures WorkoutMentions(UserContents(history)) <= |UserContents(history)| <= |history|
    ensures forall c :: c in ProgressClues(history) ==> c == FatigueClue || c == ImprovementClue
    ensures |ShownClues(ProgressClues(history))| == Min(3, |ProgressClues(history)|)
    ensures var d := NatToString(WorkoutMentions(UserContents(history)));
      && ProgressSummary(history)[..|d|] == d
      && DigitsValue(d) == WorkoutMentions(UserContents(history))
      && ProgressSummary(history)[|d|..] ==
         " workout mentions; " + Join(ShownClues(ProgressClues(history)), "; ")
  {
    var d := NatToString(WorkoutMentions(UserContents(history)));
    NatToStringRoundTrip(WorkoutMentions(UserContents(history)));
    forall c | c in ProgressClues(history)
      ensures c == FatigueClue || c == ImprovementClue
    {
      var i :| 0 <= i < |UserContents(history)| && c in CluesOf(Lower(UserContents(history)[i]));
    }
    assert ProgressSummary(history)[..|d|] == d;
    assert ProgressSummary(history)[|d|..] ==
      " workout mentions; " + Join(ShownClues(ProgressClues(history)), "; ");
  }

  // ---------------------------------------------------------------------
  // Sentiment (give_motivation)

  const Distress := ["tired", "hard", "difficult", "struggle", "cant"]
  const Upbeat := ["good", "great", "better", "progress"]
  const Struggling := "struggling, needs encouragement"
  const Positive := "positive, reinforce success"
  const Neutral := "neutral"

  /** Some content, lower-cased, contains one of `words`. */
  predicate MentionsAny(contents: seq<string>, words: seq<string>) {
    exists i :: 0 <= i < |contents| && ContainsAny(Lower(contents[i]), words)
  }

  /** The emotional context of `give_motivation`: the user-role contents of
      the last 5 entries, joined with spaces and lower-cased; distress words
      are looked for first. */
  function Sentiment(history: seq<Message>): string {
    var text := Lower(Join(UserContents(Last(history, 5)), " "));
    if ContainsAny(text, Distress) then Struggling
    else if ContainsAny(text, Upbeat) then Positive
    else Neutral
  }

  /** For space-free non-empty words, a word occurs in the lower-cased joined
      text exactly when it occurs in one lower-cased message. */
  lemma JoinedMentions(contents: seq<string>, words: seq<string>)
    requires forall k :: 0 <= k < |words| ==> |words[k]| > 0 && ' ' !in words[k]
    ensures ContainsAny(Lower(Join(contents, " ")), words) <==> MentionsAny(contents, words)
  {
    var lowered := seq(|contents|, i requires 0 <= i < |contents| => Lower(contents[i]));
    LowerJoinSpace(contents);
    var text := Join(lowered, " ");
    if ContainsAny(text, words) {
      var k :| 0 <= k < |words| && Contains(text, words[k]);
      ContainsJoinSpace(lowered, words[k]);
      var i :| 0 <= i < |lowered| && Contains(lowered[i], words[k]);
      assert ContainsAny(Lower(contents[i]), words);
    }
    if MentionsAny(contents, words) {
      var i :| 0 <= i < |contents| && ContainsAny(Lower(contents[i]), words);
      var k :| 0 <= k < |words| && Contains(Lower(contents[i]), words[k]);
      ContainsJoinSpace(lowered, words[k]);
      assert Contains(lowered[i], words[k]);
    }
  }

  /** Distress wins: the sentiment is "struggling" exactly when a distress
      word occurs in a recent user message, "positive" exactly when none does
      and a success word does, and "neutral" otherwise (so for an empty
      history). */
  lemma SentimentSpec(history: seq<Message>)
    ensures var recent := UserContents(Last(history, 5));
      && (Sentiment(history) == Struggling <==> MentionsAny(recent, Distress))
      && (Sentiment(history) == Positive <==> !MentionsAny(recent, Distress) && MentionsAny(recent, Upbeat))
      && (Sentiment(history) == Neutral <==> !MentionsAny(recent, Distress) && !MentionsAny(recent, Upbeat))
  {
    var recent := UserContents(Last(history, 5));
    JoinedMentions(recent, Distress);
    JoinedMentions(recent, Upbeat);
  }

  // ---------------------------------------------------------------------
  // Exercises and pain (injury_prevention)

  const ExerciseWords := ["squat", "deadlift", "bench", "run", "lunge", "press", "curl", "row"]
  const PainWords := ["pain", "hurt", "sore", "injury", "strain", "ache"]
  const NoExercises := "none mentioned yet"
  const NoPain := "none reported"

  function PainTag(word: string): string {
    "mentioned '" + word + "'"
  }

  /** One rule per word: the word itself is the keyword, `tagOf` names the tag. */
  function WordRules(words: seq<string>, tagOf: string -> string): (r: seq<Rule>)
    ensures |r| == |words|
    ensures forall k :: 0 <= k < |words| ==> r[k] == Rule([words[k]], tagOf(words[k]))
  {
    seq(|words|, k requires 0 <= k < |words| => Rule([words[k]], tagOf(words[k])))
  }

  /** A text yields the tag of each listed word it holds, and nothing else. */
  lemma WordRulesTags(words: seq<string>, tagOf: string -> string, text: string, t: string)
    ensures t in ApplyRules(WordRules(words, tagOf), text) <==>
      exists w :: w in words && t == tagOf(w) && Contains(text, w)
  {
    var rules := WordRules(words, tagOf);
    if t in ApplyRules(rules, text) {
      var k :| 0 <= k < |rules| && rules[k].tag == t && Fires(rules[k], text);
      ContainsAnyOne(text, words[k]);
      assert words[k] in words;
    }
    if w :| w in words && t == tagOf(w) && Contains(text, w) {
      var k :| 0 <= k < |words| && words[k] == w;
      ContainsAnyOne(text, w);
      assert Fires(rules[k], text);
    }
  }

  function SameTag(word: string): string {
    word
  }

  datatype InjuryContext = InjuryContext(exercises: seq<string>, pains: seq<string>)

  function ExercisesOf(text: string): seq<string> {
    ApplyRules(WordRules(ExerciseWords, SameTag), text)
  }

  function PainsOf(text: string): seq<string> {
    ApplyRules(WordRules(PainWords, PainTag), text)
  }

  /** The scanning step of `injury_prevention`: the last 10 entries, then only
      their user-role messages. */
  function MineInjury(history: seq<Message>): InjuryContext {
    var contents := UserContents(Last(history, 10));
    InjuryContext(Collect(ExercisesOf, contents), Collect(PainsOf, contents))
  }

  /** An exercise is listed exactly when it is one of the fixed exercises and
      occurs in a user-role message among the last 10 entries; a pain
      indicator is listed exactly when it names a fixed pain word occurring in
      one. */
  lemma MineInjurySpec(history: seq<Message>, t: string)
    ensures var w := Last(history, 10);
      && (t in MineInjury(history).exercises <==>
            t in ExerciseWords && exists i :: 0 <= i < |w| && w[i].role == "user" && Contains(Lower(w[i].content), t))
      && (t in MineInjury(history).pains <==>
            exists i, p :: 0 <= i < |w| && w[i].role == "user" && p in PainWords && t == PainTag(p)
              && Contains(Lower(w[i].content), p))
  {
    var w := Last(history, 10);
    CollectWindow(ExercisesOf, w, t);
    CollectWindow(PainsOf, w, t);
    forall i | 0 <= i < |w|
      ensures t in ExercisesOf(Lower(w[i].content)) <==> t in ExerciseWords && Contains(Lower(w[i].content), t)
      ensures t in PainsOf(Lower(w[i].content)) <==>
        exists p :: p in PainWords && t == PainTag(p) && Contains(Lower(w[i].content), p)
    {
      WordRulesTags(ExerciseWords, SameTag, Lower(w[i].content), t);
      WordRulesTags(PainWords, PainTag, Lower(w[i].content), t);
    }
  }

  /** Entries older than the last 10 leave the exercise and pain lists
      unchanged. */
  lemma MineInjuryOlder(older: seq<Message>, history: seq<Message>)
    requires |history| >= 10
    ensures MineInjury(older + history) == MineInjury(history)
  {
    WindowIgnoresOlder(older, history, 10);
  }

  /** Replacing one non-user entry by another leaves the exercise and pain
      lists unchanged. */
  lemma MineInjuryNonUser(history: seq<Message>, i: int, m: Message)
    requires 0 <= i < |history| && history[i].role != "user" && m.role != "user"
    ensures MineInjury(history[i := m]) == MineInjury(history)
  {
    NonUserEntryIgnored(history, i, m, 10);
  }
}
