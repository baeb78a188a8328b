/** The account and conversation store behind the chat page: users, one
    profile row per user, and the saved messages, with the operations the
    page performs on them. Tables are sequences of rows in insertion order. */
module Store {
  import opened Wrappers
  import opened Records

  datatype User = User(id: nat, username: string, password: string)

  /** The profile columns; every one may be unset (`VNone`). */
  datatype Profile = Profile(
    age: Value,
    weight: Value,
    height: Value,
    fitnessGoal: Value,
    activityLevel: Value,
    dietaryRestrictions: Value,
    preferences: Value)

  const EmptyProfile := Profile(VNone, VNone, VNone, VNone, VNone, VNone, VNone)

  datatype ProfileRow = ProfileRow(userId: nat, profile: Profile)

  datatype ConversationRow = ConversationRow(userId: nat, role: string, content: string, timestamp: int)

  /** The three tables and the id the next user row will receive. */
  datatype Db = Db(users: seq<User>, profiles: seq<ProfileRow>, conversations: seq<ConversationRow>, nextId: nat)

  const EmptyDb := Db([], [], [], 1)

  /** Usernames are unique, ids are unique, and ids and the ids profile rows
      refer to are below `nextId`. */
  ghost predicate Valid(db: Db) {
    && (forall i, j :: 0 <= i < j < |db.users| ==> db.users[i].username != db.users[j].username)
    && (forall i, j :: 0 <= i < j < |db.users| ==> db.users[i].id != db.users[j].id)
    && (forall i :: 0 <= i < |db.users| ==> db.users[i].id < db.nextId)
    && (forall i :: 0 <= i < |db.profiles| ==> db.profiles[i].userId < db.nextId)
  }

  // ---------------------------------------------------------------------
  // Lookups: the first row matching a column value

  function UserByName(users: seq<User>, username: string): (r: Option<User>)
    ensures r.None? <==> forall i :: 0 <= i < |users| ==> users[i].username != username
    ensures r.Some? ==> r.value in users && r.value.username == username
    decreases |users|
  {
    if |users| == 0 then None
    else if users[0].username == username then Some(users[0])
    else
      assert forall i :: 0 < i < |users| ==> users[i] == users[1..][i - 1];
      UserByName(users[1..], username)
  }

  function UserById(users: seq<User>, id: nat): (r: Option<User>)
    ensures r.None? <==> forall i :: 0 <= i < |users| ==> users[i].id != id
    ensures r.Some? ==> r.value in users && r.value.id == id
    decreases |users|
  {
    if |users| == 0 then None
    else if users[0].id == id then Some(users[0])
    else
      assert forall i :: 0 < i < |users| ==> users[i] == users[1..][i - 1];
      UserById(users[1..], id)
  }

  /** The position of the first profile row of a user, or -1. */
  function ProfileIndex(rows: seq<ProfileRow>, userId: nat): (r: int)
    ensures -1 <= r < |rows|
    ensures r == -1 <==> forall i :: 0 <= i < |rows| ==> rows[i].userId != userId
    ensures r >= 0 ==> rows[r].userId == userId && forall i :: 0 <= i < r ==> rows[i].userId != userId
    decreases |rows|
  {
    if |rows| == 0 then -1
    else if rows[0].userId == userId then 0
    else
      var k := ProfileIndex(rows[1..], userId);
      assert forall i :: 0 < i < |rows| ==> rows[i] == rows[1..][i - 1];
      if k == -1 then -1 else k + 1
  }

  function ProfileOf(db: Db, userId: nat): (r: Option<Profile>)
    ensures r.None? <==> ProfileIndex(db.profiles, userId) == -1
    ensures r.Some? ==> r.value == db.profiles[ProfileIndex(db.profiles, userId)].profile
  {
    var k := ProfileIndex(db.profiles, userId);
    if k == -1 then None else Some(db.profiles[k].profile)
  }

  // ---------------------------------------------------------------------
  // Accounts

  datatype Registration = Registration(ok: bool, message: string, db: Db)

  const UsernameTaken := "Username already exists"
  const AccountCreated := "Account created successfully!"

  /** `register_user`: a taken username changes nothing; otherwise the user
      row and an empty profile row for it are added. */
  function Register(db: Db, username: string, password: string): (r: Registration)
    ensures r.ok <==> UserByName(db.users, username).None?
    ensures !r.ok ==> r.db == db && r.message == UsernameTaken
    ensures r.ok ==> r.message == AccountCreated
    ensures r.ok ==> && r.db.users == db.users + [User(db.nextId, username, password)]
                     && r.db.profiles == db.profiles + [ProfileRow(db.nextId, EmptyProfile)]
                     && r.db.conversations == db.conversations
                     && r.db.nextId == db.nextId + 1
  {
    if UserByName(db.users, username).Some? then Registration(false, UsernameTaken, db)
    else
      var id := db.nextId;
      Registration(true, AccountCreated,
        Db(db.users + [User(id, username, password)], db.profiles + [ProfileRow(id, EmptyProfile)],
           db.conversations, id + 1))
  }

  /** Registration keeps usernames and ids unique. */
  lemma RegisterPreservesValid(db: Db, username: string, password: string)
    requires Valid(db)
    ensures Valid(Register(db, username, password).db)
  {
  }

  datatype LoginOutcome = LoginOutcome(user: Option<User>, message: string)

  const BadCredentials := "Invalid credentials"
  const LoggedIn := "Login successful"

  /** `login_user`: the user row when the name exists and the password
      matches it exactly. */
  function Login(db: Db, username: string, password: string): (r: LoginOutcome)
    ensures r.user.Some? <==> UserByName(db.users, username).Some? && UserByName(db.users, username).value.password == password
    ensures r.user.Some? ==> r.user.value.username == username && r.user.value.password == password && r.message == LoggedIn
    ensures r.user.None? ==> r.message == BadCredentials
  {
    match UserByName(db.users, username)
    case None => LoginOutcome(None, BadCredentials)
    case Some(u) =>
      if u.password != password then LoginOutcome(None, BadCredentials)
      else LoginOutcome(Some(u), LoggedIn)
  }

  /** In a valid store, only the password the user registered with logs in. */
  lemma LoginOnlyWithPassword(db: Db, username: string, password: string)
    requires Valid(db)
    ensures Login(db, username, password).user.Some? <==>
      exists i :: 0 <= i < |db.users| && db.users[i].username == username && db.users[i].password == password
  {
    if exists i :: 0 <= i < |db.users| && db.users[i].username == username && db.users[i].password == password {
      var i :| 0 <= i < |db.users| && db.users[i].username == username && db.users[i].password == password;
      var u := UserByName(db.users, username).value;
      var j :| 0 <= j < |db.users| && db.users[j] == u;
      assert i == j;
    }
  }

  /** A new account can log in at once with its password, and with no other. */
  lemma RegisterThenLogin(db: Db, username: string, password: string, attempt: string)
    requires Valid(db) && Register(db, username, password).ok
    ensures var db' := Register(db, username, password).db;
      && Login(db', username, password) == LoginOutcome(Some(User(db.nextId, username, password)), LoggedIn)
      && (attempt != password ==> Login(db', username, attempt) == LoginOutcome(None, BadCredentials))
  {
    var db' := Register(db, username, password).db;
    var u := User(db.nextId, username, password);
    UserByNameAppend(db.users, u);
  }

  /** Looking a name up after appending a user with a fresh name finds it. */
  lemma {:induction false} UserByNameAppend(users: seq<User>, u: User)
    requires UserByName(users, u.username).None?
    ensures UserByName(users + [u], u.username) == Some(u)
    decreases |users|
  {
    if |users| == 0 {
      assert users + [u] == [u];
    } else {
      assert (users + [u])[0] == users[0];
      assert (users + [u])[1..] == users[1..] + [u];
      UserByNameAppend(users[1..], u);
    }
  }

  /** Registering the same name twice: the second attempt is refused and
      leaves the store as the first one made it. */
  lemma RegisterTwice(db: Db, username: string, p1: string, p2: string)
    requires Register(db, username, p1).ok
    ensures var db1 := Register(db, username, p1).db;
      Register(db1, username, p2) == Registration(false, UsernameTaken, db1)
  {
    UserByNameAppend(db.users, User(db.nextId, username, p1));
  }

  // ---------------------------------------------------------------------
  // Conversations

  /** `save_message`: one row appended, stamped with the clock reading `now`. */
  function SaveMessage(db: Db, userId: nat, role: string, content: string, now: int): (r: Db)
    ensures r.conversations == db.conversations + [ConversationRow(userId, role, content, now)]
    ensures r.users == db.users && r.profiles == db.profiles && r.nextId == db.nextId
  {
    db.(conversations := db.conversations + [ConversationRow(userId, role, content, now)])
  }

  /** The user's rows, in insertion order, as messages. */
  function RowsOf(rows: seq<ConversationRow>, userId: nat): (r: seq<Message>)
    ensures |r| <= |rows|
    ensures forall m :: m in r <==>
      exists i :: 0 <= i < |rows| && rows[i].userId == userId && m == Message(rows[i].role, rows[i].content, rows[i].timestamp)
    decreases |rows|
  {
    if |rows| == 0 then []
    else
      var rest := RowsOf(rows[1..], userId);
      assert forall i :: 0 < i < |rows| ==> rows[i] == rows[1..][i - 1];
      if rows[0].userId == userId then [Message(rows[0].role, rows[0].content, rows[0].timestamp)] + rest
      else rest
  }

  lemma {:induction false} RowsOfAppend(rows: seq<ConversationRow>, row: ConversationRow, userId: nat)
    ensures RowsOf(rows + [row], userId) ==
      RowsOf(rows, userId) + (if row.userId == userId then [Message(row.role, row.content, row.timestamp)] else [])
    decreases |rows|
  {
    if |rows| == 0 {
      assert rows + [row] == [row];
      assert [row][1..] == [];
    } else {
      assert (rows + [row])[0] == rows[0];
      assert (rows + [row])[1..] == rows[1..] + [row];
      RowsOfAppend(rows[1..], row, userId);
    }
  }

  predicate Chronological(ms: seq<Message>) {
    forall i, j :: 0 <= i < j < |ms| ==> ms[i].timestamp <= ms[j].timestamp
  }

  /** Inserting before the first message that is not older keeps messages
      with the same timestamp in their original order. */
  function Insert(m: Message, ms: seq<Message>): (r: seq<Message>)
    ensures multiset(r) == multiset(ms) + multiset{m}
    ensures |r| == |ms| + 1
    decreases |ms|
  {
    if |ms| == 0 || m.timestamp <= ms[0].timestamp then [m] + ms
    else
      assert ms == [ms[0]] + ms[1..];
      [ms[0]] + Insert(m, ms[1..])
  }

  /** Insertion into a chronological history keeps it chronological. */
  lemma {:induction false} InsertChronological(m: Message, ms: seq<Message>)
    requires Chronological(ms)
    ensures Chronological(Insert(m, ms))
    decreases |ms|
  {
    if |ms| == 0 || m.timestamp <= ms[0].timestamp {
      ConsChronological(m, ms);
    } else {
      var tail := ms[1..];
      assert Chronological(tail) by {
        forall i, j | 0 <= i < j < |tail| ensures tail[i].timestamp <= tail[j].timestamp {
          assert tail[i] == ms[i + 1] && tail[j] == ms[j + 1];
        }
      }
      InsertChronological(m, tail);
      var rest := Insert(m, tail);
      var pool := tail + [m];
      assert multiset(pool) == multiset(tail) + multiset{m};
      assert forall k :: 0 <= k < |pool| ==> ms[0].timestamp <= pool[k].timestamp by {
        forall k | 0 <= k < |pool| ensures ms[0].timestamp <= pool[k].timestamp {
          if k < |tail| {
            assert pool[k] == ms[k + 1];
          }
        }
      }
      BoundedByMultiset(rest, pool, ms[0].timestamp);
      ConsChronological(ms[0], rest);
    }
  }

  /** A message no later than every message of a chronological history can
      lead it. */
  lemma ConsChronological(m: Message, ms: seq<Message>)
    requires Chronological(ms)
    requires forall k :: 0 <= k < |ms| ==> m.timestamp <= ms[k].timestamp
    ensures Chronological([m] + ms)
  {
    var r := [m] + ms;
    forall i, j | 0 <= i < j < |r| ensures r[i].timestamp <= r[j].timestamp {
      assert r[j] == ms[j - 1];
      if i > 0 {
        assert r[i] == ms[i - 1];
      }
    }
  }

  /** A lower bound on the timestamps of a history holds for any
      rearrangement of it. */
  lemma BoundedByMultiset(xs: seq<Message>, ys: seq<Message>, b: int)
    requires multiset(xs) == multiset(ys)
    requires forall k :: 0 <= k < |ys| ==> b <= ys[k].timestamp
    ensures forall k :: 0 <= k < |xs| ==> b <= xs[k].timestamp
  {
    forall k | 0 <= k < |xs| ensures b <= xs[k].timestamp {
      assert xs[k] in multiset(ys);
      var j :| 0 <= j < |ys| && ys[j] == xs[k];
    }
  }

  /** A stable sort by timestamp. */
  function SortByTime(ms: seq<Message>): (r: seq<Message>)
    ensures Chronological(r)
    ensures multiset(r) == multiset(ms)
    ensures |r| == |ms|
    decreases |ms|
  {
    if |ms| == 0 then []
    else
      assert ms == [ms[0]] + ms[1..];
      var rest := SortByTime(ms[1..]);
      InsertChronological(ms[0], rest);
      Insert(ms[0], rest)
  }

  /** Sorting a chronological history leaves it as it is. */
  lemma {:induction false} SortChronological(ms: seq<Message>)
    requires Chronological(ms)
    ensures SortByTime(ms) == ms
    decreases |ms|
  {
    if |ms| > 0 {
      var tail := ms[1..];
      assert Chronological(tail) by {
        forall i, j | 0 <= i < j < |tail| ensures tail[i].timestamp <= tail[j].timestamp {
          assert tail[i] == ms[i + 1] && tail[j] == ms[j + 1];
        }
      }
      SortChronological(tail);
      assert |tail| == 0 || ms[0].timestamp <= tail[0].timestamp;
      assert SortByTime(ms) == Insert(ms[0], tail);
      assert [ms[0]] + tail == ms;
    }
  }

  /** `load_conversation_history`: the user's messages ordered by timestamp. */
  function LoadHistory(db: Db, userId: nat): (r: seq<Message>)
    ensures Chronological(r)
    ensures multiset(r) == multiset(RowsOf(db.conversations, userId))
  {
    SortByTime(RowsOf(db.conversations, userId))
  }

  /** When messages are saved in clock order, loading the history after a
      save yields the earlier history followed by the new message. */
  lemma SaveThenLoad(db: Db, userId: nat, role: string, content: string, now: int)
    requires Chronological(RowsOf(db.conversations, userId))
    requires forall i :: 0 <= i < |db.conversations| ==> db.conversations[i].timestamp <= now
    ensures LoadHistory(SaveMessage(db, userId, role, content, now), userId) ==
      LoadHistory(db, userId) + [Message(role, content, now)]
  {
    var rows := RowsOf(db.conversations, userId);
    var m := Message(role, content, now);
    RowsOfAppend(db.conversations, ConversationRow(userId, role, content, now), userId);
    forall k | 0 <= k < |rows| ensures rows[k].timestamp <= now {
      assert rows[k] in rows;
    }
    assert Chronological(rows + [m]);
    SortChronological(rows);
    SortChronological(rows + [m]);
  }

  /** Other users' messages never enter a user's history. */
  lemma SaveForOtherUser(db: Db, userId: nat, other: nat, role: string, content: string, now: int)
    requires other != userId
    ensures LoadHistory(SaveMessage(db, other, role, content, now), userId) == LoadHistory(db, userId)
  {
    RowsOfAppend(db.conversations, ConversationRow(other, role, content, now), userId);
    assert RowsOf(db.conversations, userId) + [] == RowsOf(db.conversations, userId);
  }

  // ---------------------------------------------------------------------
  // User data and profile updates

  const MissingUser := "'NoneType' object has no attribute 'username'"

  /** `get_user_data`: the user's name with the profile's columns, or the
      defaults when the user has no profile row. A missing user fails. */
  function GetUserData(db: Db, userId: nat): (r: Result<UserData, string>)
    ensures r.Failure? <==> UserById(db.users, userId).None?
    ensures r.Failure? ==> r.error == MissingUser
    ensures r.Success? ==> r.value.username == UserById(db.users, userId).value.username
    ensures r.Success? && ProfileOf(db, userId).None? ==>
      r.value == UserData(r.value.username, VNone, VNone, VNone,
        VStr("general fitness"), VStr("moderate"), VStr("none"), VStr("none"))
    ensures r.Success? && ProfileOf(db, userId).Some? ==>
      forall c :: FieldValue(r.value, c) == FieldOf(ProfileOf(db, userId).value, c)
  {
    match UserById(db.users, userId)
    case None => Failure(MissingUser)
    case Some(u) =>
      match ProfileOf(db, userId)
      case None =>
        Success(UserData(u.username, VNone, VNone, VNone,
          VStr("general fitness"), VStr("moderate"), VStr("none"), VStr("none")))
      case Some(p) =>
        Success(UserData(u.username, p.age, p.weight, p.height,
          p.fitnessGoal, p.activityLevel, p.dietaryRestrictions, p.preferences))
  }

  /** The columns `update_profile` may write. */
  datatype Column = Age | Weight | Height | FitnessGoal | ActivityLevel | DietaryRestrictions | Preferences

  /** The key under which a column is submitted. */
  function ColumnName(c: Column): string {
    match c
    case Age => "age"
    case Weight => "weight"
    case Height => "height"
    case FitnessGoal => "fitness_goal"
    case ActivityLevel => "activity_level"
    case DietaryRestrictions => "dietary_restrictions"
    case Preferences => "preferences"
  }

  /** The columns in the order `update_profile` visits them. */
  const Columns := [Age, Weight, Height, FitnessGoal, ActivityLevel, DietaryRestrictions, Preferences]

  function FieldOf(p: Profile, c: Column): Value {
    match c
    case Age => p.age
    case Weight => p.weight
    case Height => p.height
    case FitnessGoal => p.fitnessGoal
    case ActivityLevel => p.activityLevel
    case DietaryRestrictions => p.dietaryRestrictions
    case Preferences => p.preferences
  }

  /** The user-data entry named after a column. */
  function FieldValue(d: UserData, c: Column): Value {
    match c
    case Age => d.age
    case Weight => d.weight
    case Height => d.height
    case FitnessGoal => d.fitnessGoal
    case ActivityLevel => d.activityLevel
    case DietaryRestrictions => d.dietaryRestrictions
    case Preferences => d.preferences
  }

  /** Two profiles with the same columns are the same profile. */
  lemma ProfileExtensional(p: Profile, q: Profile)
    requires forall c :: FieldOf(p, c) == FieldOf(q, c)
    ensures p == q
  {
    assert FieldOf(p, Age) == FieldOf(q, Age);
    assert FieldOf(p, Weight) == FieldOf(q, Weight);
    assert FieldOf(p, Height) == FieldOf(q, Height);
    assert FieldOf(p, FitnessGoal) == FieldOf(q, FitnessGoal);
    assert FieldOf(p, ActivityLevel) == FieldOf(q, ActivityLevel);
    assert FieldOf(p, DietaryRestrictions) == FieldOf(q, DietaryRestrictions);
    assert FieldOf(p, Preferences) == FieldOf(q, Preferences);
  }

  /** `setattr(profile, column, v)`. */
  function SetField(p: Profile, c: Column, v: Value): (r: Profile)
    ensures forall d :: FieldOf(r, d) == if d == c then v else FieldOf(p, d)
  {
    match c
    case Age => p.(age := v)
    case Weight => p.(weight := v)
    case Height => p.(height := v)
    case FitnessGoal => p.(fitnessGoal := v)
    case ActivityLevel => p.(activityLevel := v)
    case DietaryRestrictions => p.(dietaryRestrictions := v)
    case Preferences => p.(preferences := v)
  }

  /** The form supplied a value other than `None` for the column. */
  predicate Supplied(data: map<string, Value>, c: Column) {
    ColumnName(c) in data && data[ColumnName(c)] != VNone
  }

  /** The loop over the columns: each column supplied in `data` is written,
      every other column is kept. */
  function MergeFields(p: Profile, data: map<string, Value>, cols: seq<Column>): (r: Profile)
    ensures forall c :: FieldOf(r, c) == (if c in cols && Supplied(data, c) then data[ColumnName(c)] else FieldOf(p, c))
    decreases |cols|
  {
    if |cols| == 0 then p
    else
      var f := cols[0];
      var q := if Supplied(data, f) then SetField(p, f, data[ColumnName(f)]) else p;
      assert forall c :: c in cols <==> c == f || c in cols[1..];
      MergeFields(q, data, cols[1..])
  }

  /** Every column is visited. */
  lemma AllColumnsListed()
    ensures forall c :: c in Columns
  {
    forall c ensures c in Columns {
      match c
      case Age => assert Columns[0] == c;
      case Weight => assert Columns[1] == c;
      case Height => assert Columns[2] == c;
      case FitnessGoal => assert Columns[3] == c;
      case ActivityLevel => assert Columns[4] == c;
      case DietaryRestrictions => assert Columns[5] == c;
      case Preferences => assert Columns[6] == c;
    }
  }

  function Merge(p: Profile, data: map<string, Value>): (r: Profile)
    ensures forall c :: FieldOf(r, c) == (if Supplied(data, c) then data[ColumnName(c)] else FieldOf(p, c))
  {
    AllColumnsListed();
    MergeFields(p, data, Columns)
  }

  /** Submitting the same form twice has the effect of submitting it once. */
  lemma MergeIdempotent(p: Profile, data: map<string, Value>)
    ensures Merge(Merge(p, data), data) == Merge(p, data)
  {
    ProfileExtensional(Merge(Merge(p, data), data), Merge(p, data));
  }

  /** Forms that supply the same columns with the same values merge alike. */
  lemma MergeAgrees(p: Profile, d1: map<string, Value>, d2: map<string, Value>)
    requires forall c :: Supplied(d1, c) == Supplied(d2, c)
    requires forall c :: Supplied(d1, c) && Supplied(d2, c) ==> d1[ColumnName(c)] == d2[ColumnName(c)]
    ensures Merge(p, d1) == Merge(p, d2)
  {
    var m1 := Merge(p, d1);
    var m2 := Merge(p, d2);
    forall c ensures FieldOf(m1, c) == FieldOf(m2, c) {
      if Supplied(d1, c) {
        assert FieldOf(m1, c) == d1[ColumnName(c)] == d2[ColumnName(c)] == FieldOf(m2, c);
      } else {
        assert FieldOf(m1, c) == FieldOf(p, c) == FieldOf(m2, c);
      }
    }
    ProfileExtensional(m1, m2);
  }

  /** Keys that name no column are ignored. */
  lemma MergeIgnoresOtherKeys(p: Profile, data: map<string, Value>, key: string, v: Value)
    requires forall c :: ColumnName(c) != key
    ensures Merge(p, data[key := v]) == Merge(p, data)
  {
    var d := data[key := v];
    forall c ensures Supplied(d, c) == Supplied(data, c) && (Supplied(d, c) && Supplied(data, c) ==> d[ColumnName(c)] == data[ColumnName(c)]) {
      assert ColumnName(c) != key;
    }
    MergeAgrees(p, d, data);
  }

  /** A key submitted as `None` counts as not submitted. */
  lemma MergeSkipsNone(p: Profile, data: map<string, Value>, key: string)
    ensures Merge(p, data[key := VNone]) == Merge(p, data - {key})
  {
    var d1 := data[key := VNone];
    var d2 := data - {key};
    forall c ensures Supplied(d1, c) == Supplied(d2, c) && (Supplied(d1, c) && Supplied(d2, c) ==> d1[ColumnName(c)] == d2[ColumnName(c)]) {
      if ColumnName(c) != key {
        assert ColumnName(c) in d1 <==> ColumnName(c) in d2;
      }
    }
    MergeAgrees(p, d1, d2);
  }

  /** `update_profile`: the user's first profile row takes the merged
      columns; without a profile row nothing changes. */
  function UpdateProfile(db: Db, userId: nat, data: map<string, Value>): (r: Db)
    ensures r.users == db.users && r.conversations == db.conversations && r.nextId == db.nextId
    ensures |r.profiles| == |db.profiles|
    ensures ProfileIndex(db.profiles, userId) == -1 ==> r == db
    ensures forall j :: 0 <= j < |db.profiles| && j != ProfileIndex(db.profiles, userId) ==> r.profiles[j] == db.profiles[j]
    ensures ProfileIndex(db.profiles, userId) >= 0 ==>
      var k := ProfileIndex(db.profiles, userId);
      r.profiles[k] == ProfileRow(userId, Merge(db.profiles[k].profile, data))
  {
    var k := ProfileIndex(db.profiles, userId);
    if k == -1 then db
    else db.(profiles := db.profiles[k := ProfileRow(userId, Merge(db.profiles[k].profile, data))])
  }

  /** What the agent sees after a profile update: the supplied columns take
      the new values and the others keep theirs. */
  lemma UpdateThenGet(db: Db, userId: nat, data: map<string, Value>)
    requires UserById(db.users, userId).Some? && ProfileOf(db, userId).Some?
    ensures var d := GetUserData(UpdateProfile(db, userId, data), userId);
      && d.Success?
      && (forall c :: FieldValue(d.value, c) ==
            (if Supplied(data, c) then data[ColumnName(c)] else FieldOf(ProfileOf(db, userId).value, c)))
  {
    var db' := UpdateProfile(db, userId, data);
    assert ProfileIndex(db'.profiles, userId) == ProfileIndex(db.profiles, userId);
  }

  /** A freshly registered user's data: the name and every column unset. */
  lemma FreshUserData(db: Db, username: string, password: string)
    requires Valid(db) && Register(db, username, password).ok
    ensures var db' := Register(db, username, password).db;
      GetUserData(db', db.nextId) == Success(UserData(username, VNone, VNone, VNone, VNone, VNone, VNone, VNone))
  {
    var db' := Register(db, username, password).db;
    UserByIdAppend(db.users, User(db.nextId, username, password));
    ProfileIndexAppend(db.profiles, ProfileRow(db.nextId, EmptyProfile));
  }

  lemma {:induction false} UserByIdAppend(users: seq<User>, u: User)
    requires UserById(users, u.id).None?
    ensures UserById(users + [u], u.id) == Some(u)
    decreases |users|
  {
    if |users| == 0 {
      assert users + [u] == [u];
    } else {
      assert (users + [u])[0] == users[0];
      assert (users + [u])[1..] == users[1..] + [u];
      UserByIdAppend(users[1..], u);
    }
  }

  lemma {:induction false} ProfileIndexAppend(rows: seq<ProfileRow>, row: ProfileRow)
    requires ProfileIndex(rows, row.userId) == -1
    ensures ProfileIndex(rows + [row], row.userId) == |rows|
    decreases |rows|
  {
    if |rows| == 0 {
      assert rows + [row] == [row];
    } else {
      assert (rows + [row])[0] == rows[0];
      assert (rows + [row])[1..] == rows[1..] + [row];
      ProfileIndexAppend(rows[1..], row);
    }
  }
}
