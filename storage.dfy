/**
 * Loading the stored document (app.js, loadState) and the shape of what
 * saveState writes. JSON.parse and localStorage are not modelled: the text
 * read from storage and the parser are parameters, and a parse that throws
 * is a `None` from the parser.
 */
module Storage {
  import opened Habits

  /** A parsed JSON value; numbers are modelled as integers. */
  datatype Json =
    | JNull
    | JBool(b: bool)
    | JNumber(n: int)
    | JString(s: string)
    | JArray(items: seq<Json>)
    | JObject(members: map<string, Json>)

  /** JavaScript truthiness of a parsed value: null, false, 0 and "" are falsy. */
  predicate Truthy(j: Json)
    ensures j.JArray? || j.JObject? ==> Truthy(j)
    ensures !Truthy(j) <==> j == JNull || j == JBool(false) || j == JNumber(0) || j == JString("")
  {
    match j
    case JNull => false
    case JBool(b) => b
    case JNumber(n) => n != 0
    case JString(s) => s != ""
    case JArray(_) => true
    case JObject(_) => true
  }

  /** `typeof j === "object"`: null, arrays and objects. */
  predicate IsObjectLike(j: Json)
    ensures IsObjectLike(j) <==> !(j.JBool? || j.JNumber? || j.JString?)
    ensures IsObjectLike(j) && Truthy(j) <==> j.JArray? || j.JObject?
  {
    j.JNull? || j.JArray? || j.JObject?
  }

  /** `Array.isArray(j.habits)`. */
  predicate HasHabitsArray(j: Json)
    ensures HasHabitsArray(j) ==> Truthy(j) && IsObjectLike(j)
  {
    j.JObject? && "habits" in j.members && j.members["habits"].JArray?
  }

  /** `{ habits: [] }`. */
  const EmptyDocument: Json := JObject(map["habits" := JArray([])])

  /** The legacy format: the whole stored object becomes the commits of one habit named "Habit". */
  function LegacyDocument(legacy: Json, freshId: string): (doc: Json)
    ensures HasHabitsArray(doc) && |doc.members["habits"].items| == 1
    ensures var habit := doc.members["habits"].items[0];
            habit.JObject? && "commits" in habit.members && habit.members["commits"] == legacy
  {
    var habit := JObject(map["id" := JString(freshId), "name" := JString("Habit"), "commits" := legacy]);
    JObject(map["habits" := JArray([habit])])
  }

  /**
   * loadState. `stored` is what localStorage holds (None when nothing is
   * stored), `parse` is JSON.parse, and `freshId` the id crypto.randomUUID
   * would give a migrated legacy habit. Whatever is stored, the result is an
   * object with a habits array: loading never fails.
   */
  function LoadState(stored: Option<string>, parse: string -> Option<Json>, freshId: string): (doc: Json)
    ensures HasHabitsArray(doc)
    ensures stored.None? || stored == Some("") ==> doc == EmptyDocument
  {
    if stored.None? || stored.value == "" then EmptyDocument
    else
      match parse(stored.value)
      case None => EmptyDocument
      case Some(parsed) =>
        if Truthy(parsed) && HasHabitsArray(parsed) then parsed
        else if Truthy(parsed) && IsObjectLike(parsed) then LegacyDocument(parsed, freshId)
        else EmptyDocument
  }

  /**
   * The four shapes of a stored value, in terms of its JSON kind: a document
   * with a habits array is kept as it is, any other object or array is
   * wrapped as a legacy habit, and a primitive or a parse failure loads as
   * the empty list.
   */
  lemma LoadShapes(text: string, parse: string -> Option<Json>, freshId: string)
    requires text != ""
    ensures parse(text).None? ==> LoadState(Some(text), parse, freshId) == EmptyDocument
    ensures parse(text).Some? ==>
      var parsed := parse(text).value;
      var doc := LoadState(Some(text), parse, freshId);
      && (HasHabitsArray(parsed) ==> doc == parsed)
      && (!HasHabitsArray(parsed) && (parsed.JObject? || parsed.JArray?) ==> doc == LegacyDocument(parsed, freshId))
      && (!parsed.JObject? && !parsed.JArray? ==> doc == EmptyDocument)
  {
  }

  /** An empty stored object is taken for a legacy map and loads as one habit, not as no habits. */
  lemma EmptyObjectLoadsAsOneHabit(text: string, parse: string -> Option<Json>, freshId: string)
    requires text != "" && parse(text) == Some(JObject(map[]))
    ensures var doc := LoadState(Some(text), parse, freshId);
            |doc.members["habits"].items| == 1
  {
  }

  /** The JSON form of a commits map: date key to number. */
  function CommitsJson(commits: map<string, int>): Json {
    JObject(map key | key in commits :: JNumber(commits[key]))
  }

  function HabitJson(h: HabitRecord): Json {
    JObject(map["id" := JString(h.id), "name" := JString(h.name), "commits" := CommitsJson(h.commits)])
  }

  /** The document saveState writes: `{ habits: [...] }`, one object per habit, in order. */
  function Document(habits: seq<HabitRecord>): (doc: Json)
    ensures HasHabitsArray(doc) && |doc.members["habits"].items| == |habits|
  {
    JObject(map["habits" := JArray(seq(|habits|, i requires 0 <= i < |habits| => HabitJson(habits[i])))])
  }

  /** Reads a commits object whose every value is a number. */
  function DecodeCommits(j: Json): Option<map<string, int>> {
    if j.JObject? && forall key :: key in j.members ==> j.members[key].JNumber? then
      Some(map key | key in j.members :: j.members[key].n)
    else
      None
  }

  /** Reads one habit object with a string id, a string name and a commits object. */
  function DecodeHabit(j: Json): Option<HabitRecord> {
    if && j.JObject?
       && "id" in j.members && j.members["id"].JString?
       && "name" in j.members && j.members["name"].JString?
       && "commits" in j.members
    then
      match DecodeCommits(j.members["commits"])
      case None => None
      case Some(commits) => Some(HabitRecord(j.members["id"].s, j.members["name"].s, commits))
    else
      None
  }

  function DecodeHabits(items: seq<Json>): Option<seq<HabitRecord>> {
    if items == [] then Some([])
    else
      match (DecodeHabit(items[0]), DecodeHabits(items[1..]))
      case (Some(h), Some(rest)) => Some([h] + rest)
      case _ => None
  }

  /** The habit list a loaded document holds, when every habit in it is well formed. */
  function DecodeDocument(doc: Json): Option<seq<HabitRecord>> {
    if HasHabitsArray(doc) then DecodeHabits(doc.members["habits"].items) else None
  }

  lemma DecodeCommitsJson(commits: map<string, int>)
    ensures DecodeCommits(CommitsJson(commits)) == Some(commits)
  {
    var members := CommitsJson(commits).members;
    assert forall key :: key in members ==> members[key] == JNumber(commits[key]);
    var decoded := map key | key in members :: members[key].n;
    assert decoded.Keys == commits.Keys;
    assert decoded == commits;
  }

  lemma {:induction false} DecodeHabitsJson(habits: seq<HabitRecord>)
    ensures DecodeHabits(seq(|habits|, i requires 0 <= i < |habits| => HabitJson(habits[i]))) == Some(habits)
  {
    var items := seq(|habits|, i requires 0 <= i < |habits| => HabitJson(habits[i]));
    if habits != [] {
      var rest := habits[1..];
      assert items[1..] == seq(|rest|, i requires 0 <= i < |rest| => HabitJson(rest[i]));
      DecodeHabitsJson(rest);
      DecodeCommitsJson(habits[0].commits);
      assert DecodeHabit(items[0]) == Some(habits[0]);
      assert [habits[0]] + rest == habits;
    }
  }

  /** Reading back a saved document yields the habits that were saved. */
  lemma DecodeDocumentRoundTrip(habits: seq<HabitRecord>)
    ensures DecodeDocument(Document(habits)) == Some(habits)
  {
    DecodeHabitsJson(habits);
  }

  /**
   * load(save(S)) == S: when the parser reads back the saved document, the
   * loaded document is that document and holds the same habits in the same order.
   */
  lemma LoadSavedDocument(habits: seq<HabitRecord>, text: string, parse: string -> Option<Json>, freshId: string)
    requires text != "" && parse(text) == Some(Document(habits))
    ensures LoadState(Some(text), parse, freshId) == Document(habits)
    ensures DecodeDocument(LoadState(Some(text), parse, freshId)) == Some(habits)
  {
    DecodeDocumentRoundTrip(habits);
  }

  /**
   * A legacy map of date keys to counts loads as a single habit named
   * "Habit" whose commits are that map, for example {"2024-01-01": 3}.
   */
  lemma LegacyMigration(text: string, parse: string -> Option<Json>, freshId: string, legacy: map<string, int>)
    requires text != "" && parse(text) == Some(CommitsJson(legacy))
    ensures DecodeDocument(LoadState(Some(text), parse, freshId)) == Some([HabitRecord(freshId, "Habit", legacy)])
  {
    DecodeCommitsJson(legacy);
    var doc := LoadState(Some(text), parse, freshId);
    assert doc == LegacyDocument(CommitsJson(legacy), freshId);
    var items := doc.members["habits"].items;
    assert DecodeHabit(items[0]) == Some(HabitRecord(freshId, "Habit", legacy));
    assert items[1..] == [];
    assert DecodeHabits(items[1..]) == Some([]);
    assert [HabitRecord(freshId, "Habit", legacy)] + [] == [HabitRecord(freshId, "Habit", legacy)];
  }

  /** For example, {"2024-01-01": 3} loads as one habit with 3 commits on that day. */
  lemma LegacyExample(text: string, parse: string -> Option<Json>, freshId: string)
    requires text != "" && parse(text) == Some(JObject(map["2024-01-01" := JNumber(3)]))
    ensures var habits := DecodeDocument(LoadState(Some(text), parse, freshId));
            && habits.Some? && |habits.value| == 1
            && habits.value[0].name == "Habit"
            && CountOf(habits.value[0].commits, "2024-01-01") == 3
  {
    var legacy := map["2024-01-01" := 3];
    assert CommitsJson(legacy) == JObject(map["2024-01-01" := JNumber(3)]);
    LegacyMigration(text, parse, freshId, legacy);
  }
}
