/**
 * The in-memory state of app.js and the actions that change it: the habit
 * list `habitState.habits`, the per-habit selected date `selectedDates`,
 * and the habit the last render opened. A habit is an object whose commits
 * the count edits update in place. saveState is modelled by the ghost field
 * `saved`, the habit list as last written to storage (None until the first
 * write: startup itself writes nothing).
 */
module Store {
  import opened Habits
  import Text

  class Habit {
    const id: string
    const name: string
    var commits: map<string, int>

    constructor (id: string, name: string, commits: map<string, int>)
      ensures this.id == id && this.name == name && this.commits == commits
    {
      this.id := id;
      this.name := name;
      this.commits := commits;
    }
  }

  function IdsOf(habits: seq<Habit>): seq<string> {
    seq(|habits|, i requires 0 <= i < |habits| => habits[i].id)
  }

  ghost function RecordsOf(habits: seq<Habit>): seq<HabitRecord>
    reads habits
  {
    seq(|habits|, i reads habits requires 0 <= i < |habits| =>
      HabitRecord(habits[i].id, habits[i].name, habits[i].commits))
  }

  predicate Distinct(ids: seq<string>) {
    forall i, j :: 0 <= i < j < |ids| ==> ids[i] != ids[j]
  }

  /**
   * renderHabits(openHabitId): the habit to open is the one asked for, or
   * the first habit when none is asked for; with no habits nothing opens.
   */
  function ResolveOpenId(requested: Option<string>, ids: seq<string>): (open: Option<string>)
    ensures open.None? <==> ids == []
    ensures requested.None? || requested == Some("") ==> ids != [] ==> open == Some(ids[0])
  {
    if ids == [] then None
    else if requested.Some? && requested.value != "" then requested
    else Some(ids[0])
  }

  /**
   * With distinct ids, a render opens exactly one card when the requested
   * id is listed or none is requested: the requested one, else the first.
   */
  lemma OpensExactlyOne(requested: Option<string>, ids: seq<string>) returns (k: nat)
    requires Distinct(ids) && ids != []
    requires requested.None? || requested.value == "" || requested.value in ids
    ensures k < |ids| && ResolveOpenId(requested, ids) == Some(ids[k])
    ensures forall j :: 0 <= j < |ids| && ResolveOpenId(requested, ids) == Some(ids[j]) ==> j == k
    ensures requested.Some? && requested.value != "" ==> ids[k] == requested.value
    ensures requested.None? || requested.value == "" ==> k == 0
  {
    if requested.Some? && requested.value != "" {
      k :| 0 <= k < |ids| && ids[k] == requested.value;
    } else {
      k := 0;
    }
  }

  class Tracker {
    var habits: seq<Habit>
    var selectedDates: map<string, string>
    var openId: Option<string>
    ghost var saved: Option<seq<HabitRecord>>

    /**
     * Startup: the loaded habits, no selection, the first render with no id
     * requested, and nothing written to storage yet.
     */
    constructor (loaded: seq<Habit>)
      ensures habits == loaded && selectedDates == map[]
      ensures openId == ResolveOpenId(None, IdsOf(loaded))
      ensures saved == None
    {
      habits := loaded;
      selectedDates := map[];
      openId := ResolveOpenId(None, IdsOf(loaded));
      saved := None;
    }

    /** The habit list as values. */
    ghost function Records(): seq<HabitRecord>
      reads this, habits
    {
      RecordsOf(habits)
    }

    /** No habit has a negative count. */
    ghost predicate CountsNonNegative()
      reads this, habits
    {
      forall h :: h in habits ==> NonNegative(h.commits)
    }

    /** `selectedDates[habit.id]`, which counts as no selection when absent or empty. */
    function Selection(habit: Habit): (selected: Option<string>)
      reads this
      ensures selected != Some("")
      ensures selected.Some? <==> habit.id in selectedDates && selectedDates[habit.id] != ""
      ensures selected.Some? ==> selected.value == selectedDates[habit.id]
    {
      if habit.id in selectedDates && selectedDates[habit.id] != "" then Some(selectedDates[habit.id]) else None
    }

    /** selectDate: records the date for this habit only, then re-renders with the habit open. */
    method SelectDate(habit: Habit, dateKey: string)
      modifies this
      ensures selectedDates == old(selectedDates)[habit.id := dateKey]
      ensures habits == old(habits) && saved == old(saved)
      ensures openId == ResolveOpenId(Some(habit.id), IdsOf(habits))
      ensures dateKey != "" ==> Selection(habit) == Some(dateKey)
    {
      selectedDates := selectedDates[habit.id := dateKey];
      openId := ResolveOpenId(Some(habit.id), IdsOf(habits));
    }

    /**
     * changeCommits: with no selected date nothing happens; otherwise the
     * selected date's count moves by `delta`, clamped at 0, the list is
     * saved and the habit is re-rendered open. No other date, habit or
     * position in the list changes.
     */
    method ChangeCommits(habit: Habit, delta: int)
      modifies this, habit
      ensures habits == old(habits) && selectedDates == old(selectedDates)
      ensures old(Selection(habit)).None? ==>
                habit.commits == old(habit.commits) && openId == old(openId) && saved == old(saved)
      ensures old(Selection(habit)).Some? ==>
                && habit.commits == Adjusted(old(habit.commits), old(Selection(habit)).value, delta)
                && openId == ResolveOpenId(Some(habit.id), IdsOf(habits))
                && saved == Some(Records())
      ensures forall h :: h in habits && h != habit ==> h.commits == old(h.commits)
      ensures old(CountsNonNegative()) ==> CountsNonNegative()
    {
      var selected := Selection(habit);
      if selected.None? {
        return;
      }
      habit.commits := Adjusted(habit.commits, selected.value, delta);
      openId := ResolveOpenId(Some(habit.id), IdsOf(habits));
      ghost var r := Records();
      saved := Some(r);
      assert r == Records();
    }

    /** clearDay: with a selected date, its count becomes 0; otherwise nothing happens. */
    method ClearDay(habit: Habit)
      modifies this, habit
      ensures habits == old(habits) && selectedDates == old(selectedDates)
      ensures old(Selection(habit)).None? ==>
                habit.commits == old(habit.commits) && openId == old(openId) && saved == old(saved)
      ensures old(Selection(habit)).Some? ==>
                && habit.commits == Cleared(old(habit.commits), old(Selection(habit)).value)
                && openId == ResolveOpenId(Some(habit.id), IdsOf(habits))
                && saved == Some(Records())
      ensures forall h :: h in habits && h != habit ==> h.commits == old(h.commits)
      ensures old(CountsNonNegative()) ==> CountsNonNegative()
    {
      var selected := Selection(habit);
      if selected.None? {
        return;
      }
      habit.commits := Cleared(habit.commits, selected.value);
      openId := ResolveOpenId(Some(habit.id), IdsOf(habits));
      ghost var r := Records();
      saved := Some(r);
      assert r == Records();
    }

    /**
     * addHabit: a new habit with no commits goes in front of the list, every
     * former habit moves one place back unchanged, the list is saved and the
     * new habit is the one opened. `id` stands for crypto.randomUUID().
     */
    method AddHabit(name: string, id: string)
      requires id != "" && id !in IdsOf(habits)
      modifies this
      ensures |habits| == |old(habits)| + 1 && habits[1..] == old(habits)
      ensures fresh(habits[0]) && habits[0].id == id && habits[0].name == name && habits[0].commits == map[]
      ensures Records() == [HabitRecord(id, name, map[])] + old(Records())
      ensures selectedDates == old(selectedDates) && saved == Some(Records())
      ensures openId == Some(id)
      ensures forall i :: 0 <= i < |habits| ==> (habits[i].id == id <==> i == 0)
      ensures old(CountsNonNegative()) ==> CountsNonNegative()
    {
      var habit := new Habit(id, name, map[]);
      habits := [habit] + habits;
      assert habits[1..] == old(habits);
      assert forall i :: 1 <= i < |habits| ==> habits[i].id == IdsOf(old(habits))[i - 1];
      saved := Some(Records());
      openId := ResolveOpenId(Some(id), IdsOf(habits));
    }

    /**
     * The add-habit form: the typed name is trimmed; a blank name is
     * ignored, any other is added under its trimmed form.
     */
    method SubmitHabit(input: string, id: string)
      requires id != "" && id !in IdsOf(habits)
      modifies this
      ensures Text.Trim(input) == [] ==>
                habits == old(habits) && saved == old(saved) && openId == old(openId)
                && selectedDates == old(selectedDates)
      ensures Text.Trim(input) != [] ==>
                && |habits| == |old(habits)| + 1 && habits[1..] == old(habits)
                && fresh(habits[0]) && habits[0].id == id && habits[0].name == Text.Trim(input)
                && habits[0].commits == map[]
                && Records() == [HabitRecord(id, Text.Trim(input), map[])] + old(Records())
                && saved == Some(Records()) && openId == Some(id)
                && selectedDates == old(selectedDates)
    {
      var name := Text.Trim(input);
      if name == [] {
        return;
      }
      AddHabit(name, id);
    }
  }
}
