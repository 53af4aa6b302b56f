/**
 * The habit data model of app.js: a habit is an id, a name and a map from a
 * date key ("YYYY-MM-DD") to the number of commits recorded on that date.
 * The value-level effect of the count edits is defined here; the in-place
 * updates that the page performs are in module Store.
 */
module Habits {

  datatype Option<T> = None | Some(value: T)

  /** A habit as a value: what is persisted and displayed. */
  datatype HabitRecord = HabitRecord(id: string, name: string, commits: map<string, int>)

  /** The count shown for a date: a missing date key reads as 0 (`commits[key] || 0`). */
  function CountOf(commits: map<string, int>, key: string): (count: int)
    ensures key !in commits ==> count == 0
    ensures key in commits ==> count == commits[key]
    ensures NonNegative(commits) ==> count >= 0
  {
    if key in commits then commits[key] else 0
  }

  /** Every recorded count is at least 0. */
  predicate NonNegative(commits: map<string, int>) {
    forall key :: key in commits ==> commits[key] >= 0
  }

  /** The dates that have an entry; the habit header shows how many there are. */
  function Entries(commits: map<string, int>): set<string> {
    commits.Keys
  }

  /**
   * changeCommits: the count of `key` moves by `delta`, clamped at 0
   * (`Math.max(0, current + delta)`), and is written back under `key`.
   */
  function Adjusted(commits: map<string, int>, key: string, delta: int): (r: map<string, int>)
    ensures Entries(r) == Entries(commits) + {key}
    ensures CountOf(r, key) >= 0 && CountOf(r, key) >= CountOf(commits, key) + delta
    ensures CountOf(r, key) == 0 || CountOf(r, key) == CountOf(commits, key) + delta
    ensures forall k :: k in commits && k != key ==> r[k] == commits[k]
    ensures NonNegative(commits) ==> NonNegative(r)
  {
    var next := CountOf(commits, key) + delta;
    commits[key := if next < 0 then 0 else next]
  }

  /** clearDay: the count of `key` becomes 0; the date has an entry afterwards. */
  function Cleared(commits: map<string, int>, key: string): (r: map<string, int>)
    ensures Entries(r) == Entries(commits) + {key}
    ensures CountOf(r, key) == 0
    ensures forall k :: k in commits && k != key ==> r[k] == commits[k]
    ensures NonNegative(commits) ==> NonNegative(r)
  {
    commits[key := 0]
  }

  /** Taking one away from a date that has no commits leaves it at 0, never below. */
  lemma DecrementAtZeroStaysZero(commits: map<string, int>, key: string)
    requires CountOf(commits, key) == 0
    ensures CountOf(Adjusted(commits, key, -1), key) == 0
  {
  }

  /** Two increments in a row add up: the clamp never fires on the way up. */
  lemma AdjustedAdditive(commits: map<string, int>, key: string, a: int, b: int)
    requires CountOf(commits, key) >= 0 && a >= 0 && b >= 0
    ensures Adjusted(Adjusted(commits, key, a), key, b) == Adjusted(commits, key, a + b)
  {
  }

  /** A decrement of at least the current count clamps to the same state as clearing the day. */
  lemma ClampedAdjustIsClear(commits: map<string, int>, key: string, delta: int)
    requires CountOf(commits, key) + delta <= 0
    ensures Adjusted(commits, key, delta) == Cleared(commits, key)
  {
  }

  /** Clearing twice is clearing once. */
  lemma ClearedIdempotent(commits: map<string, int>, key: string)
    ensures Cleared(Cleared(commits, key), key) == Cleared(commits, key)
  {
  }

  /** An increment undoes an unclamped decrement. */
  lemma AdjustRoundTrip(commits: map<string, int>, key: string, delta: int)
    requires key in commits && 0 <= delta <= commits[key]
    ensures Adjusted(Adjusted(commits, key, -delta), key, delta) == commits
  {
  }
}
