/**
 * script.js: the day-by-day workout tracker. Logging a day reads the day section's number
 * inputs into an exercise map, appends one record to the history, writes the whole history
 * under `workoutHistory` and redraws the history list.
 */
module WorkoutHistory {
  import opened Wrappers
  import opened JsText
  import opened Storage

  const HistoryKey := "workoutHistory"

  /**
   * The `exercises` object of a record: its entries in insertion order, the order
   * `Object.entries` lists them for names that are not array indices.
   */
  type Exercises = seq<(string, string)>

  /** One logged workout, as pushed onto the history. */
  datatype Workout = Workout(day: string, date: string, time: string, exercises: Exercises)

  /** A number input: its `data-exercise` attribute (`None` when absent) and its text value. */
  datatype NumberInput = NumberInput(exercise: Option<string>, value: string)

  // ---------------------------------------------------------------- the exercise map

  /** `exercises[name]` */
  function Lookup(ex: Exercises, name: string): Option<string>
  {
    if ex == [] then None
    else if ex[0].0 == name then Some(ex[0].1)
    else Lookup(ex[1..], name)
  }

  /** The property names of the object, in insertion order. */
  function Keys(ex: Exercises): seq<string>
  {
    if ex == [] then [] else [ex[0].0] + Keys(ex[1..])
  }

  predicate UniqueKeys(ex: Exercises)
  {
    forall i, j :: 0 <= i < j < |ex| ==> ex[i].0 != ex[j].0
  }

  /** `exercises[name] = value`: overwrite in place, or add the name at the end. */
  function Assign(ex: Exercises, name: string, value: string): (r: Exercises)
    ensures Lookup(r, name) == Some(value)
    ensures forall n :: n != name ==> Lookup(r, n) == Lookup(ex, n)
    ensures name in Keys(ex) ==> Keys(r) == Keys(ex)
    ensures name !in Keys(ex) ==> Keys(r) == Keys(ex) + [name]
  {
    if ex == [] then [(name, value)]
    else if ex[0].0 == name then [(name, value)] + ex[1..]
    else [ex[0]] + Assign(ex[1..], name, value)
  }

  lemma {:induction false} KeysIndex(ex: Exercises)
    ensures |Keys(ex)| == |ex|
    ensures forall i :: 0 <= i < |ex| ==> Keys(ex)[i] == ex[i].0
  {
    if ex != [] {
      KeysIndex(ex[1..]);
    }
  }

  /** Assignment never makes a name appear twice. */
  lemma AssignKeepsKeysUnique(ex: Exercises, name: string, value: string)
    requires UniqueKeys(ex)
    ensures UniqueKeys(Assign(ex, name, value))
  {
    var r := Assign(ex, name, value);
    KeysIndex(ex);
    KeysIndex(r);
    forall i, j | 0 <= i < j < |r| ensures r[i].0 != r[j].0 {
      assert Keys(r)[i] == r[i].0 && Keys(r)[j] == r[j].0;
      if name in Keys(ex) {
        assert Keys(ex)[i] == ex[i].0 && Keys(ex)[j] == ex[j].0;
      } else if j < |ex| {
        assert Keys(ex)[i] == ex[i].0 && Keys(ex)[j] == ex[j].0;
      } else {
        assert Keys(ex)[i] == ex[i].0;
      }
    }
  }

  /** An input that `if (exerciseName && weight)` lets through. */
  predicate Filled(input: NumberInput)
  {
    input.exercise.Some? && input.exercise.value != "" && input.value != ""
  }

  predicate FilledAs(input: NumberInput, name: string)
  {
    Filled(input) && input.exercise.value == name
  }

  /** The exercise map after the `forEach` over the inputs, defined input by input. */
  function Collected(inputs: seq<NumberInput>): Exercises
    decreases |inputs|
  {
    if inputs == [] then []
    else
      var x := inputs[|inputs| - 1];
      var before := Collected(inputs[..|inputs| - 1]);
      if Filled(x) then Assign(before, x.exercise.value, x.value + " kg") else before
  }

  /** The `forEach` over the day's number inputs. */
  method CollectExercises(inputs: seq<NumberInput>) returns (ex: Exercises)
    ensures ex == Collected(inputs)
  {
    ex := [];
    for i := 0 to |inputs|
      invariant ex == Collected(inputs[..i])
    {
      assert inputs[..i + 1][..i] == inputs[..i];
      var input := inputs[i];
      if Filled(input) {
        ex := Assign(ex, input.exercise.value, input.value + " kg");
      }
    }
    assert inputs[..|inputs|] == inputs;
  }

  /** No exercise name is listed twice in a record. */
  lemma {:induction false} CollectedKeysUnique(inputs: seq<NumberInput>)
    ensures UniqueKeys(Collected(inputs))
    decreases |inputs|
  {
    if inputs != [] {
      var x := inputs[|inputs| - 1];
      CollectedKeysUnique(inputs[..|inputs| - 1]);
      if Filled(x) {
        AssignKeepsKeysUnique(Collected(inputs[..|inputs| - 1]), x.exercise.value, x.value + " kg");
      }
    }
  }

  /** A name is in the map exactly when some filled input carries it. */
  lemma {:induction false} CollectedNames(inputs: seq<NumberInput>, name: string)
    ensures Lookup(Collected(inputs), name).Some? <==> exists j :: 0 <= j < |inputs| && FilledAs(inputs[j], name)
    decreases |inputs|
  {
    if inputs != [] {
      var n := |inputs| - 1;
      var front := inputs[..n];
      CollectedNames(front, name);
      assert forall j :: 0 <= j < n ==> front[j] == inputs[j];
      if exists j :: 0 <= j < |inputs| && FilledAs(inputs[j], name) {
        var j :| 0 <= j < |inputs| && FilledAs(inputs[j], name);
        if j < n {
          assert FilledAs(front[j], name);
        }
      }
    }
  }

  /** The last filled input with a name decides its value: that input's text followed by ` kg`. */
  lemma {:induction false} LastInputWins(inputs: seq<NumberInput>, name: string, i: nat)
    requires i < |inputs| && FilledAs(inputs[i], name)
    requires forall j :: i < j < |inputs| ==> !FilledAs(inputs[j], name)
    ensures Lookup(Collected(inputs), name) == Some(inputs[i].value + " kg")
    decreases |inputs|
  {
    var n := |inputs| - 1;
    if i < n {
      var front := inputs[..n];
      assert forall j :: i < j < |front| ==> front[j] == inputs[j];
      LastInputWins(front, name, i);
    }
  }

  // ---------------------------------------------------------------- names and lines

  /** `day.toLowerCase().replace(/ /g, '')`: the id of the day's section. */
  function SectionId(day: string): (id: string)
    ensures |id| <= |day|
    ensures forall k :: 0 <= k < |id| ==> id[k] != ' ' && !('A' <= id[k] <= 'Z')
  {
    if day == [] then []
    else if day[0] == ' ' then SectionId(day[1..])
    else [LowerAscii(day[0])] + SectionId(day[1..])
  }

  /** A label already without spaces and capitals is its own section id. */
  lemma {:induction false} SectionIdOfPlain(day: string)
    requires forall k :: 0 <= k < |day| ==> day[k] != ' ' && !('A' <= day[k] <= 'Z')
    ensures SectionId(day) == day
  {
    if day != [] {
      SectionIdOfPlain(day[1..]);
    }
  }

  /** Deriving the id twice changes nothing. */
  lemma SectionIdIdempotent(day: string)
    ensures SectionId(SectionId(day)) == SectionId(day)
  {
    SectionIdOfPlain(SectionId(day));
  }

  /** Spaces do not matter: `Day 1`, `Day1` and `day 1` share a section. */
  lemma {:induction false} SectionIdIgnoresSpace(a: string, b: string)
    ensures SectionId(a + " " + b) == SectionId(a + b)
    decreases |a|
  {
    if a == [] {
      assert a + " " + b == [' '] + b;
      assert (a + " " + b)[1..] == b;
      assert a + b == b;
    } else {
      SectionIdIgnoresSpace(a[1..], b);
      assert (a + " " + b)[1..] == a[1..] + " " + b;
      assert (a + b)[1..] == a[1..] + b;
    }
  }

  /** A single character's id: a space vanishes and anything else is lowered. */
  lemma SectionIdChar(c: char)
    ensures SectionId([c]) == if c == ' ' then [] else [LowerAscii(c)]
  {
    assert [c][1..] == [];
  }

  /** The id is derived character by character: the id of a joined label is the joined ids. */
  lemma {:induction false} SectionIdAppend(a: string, b: string)
    ensures SectionId(a + b) == SectionId(a) + SectionId(b)
    decreases |a|
  {
    if a == [] {
      assert a + b == b;
    } else {
      SectionIdAppend(a[1..], b);
      assert (a + b)[1..] == a[1..] + b;
    }
  }

  /** The inputs `#<id> input[type="number"]` finds: none when no section has that id. */
  function InputsOf(page: map<string, seq<NumberInput>>, id: string): seq<NumberInput>
  {
    if id in page then page[id] else []
  }

  /** `${name}: ${weight}` for one entry. */
  function ExerciseText(e: (string, string)): string
  {
    e.0 + ": " + e.1
  }

  /** The entry texts, in order. */
  function Details(ex: Exercises): seq<string>
  {
    seq(|ex|, k requires 0 <= k < |ex| => ExerciseText(ex[k]))
  }

  /** The text of one history item. */
  function FormatLine(w: Workout): string
  {
    w.day + " - " + w.date + " at " + w.time + " - " + Join(Details(w.exercises), ", ")
  }

  /** The part of a history item before the exercises. */
  function LinePrefix(w: Workout): string
  {
    w.day + " - " + w.date + " at " + w.time + " - "
  }

  /** Where the `k`-th exercise's text starts in the history item. */
  function PartStart(w: Workout, k: nat): nat
    requires k < |w.exercises|
  {
    |LinePrefix(w)| + JoinOffset(Details(w.exercises), ", ", k)
  }

  /** Where the `k`-th exercise's text ends in the history item. */
  function PartEnd(w: Workout, k: nat): nat
    requires k < |w.exercises|
  {
    PartStart(w, k) + |ExerciseText(w.exercises[k])|
  }

  /**
   * A history item is `<day> - <date> at <time> - ` followed by every exercise's
   * `name: weight` text, in record order, with `, ` after each but the last, and
   * nothing after the last.
   */
  lemma FormatLineShowsRecord(w: Workout)
    ensures |FormatLine(w)| >= |LinePrefix(w)| && FormatLine(w)[..|LinePrefix(w)|] == LinePrefix(w)
    ensures w.exercises == [] ==> FormatLine(w) == LinePrefix(w)
    ensures forall k {:trigger PartStart(w, k)} :: 0 <= k < |w.exercises| ==>
      OccursAt(ExerciseText(w.exercises[k]), FormatLine(w), PartStart(w, k))
    ensures forall k {:trigger PartEnd(w, k)} :: 0 <= k < |w.exercises| - 1 ==>
      OccursAt(", ", FormatLine(w), PartEnd(w, k))
    ensures forall k, l {:trigger PartEnd(w, k), PartStart(w, l)} :: 0 <= k < l < |w.exercises| ==>
      PartEnd(w, k) < PartStart(w, l)
    ensures w.exercises != [] ==> |FormatLine(w)| == PartEnd(w, |w.exercises| - 1)
  {
    LinePrefixShown(w);
    forall k {:trigger PartStart(w, k)} | 0 <= k < |w.exercises|
      ensures OccursAt(ExerciseText(w.exercises[k]), FormatLine(w), PartStart(w, k))
    {
      PartShown(w, k);
    }
    forall k {:trigger PartEnd(w, k)} | 0 <= k < |w.exercises| - 1
      ensures OccursAt(", ", FormatLine(w), PartEnd(w, k))
    {
      SeparatorShown(w, k);
    }
    forall k, l {:trigger PartEnd(w, k), PartStart(w, l)} | 0 <= k < l < |w.exercises|
      ensures PartEnd(w, k) < PartStart(w, l)
    {
      PartsInOrder(w, k, l);
    }
    if w.exercises != [] {
      LineEndsAfterLastPart(w);
    }
  }

  lemma LinePrefixShown(w: Workout)
    ensures |FormatLine(w)| >= |LinePrefix(w)| && FormatLine(w)[..|LinePrefix(w)|] == LinePrefix(w)
    ensures w.exercises == [] ==> FormatLine(w) == LinePrefix(w)
  {
    assert FormatLine(w) == LinePrefix(w) + Join(Details(w.exercises), ", ");
  }

  lemma PartShown(w: Workout, k: nat)
    requires k < |w.exercises|
    ensures OccursAt(ExerciseText(w.exercises[k]), FormatLine(w), PartStart(w, k))
  {
    var parts := Details(w.exercises);
    assert parts[k] == ExerciseText(w.exercises[k]);
    assert FormatLine(w) == LinePrefix(w) + Join(parts, ", ");
    JoinPartAt(parts, ", ", k);
    OccursAfter(parts[k], LinePrefix(w), Join(parts, ", "), JoinOffset(parts, ", ", k));
  }

  lemma SeparatorShown(w: Workout, k: nat)
    requires k + 1 < |w.exercises|
    ensures OccursAt(", ", FormatLine(w), PartEnd(w, k))
  {
    var parts := Details(w.exercises);
    assert parts[k] == ExerciseText(w.exercises[k]);
    assert FormatLine(w) == LinePrefix(w) + Join(parts, ", ");
    JoinSeparatorAt(parts, ", ", k);
    OccursAfter(", ", LinePrefix(w), Join(parts, ", "), JoinOffset(parts, ", ", k) + |parts[k]|);
  }

  lemma PartsInOrder(w: Workout, k: nat, l: nat)
    requires k < l < |w.exercises|
    ensures PartEnd(w, k) < PartStart(w, l)
  {
    var parts := Details(w.exercises);
    assert parts[k] == ExerciseText(w.exercises[k]);
    JoinOffsetOrdered(parts, ", ", k, l);
  }

  lemma LineEndsAfterLastPart(w: Workout)
    requires w.exercises != []
    ensures |FormatLine(w)| == PartEnd(w, |w.exercises| - 1)
  {
    var parts := Details(w.exercises);
    assert parts[|parts| - 1] == ExerciseText(w.exercises[|parts| - 1]);
    assert FormatLine(w) == LinePrefix(w) + Join(parts, ", ");
    JoinLength(parts, ", ");
  }

  // ---------------------------------------------------------------- the tracker

  /** The page's history state: the in-memory list and the storage it is written to. */
  class WorkoutTracker {
    var history: seq<Workout>
    const store: LocalStorage<Workout>

    /** The stored history equals the in-memory one (an absent key stands for the empty list). */
    predicate Synced()
      reads this, store
    {
      StoredOrEmpty(store.items, HistoryKey) == history
    }

    /** `let workoutHistory = JSON.parse(localStorage.getItem('workoutHistory')) || []` */
    constructor (store: LocalStorage<Workout>)
      ensures this.store == store
      ensures history == StoredOrEmpty(store.items, HistoryKey)
      ensures HistoryKey !in store.items ==> history == []
      ensures Synced()
    {
      this.store := store;
      var stored := store.GetItem(HistoryKey);
      history := if stored.Some? then stored.value else [];
    }

    /** `renderHistory()`: one line per record, in history order. */
    method RenderHistory() returns (lines: seq<string>)
      ensures |lines| == |history|
      ensures forall i :: 0 <= i < |history| ==> lines[i] == FormatLine(history[i])
    {
      lines := [];
      for i := 0 to |history|
        invariant |lines| == i
        invariant forall k :: 0 <= k < i ==> lines[k] == FormatLine(history[k])
      {
        lines := lines + [FormatLine(history[i])];
      }
    }

    /**
     * `logWorkout(day)` with the clock's date and time texts and the page's number inputs
     * by section id: appends one record, writes the history back, redraws it, and returns
     * the redrawn lines and the alert text.
     */
    method LogWorkout(day: string, date: string, time: string, page: map<string, seq<NumberInput>>)
      returns (lines: seq<string>, message: string)
      modifies this, store
      ensures history == old(history) + [Workout(day, date, time, Collected(InputsOf(page, SectionId(day))))]
      ensures store.items == old(store.items)[HistoryKey := history]
      ensures Synced()
      ensures |lines| == |history|
      ensures forall i :: 0 <= i < |history| ==> lines[i] == FormatLine(history[i])
      ensures message == "Workout for " + day + " logged!"
    {
      var sectionId := SectionId(day);
      var exercises := CollectExercises(InputsOf(page, sectionId));
      history := history + [Workout(day, date, time, exercises)];
      store.SetItem(HistoryKey, history);
      lines := RenderHistory();
      message := "Workout for " + day + " logged!";
    }
  }
}
