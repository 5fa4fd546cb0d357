/**
 * app.js: the single-lift logger. A form submission is checked and stored under
 * `simpleStrengthLog_v1`, newest first; the logs tab shows one card per stored entry.
 */
module LiftLog {
  import opened Wrappers
  import opened JsText
  import opened Storage

  const AppStorageKey := "simpleStrengthLog_v1"

  const InvalidWeightMessage := "Please enter a valid weight."
  const EmptyLogsMessage := "No lifts logged yet. Get to it!"

  /**
   * A stored entry. `dayId` is `None` when `parseInt` gave `NaN` (stored as JSON `null`);
   * `id` and `timestamp` come from two separate clock readings.
   */
  datatype LogEntry = LogEntry(id: int, timestamp: int, dayId: Option<int>, exerciseName: string, maxWeight: real)

  function TimestampOf(e: LogEntry): int
  {
    e.timestamp
  }

  /**
   * The parsed form: `parseInt` of the day field and `parseFloat` of the weight field,
   * each `None` where the parse gives `NaN`.
   */
  datatype Submission = Submission(exerciseName: string, dayId: Option<int>, maxWeight: Option<real>)

  // ---------------------------------------------------------------- form

  /** `toggleButtonState`: the submit button is disabled while the weight text is blank. */
  function SubmitDisabled(weightText: string): (disabled: bool)
    ensures disabled <==> AllWhitespace(weightText)
  {
    TrimEmptyIffBlank(weightText);
    Trim(weightText) == ""
  }

  /** The submit handler's check and the entry it builds from the form and two clock readings. */
  function CheckSubmission(form: Submission, id: int, now: int): (r: Result<LogEntry, string>)
    ensures r.Failure? <==> form.maxWeight == None || form.maxWeight.value <= 0.0
    ensures r.Failure? ==> r.error == InvalidWeightMessage
    ensures r.Success? ==> r.value.maxWeight > 0.0 && Some(r.value.maxWeight) == form.maxWeight
    ensures r.Success? ==> r.value.exerciseName == form.exerciseName && r.value.dayId == form.dayId
    ensures r.Success? ==> r.value.id == id && r.value.timestamp == now
  {
    match form.maxWeight
    case None => Failure(InvalidWeightMessage)
    case Some(w) =>
      if w <= 0.0 then Failure(InvalidWeightMessage)
      else Success(LogEntry(id, now, form.dayId, form.exerciseName, w))
  }

  /** The toast shown after a successful save. */
  function LoggedMessage(e: LogEntry, showNumber: real -> string): (m: string)
    ensures |m| > |e.exerciseName| && m[..|e.exerciseName|] == e.exerciseName
    ensures m[|e.exerciseName|..] == " logged: " + showNumber(e.maxWeight) + " kg! \U{1F4AA}"
  {
    e.exerciseName + " logged: " + showNumber(e.maxWeight) + " kg! \U{1F4AA}"
  }

  // ---------------------------------------------------------------- store

  /** `getLogEntries()` */
  method GetLogEntries(store: LocalStorage<LogEntry>) returns (entries: seq<LogEntry>)
    ensures AppStorageKey !in store.items ==> entries == []
    ensures AppStorageKey in store.items ==> entries == store.items[AppStorageKey]
  {
    var stored := store.GetItem(AppStorageKey);
    entries := if stored.Some? then stored.value else [];
  }

  /** `saveLogEntry(entry)`: push, sort newest first, write back. */
  method SaveLogEntry(store: LocalStorage<LogEntry>, entry: LogEntry)
    modifies store
    ensures store.items
         == old(store.items)[AppStorageKey := SortNewestFirst(old(StoredOrEmpty(store.items, AppStorageKey)) + [entry], TimestampOf)]
  {
    var entries := GetLogEntries(store);
    entries := entries + [entry];
    entries := SortNewestFirst(entries, TimestampOf);
    store.SetItem(AppStorageKey, entries);
  }

  /** The submit handler up to the toast: a rejected form leaves the store as it was. */
  method Submit(store: LocalStorage<LogEntry>, form: Submission, id: int, now: int, showNumber: real -> string)
    returns (toast: string)
    modifies store
    ensures CheckSubmission(form, id, now).Failure? ==>
      store.items == old(store.items) && toast == InvalidWeightMessage
    ensures CheckSubmission(form, id, now).Success? ==>
      var entry := CheckSubmission(form, id, now).value;
      && store.items == old(store.items)[AppStorageKey := SortNewestFirst(old(StoredOrEmpty(store.items, AppStorageKey)) + [entry], TimestampOf)]
      && toast == LoggedMessage(entry, showNumber)
  {
    var checked := CheckSubmission(form, id, now);
    if checked.Failure? {
      return checked.error;
    }
    SaveLogEntry(store, checked.value);
    toast := LoggedMessage(checked.value, showNumber);
  }

  /** An accepted submission adds exactly its entry, keeps every earlier one and leaves the list newest first. */
  lemma AcceptedSubmissionStored(before: seq<LogEntry>, form: Submission, id: int, now: int)
    requires CheckSubmission(form, id, now).Success?
    ensures var entry := CheckSubmission(form, id, now).value;
      var after := SortNewestFirst(before + [entry], TimestampOf);
      && |after| == |before| + 1
      && multiset(after) == multiset(before) + multiset{entry}
      && (forall e :: e in before ==> e in after)
      && NewestFirst(after, TimestampOf)
      && entry.exerciseName == form.exerciseName && entry.dayId == form.dayId
      && Some(entry.maxWeight) == form.maxWeight
  {
    var entry := CheckSubmission(form, id, now).value;
    var after := SortNewestFirst(before + [entry], TimestampOf);
    AppendAndSort(before, entry, TimestampOf);
    forall e | e in before ensures e in after {
      assert e in multiset(before);
      assert e in multiset(after);
    }
  }

  // ---------------------------------------------------------------- logs tab

  /** The visible text of one log card: its header line and its body line. */
  datatype Card = Card(header: string, body: string)

  /** What the logs list shows: nothing when the container is missing, the empty state, or the cards. */
  datatype LogsView = NoContainer | EmptyState(message: string) | Cards(cards: seq<Card>)

  /** `${entry.dayId}` after the JSON round trip: a stored `NaN` day comes back as `null`. */
  function DayText(dayId: Option<int>): (t: string)
    ensures dayId.None? ==> t == "null"
    ensures dayId.Some? ==> ParseInt(t) == Some(dayId.value)
    ensures dayId.Some? && dayId.value >= 0 ==> AllDigits(t) && DigitsValue(t) == dayId.value
    ensures dayId.Some? && dayId.value >= 0 ==> t == NatToString(dayId.value)
  {
    match dayId
    case None => "null"
    case Some(d) =>
      IntToStringRoundTrip(d);
      if d >= 0 then NatToStringRoundTrip(d); IntToString(d) else IntToString(d)
  }

  /** The card for one entry; the date text and the number text come from the locale. */
  function CardFor(e: LogEntry, localeDate: int -> string, showNumber: real -> string): (c: Card)
    ensures c.header == localeDate(e.timestamp)
    ensures |c.body| >= |e.exerciseName| + 3
    ensures c.body[..|e.exerciseName|] == e.exerciseName
    ensures c.body[|c.body| - 3..] == " kg"
    ensures OccursAt(" (Day " + DayText(e.dayId) + "): ", c.body, |e.exerciseName|)
    ensures OccursAt(showNumber(e.maxWeight) + " kg", c.body, |c.body| - |showNumber(e.maxWeight)| - 3)
    ensures |c.body| == |e.exerciseName| + |" (Day " + DayText(e.dayId) + "): "| + |showNumber(e.maxWeight)| + 3
  {
    var middle := " (Day " + DayText(e.dayId) + "): ";
    var weight := showNumber(e.maxWeight) + " kg";
    var body := e.exerciseName + middle + weight;
    assert body[|e.exerciseName|..|e.exerciseName| + |middle|] == middle;
    assert body[|body| - |weight|..|body|] == weight;
    Card(localeDate(e.timestamp), body)
  }

  /** The `forEach` over the entries that appends one card per entry. */
  method CardsFor(entries: seq<LogEntry>, localeDate: int -> string, showNumber: real -> string)
    returns (cards: seq<Card>)
    ensures |cards| == |entries|
    ensures forall i :: 0 <= i < |entries| ==> cards[i] == CardFor(entries[i], localeDate, showNumber)
  {
    cards := [];
    for i := 0 to |entries|
      invariant |cards| == i
      invariant forall k :: 0 <= k < i ==> cards[k] == CardFor(entries[k], localeDate, showNumber)
    {
      cards := cards + [CardFor(entries[i], localeDate, showNumber)];
    }
  }

  /** `renderLogs()`: the stored entries projected onto the logs list. */
  method RenderLogs(store: LocalStorage<LogEntry>, containerPresent: bool, localeDate: int -> string, showNumber: real -> string)
    returns (view: LogsView)
    ensures var entries := StoredOrEmpty(store.items, AppStorageKey);
      && (!containerPresent ==> view == NoContainer)
      && (containerPresent && entries == [] ==> view == EmptyState(EmptyLogsMessage))
      && (containerPresent && entries != [] ==>
            && view.Cards?
            && |view.cards| == |entries|
            && forall i :: 0 <= i < |entries| ==> view.cards[i] == CardFor(entries[i], localeDate, showNumber))
  {
    if !containerPresent {
      return NoContainer;
    }
    var entries := GetLogEntries(store);
    assert entries == StoredOrEmpty(store.items, AppStorageKey);
    if |entries| == 0 {
      return EmptyState(EmptyLogsMessage);
    }
    var cards := CardsFor(entries, localeDate, showNumber);
    view := Cards(cards);
  }
}
