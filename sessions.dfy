/**
 * data.js: the session store under the key `v1_sessions` and the flattening of stored
 * sessions into spreadsheet rows with a fixed header.
 */
module Sessions {
  import opened Wrappers
  import opened JsText
  import opened Storage

  const SessionsKey := "v1_sessions"

  /**
   * A stored session: its creation time in milliseconds and every other field of the
   * record object by name (`dayId`, `bodyweight`, `set1`, `accessory_…`, …).
   */
  datatype Session = Session(timestamp: int, fields: map<string, Value>)

  function TimestampOf(s: Session): int
  {
    s.timestamp
  }

  /** `session[name]`: `undefined` for a field the record does not have. */
  function Field(s: Session, name: string): Value
  {
    if name in s.fields then s.fields[name] else Undefined
  }

  // ---------------------------------------------------------------- store

  /** `getSessions()` */
  method GetSessions(store: LocalStorage<Session>) returns (sessions: seq<Session>)
    ensures SessionsKey !in store.items ==> sessions == []
    ensures SessionsKey in store.items ==> sessions == store.items[SessionsKey]
  {
    var stored := store.GetItem(SessionsKey);
    sessions := if stored.Some? then stored.value else [];
  }

  /** `saveSession(sessionData)`: push, sort newest first, write back. */
  method SaveSession(store: LocalStorage<Session>, session: Session)
    modifies store
    ensures store.items
         == old(store.items)[SessionsKey := SortNewestFirst(old(StoredOrEmpty(store.items, SessionsKey)) + [session], TimestampOf)]
  {
    var sessions := GetSessions(store);
    sessions := sessions + [session];
    sessions := SortNewestFirst(sessions, TimestampOf);
    store.SetItem(SessionsKey, sessions);
  }

  /** What saveSession leaves under its key: one more session, newest first, ties in arrival order. */
  lemma SaveSessionResult(before: seq<Session>, session: Session)
    ensures var after := SortNewestFirst(before + [session], TimestampOf);
      && |after| == |before| + 1
      && multiset(after) == multiset(before) + multiset{session}
      && NewestFirst(after, TimestampOf)
      && WithTimestamp(after, TimestampOf, session.timestamp)
         == WithTimestamp(before, TimestampOf, session.timestamp) + [session]
  {
    AppendAndSort(before, session, TimestampOf);
  }

  // ---------------------------------------------------------------- dates and names

  /**
   * The local calendar fields of a `Date` as its getters report them:
   * `month` is zero-based as `getMonth()` returns it.
   */
  datatype DateTime = DateTime(year: int, month: int, date: int, hours: int, minutes: int)

  predicate ValidDateTime(d: DateTime)
  {
    0 <= d.month < 12 && 1 <= d.date <= 31 && 0 <= d.hours < 24 && 0 <= d.minutes < 60
  }

  /** The `YYYY-MM-DD HH:MM` text of the export's timestamp column. */
  function FormatTimestamp(d: DateTime): string
  {
    IntToString(d.year) + "-" + Pad2(d.month + 1) + "-" + Pad2(d.date) + " " + Pad2(d.hours) + ":" + Pad2(d.minutes)
  }

  /** Reads a `YYYY-MM-DD HH:MM` text back; the year may carry a minus sign. */
  function ParseTimestamp(s: string): Option<DateTime>
  {
    var n := |s|;
    if n >= 13 && s[n - 12] == '-' && s[n - 9] == '-' && s[n - 6] == ' ' && s[n - 3] == ':' then
      ParseFields(s[..n - 12], s[n - 11..n - 9], s[n - 8..n - 6], s[n - 5..n - 3], s[n - 2..])
    else None
  }

  function ParseFields(y: string, mo: string, da: string, h: string, mi: string): Option<DateTime>
  {
    if ParseInt(y).Some? && AllDigits(mo) && AllDigits(da) && AllDigits(h) && AllDigits(mi) then
      Some(DateTime(ParseInt(y).value, DigitsValue(mo) - 1, DigitsValue(da), DigitsValue(h), DigitsValue(mi)))
    else None
  }

  /** Where the pieces of a `Y-MM-DD HH:MM` text sit, counted from its end. */
  lemma TimestampLayout(y: string, mo: string, da: string, h: string, mi: string)
    requires |mo| == 2 && |da| == 2 && |h| == 2 && |mi| == 2
    ensures var s := y + "-" + mo + "-" + da + " " + h + ":" + mi;
      var n := |s|;
      && n == |y| + 12
      && s[n - 12] == '-' && s[n - 9] == '-' && s[n - 6] == ' ' && s[n - 3] == ':'
      && s[..n - 12] == y && s[n - 11..n - 9] == mo && s[n - 8..n - 6] == da
      && s[n - 5..n - 3] == h && s[n - 2..] == mi
  {
    var s := y + "-" + mo + "-" + da + " " + h + ":" + mi;
    var k := |y|;
    assert s == y + ['-', mo[0], mo[1], '-', da[0], da[1], ' ', h[0], h[1], ':', mi[0], mi[1]];
    assert s[k + 1..k + 3] == mo;
    assert s[k + 4..k + 6] == da;
    assert s[k + 7..k + 9] == h;
    assert s[k + 10..] == mi;
  }

  lemma ParseTimestampOfLayout(y: string, mo: string, da: string, h: string, mi: string)
    requires |mo| == 2 && |da| == 2 && |h| == 2 && |mi| == 2 && 1 <= |y|
    ensures ParseTimestamp(y + "-" + mo + "-" + da + " " + h + ":" + mi) == ParseFields(y, mo, da, h, mi)
  {
    TimestampLayout(y, mo, da, h, mi);
  }

  /** The export's timestamp text determines the date and time it was made from. */
  lemma FormatTimestampRoundTrip(d: DateTime)
    requires ValidDateTime(d)
    ensures ParseTimestamp(FormatTimestamp(d)) == Some(d)
  {
    var y, mo, da, h, mi := IntToString(d.year), Pad2(d.month + 1), Pad2(d.date), Pad2(d.hours), Pad2(d.minutes);
    ParseFieldsOfDate(d);
    assert FormatTimestamp(d) == y + "-" + mo + "-" + da + " " + h + ":" + mi;
    ParseTimestampOfLayout(y, mo, da, h, mi);
  }

  lemma ParseFieldsOfDate(d: DateTime)
    requires ValidDateTime(d)
    ensures |IntToString(d.year)| >= 1
    ensures |Pad2(d.month + 1)| == 2 && |Pad2(d.date)| == 2 && |Pad2(d.hours)| == 2 && |Pad2(d.minutes)| == 2
    ensures ParseFields(IntToString(d.year), Pad2(d.month + 1), Pad2(d.date), Pad2(d.hours), Pad2(d.minutes)) == Some(d)
  {
    Pad2Digits(d.month + 1);
    Pad2Digits(d.date);
    Pad2Digits(d.hours);
    Pad2Digits(d.minutes);
    IntToStringRoundTrip(d.year);
  }

  /** `Strength_Log_YYYYMMDD.xlsx` for the given day. */
  function ExportFileName(today: DateTime): string
  {
    "Strength_Log_" + IntToString(today.year) + Pad2(today.month + 1) + Pad2(today.date) + ".xlsx"
  }

  /** Where the date digits sit in the file name. */
  lemma ExportFileNameLayout(today: DateTime)
    requires today.year >= 0
    ensures var name := ExportFileName(today);
      && |name| >= 18
      && name[13..|name| - 5] == NatToString(today.year) + Pad2(today.month + 1) + Pad2(today.date)
      && name == "Strength_Log_" + name[13..|name| - 5] + ".xlsx"
  {
    var y, mo, da := NatToString(today.year), Pad2(today.month + 1), Pad2(today.date);
    assert IntToString(today.year) == y;
    SliceBetween(ExportFileName(today), "Strength_Log_", y, mo, da, ".xlsx");
  }

  /** The file name carries the date as the year's digits followed by four digits, the number year·10000 + month·100 + day. */
  lemma ExportFileNameDigits(today: DateTime)
    requires ValidDateTime(today) && today.year >= 0
    ensures var name := ExportFileName(today);
      var stamp := name[13..|name| - 5];
      && name == "Strength_Log_" + stamp + ".xlsx"
      && AllDigits(stamp)
      && |stamp| == |NatToString(today.year)| + 4
      && DigitsValue(stamp) == today.year * 10000 + (today.month + 1) * 100 + today.date
  {
    ExportFileNameLayout(today);
    var y, mo, da := NatToString(today.year), Pad2(today.month + 1), Pad2(today.date);
    Pad2Digits(today.month + 1);
    Pad2Digits(today.date);
    NatToStringRoundTrip(today.year);
    DigitsValueAppend(y, mo);
    DigitsValueAppend(y + mo, da);
    assert Power10(2) == 100;
    var yv, mv, dv := DigitsValue(y), DigitsValue(mo), DigitsValue(da);
    assert DigitsValue(y + mo) == yv * 100 + mv;
    assert DigitsValue(y + mo + da) == (yv * 100 + mv) * 100 + dv;
    DateStampArith(yv, mv, dv);
  }

  lemma SliceBetween(s: string, p: string, a: string, b: string, c: string, q: string)
    requires s == p + a + b + c + q
    ensures |s| == |p| + |a + b + c| + |q|
    ensures s[|p|..|s| - |q|] == a + b + c
    ensures s == p + s[|p|..|s| - |q|] + q
  {
    assert s == p + (a + b + c) + q;
  }

  lemma DateStampArith(y: int, m: int, d: int)
    ensures (y * 100 + m) * 100 + d == y * 10000 + m * 100 + d
  {
    calc {
      (y * 100 + m) * 100 + d;
      (y * 100) * 100 + m * 100 + d;
      y * 10000 + m * 100 + d;
    }
  }

  // ---------------------------------------------------------------- export rows

  /** One spreadsheet row: the row object's cells by property name. */
  type Row = map<string, Value>

  /** The property names of the row literal, in the order it lists them. */
  const BaseNames: seq<string> := [
    "timestamp", "dayId", "bodyweight", "mainWeight",
    "set1", "set2", "set3", "set4", "set5",
    "amrapReps", "rpe", "notes"]

  /** The base cells copied whenever the session defines them, `0` included. */
  const DefinedNames: seq<string> := ["bodyweight", "mainWeight", "set1", "set2", "set3", "set4", "set5"]

  /** The accessory cells added for a day-1 session, in assignment order. */
  const Day1Names: seq<string> := [
    "accessory_romanian_dl_weight", "accessory_romanian_dl_reps",
    "accessory_split_squat_weight", "accessory_split_squat_reps",
    "accessory_incline_db_press_weight", "accessory_incline_db_press_reps"]

  const Day2Names: seq<string> := [
    "accessory_overhead_press_weight", "accessory_overhead_press_reps",
    "accessory_pendlay_row_weight", "accessory_pendlay_row_reps",
    "accessory_weighted_pullups_weight", "accessory_weighted_pullups_reps",
    "accessory_rear_delt_fly_weight", "accessory_rear_delt_fly_reps"]

  const Day3Names: seq<string> := [
    "accessory_front_squat_weight", "accessory_front_squat_reps",
    "accessory_close_grip_bench_dips_weight", "accessory_close_grip_bench_dips_reps",
    "accessory_leg_press_weight", "accessory_leg_press_reps",
    "accessory_ez_bar_curl_weight", "accessory_ez_bar_curl_reps",
    "accessory_triceps_pushdown_weight", "accessory_triceps_pushdown_reps"]

  /** The explicit header handed to the sheet writer: column order and names. */
  const Header: seq<string> := [
    "timestamp", "dayId", "bodyweight", "mainWeight",
    "set1", "set2", "set3", "set4", "set5",
    "amrapReps", "rpe", "notes",
    "accessory_romanian_dl_weight", "accessory_romanian_dl_reps",
    "accessory_split_squat_weight", "accessory_split_squat_reps",
    "accessory_incline_db_press_weight", "accessory_incline_db_press_reps",
    "accessory_overhead_press_weight", "accessory_overhead_press_reps",
    "accessory_pendlay_row_weight", "accessory_pendlay_row_reps",
    "accessory_weighted_pullups_weight", "accessory_weighted_pullups_reps",
    "accessory_rear_delt_fly_weight", "accessory_rear_delt_fly_reps",
    "accessory_front_squat_weight", "accessory_front_squat_reps",
    "accessory_close_grip_bench_dips_weight", "accessory_close_grip_bench_dips_reps",
    "accessory_leg_press_weight", "accessory_leg_press_reps",
    "accessory_ez_bar_curl_weight", "accessory_ez_bar_curl_reps",
    "accessory_triceps_pushdown_weight", "accessory_triceps_pushdown_reps"]

  /** The accessory cells a row gets: decided by `dayId === 1`, `=== 2` or `=== 3`. */
  function AccessoryNames(dayId: Value): seq<string>
  {
    if dayId == Num(1.0) then Day1Names
    else if dayId == Num(2.0) then Day2Names
    else if dayId == Num(3.0) then Day3Names
    else []
  }

  /** The cell the row literal gives a base property. */
  function BaseCell(s: Session, name: string, localTime: int -> DateTime): (v: Value)
    ensures name == "timestamp" ==> v == Str(FormatTimestamp(localTime(s.timestamp)))
    ensures name == "dayId" ==> v == Field(s, "dayId")
    ensures name != "timestamp" ==> v == Field(s, name) || v == Str("")
    ensures name != "dayId" ==> v != Undefined
  {
    if name == "timestamp" then Str(FormatTimestamp(localTime(s.timestamp)))
    else if name == "dayId" then Field(s, "dayId")
    else if name == "amrapReps" || name == "rpe" then
      if Truthy(Field(s, "amrapCheckbox")) then DefinedOrEmpty(Field(s, name)) else Str("")
    else if name == "notes" then Or(Field(s, "notes"), Str(""))
    else DefinedOrEmpty(Field(s, name))
  }

  /** The row built for one session: the row literal, then the day's accessory assignments. */
  function BuildRow(s: Session, localTime: int -> DateTime): Row
  {
    var base := map name | name in BaseNames :: BaseCell(s, name, localTime);
    var accessories := map name | name in AccessoryNames(Field(s, "dayId")) :: Or(Field(s, name), Str(""));
    base + accessories
  }

  /** The property names of a row in insertion order. */
  function RowNames(dayId: Value): seq<string>
  {
    BaseNames + AccessoryNames(dayId)
  }

  predicate Distinct(s: seq<string>)
  {
    forall i, j :: 0 <= i < j < |s| ==> s[i] != s[j]
  }

  /**
   * The header position of a header name, or -1: decided by the length of the name and,
   * among names of one length, by one character where they differ.
   */
  function HeaderPosition(name: string): int
  {
    if |name| == 3 then 10
    else if |name| == 4 then
      if name[3] == '1' then 4 else if name[3] == '2' then 5 else if name[3] == '3' then 6
      else if name[3] == '4' then 7 else if name[3] == '5' then 8 else -1
    else if |name| == 5 then
      if name[0] == 'd' then 1 else if name[0] == 'n' then 11 else -1
    else if |name| == 9 then
      if name[0] == 't' then 0 else if name[0] == 'a' then 9 else -1
    else if |name| == 10 then
      if name[0] == 'b' then 2 else if name[0] == 'm' then 3 else -1
    else if |name| == 24 then 31
    else if |name| == 26 then
      if name[10] == 'r' then 13 else if name[10] == 's' then 15 else if name[10] == 'p' then 21
      else if name[10] == 'f' then 27 else if name[10] == 'l' then 30
      else if name[10] == 'e' then 33 else -1
    else if |name| == 28 then
      if name[12] == 'm' then 12 else if name[12] == 'l' then 14 else if name[12] == 'n' then 20
      else if name[12] == 'a' then 25 else if name[12] == 'o' then 26
      else if name[12] == '_' then 32 else -1
    else if |name| == 29 then 19
    else if |name| == 30 then 24
    else if |name| == 31 then
      if name[10] == 'i' then 17 else if name[10] == 'o' then 18 else if name[10] == 'w' then 23
      else if name[10] == 't' then 35 else -1
    else if |name| == 33 then
      if name[10] == 'i' then 16 else if name[10] == 'w' then 22 else if name[10] == 't' then 34 else -1
    else if |name| == 36 then 29
    else if |name| == 38 then 28
    else -1
  }

  lemma BasePositions()
    ensures forall i :: 0 <= i < |BaseNames| ==> HeaderPosition(BaseNames[i]) == i
  {
  }

  lemma Day1Positions()
    ensures forall i :: 0 <= i < |Day1Names| ==> HeaderPosition(Day1Names[i]) == 12 + i
  {
  }

  lemma Day2Positions()
    ensures forall i :: 0 <= i < |Day2Names| ==> HeaderPosition(Day2Names[i]) == 18 + i
  {
  }

  lemma Day3Positions()
    ensures forall i :: 0 <= i < |Day3Names| ==> HeaderPosition(Day3Names[i]) == 26 + i
  {
  }

  /** The header names no column twice. */
  lemma HeaderDistinct()
    ensures |Header| == 36
    ensures Distinct(Header)
  {
    HeaderLayout();
    BasePositions();
    Day1Positions();
    Day2Positions();
    Day3Positions();
    forall i | 0 <= i < |Header| ensures HeaderPosition(Header[i]) == i {
      if i < 12 {
        assert Header[i] == BaseNames[i];
      } else if i < 18 {
        assert Header[i] == Day1Names[i - 12];
      } else if i < 26 {
        assert Header[i] == Day2Names[i - 18];
      } else {
        assert Header[i] == Day3Names[i - 26];
      }
    }
    forall i, j | 0 <= i < j < |Header| ensures Header[i] != Header[j] {
      assert HeaderPosition(Header[i]) == i;
      assert HeaderPosition(Header[j]) == j;
    }
  }

  /** The row literal and the three accessory blocks are the header cut in four, in order. */
  lemma HeaderLayout()
    ensures Header == BaseNames + Day1Names + Day2Names + Day3Names
    ensures BaseNames == Header[..12] && Day1Names == Header[12..18]
    ensures Day2Names == Header[18..26] && Day3Names == Header[26..]
  {
  }

  /** A row lists its names in header order: the header's first twelve, then its own day's block. */
  lemma RowNamesFollowHeader(dayId: Value)
    ensures dayId == Num(1.0) ==> RowNames(dayId) == Header[..18]
    ensures dayId == Num(2.0) ==> RowNames(dayId) == Header[..12] + Header[18..26]
    ensures dayId == Num(3.0) ==> RowNames(dayId) == Header[..12] + Header[26..]
    ensures dayId != Num(1.0) && dayId != Num(2.0) && dayId != Num(3.0) ==> RowNames(dayId) == Header[..12]
  {
    HeaderLayout();
    assert Header[..18] == Header[..12] + Header[12..18];
  }

  lemma DistinctSlices(h: seq<string>, a: nat, b: nat)
    requires Distinct(h) && 12 <= a <= b <= |h|
    ensures Distinct(h[..12] + h[a..b])
  {
    var s := h[..12] + h[a..b];
    forall i, j | 0 <= i < j < |s| ensures s[i] != s[j] {
      var hi := if i < 12 then i else a + i - 12;
      var hj := if j < 12 then j else a + j - 12;
      assert s[i] == h[hi] && s[j] == h[hj];
    }
  }

  lemma {:induction false} DistinctCard(s: seq<string>)
    requires Distinct(s)
    ensures |set x | x in s| == |s|
  {
    if s != [] {
      var rest := s[1..];
      assert Distinct(rest) by {
        forall i, j | 0 <= i < j < |rest| ensures rest[i] != rest[j] {
          assert rest[i] == s[i + 1] && rest[j] == s[j + 1];
        }
      }
      DistinctCard(rest);
      assert (set x | x in s) == {s[0]} + (set x | x in rest);
      assert s[0] !in (set x | x in rest) by {
        forall j | 0 <= j < |rest| ensures rest[j] != s[0] {
          assert rest[j] == s[j + 1];
        }
      }
    }
  }

  /** A row never names a property twice, and every name it has is a header name. */
  lemma RowNamesDistinct(dayId: Value)
    ensures Distinct(RowNames(dayId))
    ensures forall name :: name in RowNames(dayId) ==> name in Header
    ensures |set name | name in RowNames(dayId)| == |RowNames(dayId)|
  {
    HeaderDistinct();
    RowNamesFollowHeader(dayId);
    var block :=
      if dayId == Num(1.0) then (12, 18)
      else if dayId == Num(2.0) then (18, 26)
      else if dayId == Num(3.0) then (26, 36)
      else (12, 12);
    var lo, hi := block.0, block.1;
    assert Header[..12] + Header[12..18] == Header[..18];
    assert Header[26..] == Header[26..36];
    assert RowNames(dayId) == Header[..12] + Header[lo..hi];
    DistinctSlices(Header, lo, hi);
    DistinctCard(RowNames(dayId));
  }

  lemma DistinctAppendDisjoint(a: seq<string>, b: seq<string>, x: string)
    requires Distinct(a + b) && x in a
    ensures x !in b
  {
    var i :| 0 <= i < |a| && a[i] == x;
    forall j | 0 <= j < |b| ensures b[j] != x {
      assert (a + b)[i] == x && (a + b)[|a| + j] == b[j];
    }
  }

  /** No accessory name repeats a base name, so the assignments never overwrite the literal's cells. */
  lemma AccessoriesAfterBase(dayId: Value, name: string)
    requires name in BaseNames
    ensures name !in AccessoryNames(dayId)
  {
    RowNamesDistinct(dayId);
    DistinctAppendDisjoint(BaseNames, AccessoryNames(dayId), name);
  }

  /** The cell a row holds under a name it has. */
  lemma BuildRowAt(s: Session, localTime: int -> DateTime, name: string)
    requires name in RowNames(Field(s, "dayId"))
    ensures name in BuildRow(s, localTime)
    ensures name in BaseNames ==> BuildRow(s, localTime)[name] == BaseCell(s, name, localTime)
    ensures name !in BaseNames ==> BuildRow(s, localTime)[name] == Or(Field(s, name), Str(""))
  {
    if name in BaseNames {
      AccessoriesAfterBase(Field(s, "dayId"), name);
    }
  }

  /**
   * A row holds exactly the base cells and its own day's accessory cells; every cell but the
   * timestamp is the session's own value or `''`, and only the day cell can be `undefined`.
   */
  lemma RowCells(s: Session, localTime: int -> DateTime)
    ensures var row := BuildRow(s, localTime);
      && row.Keys == set name | name in RowNames(Field(s, "dayId"))
      && (forall name :: name in row && name != "timestamp" ==> row[name] == Field(s, name) || row[name] == Str(""))
      && (forall name :: name in row && name != "dayId" ==> row[name] != Undefined)
  {
    var row := BuildRow(s, localTime);
    forall name | name in row
      ensures name != "timestamp" ==> row[name] == Field(s, name) || row[name] == Str("")
      ensures name != "dayId" ==> row[name] != Undefined
    {
      BuildRowAt(s, localTime, name);
    }
  }

  /** The exported timestamp cell is text from which the session's local date and time read back. */
  lemma TimestampCellReadsBack(s: Session, localTime: int -> DateTime)
    requires ValidDateTime(localTime(s.timestamp))
    ensures "timestamp" in BuildRow(s, localTime)
    ensures var cell := BuildRow(s, localTime)["timestamp"];
      cell.Str? && ParseTimestamp(cell.s) == Some(localTime(s.timestamp))
  {
    var d := localTime(s.timestamp);
    var text := FormatTimestamp(d);
    assert ParseTimestamp(text) == Some(d) by {
      FormatTimestampRoundTrip(d);
    }
    TimestampCell(s, localTime);
  }

  lemma TimestampCell(s: Session, localTime: int -> DateTime)
    ensures "timestamp" in BuildRow(s, localTime)
    ensures BuildRow(s, localTime)["timestamp"] == Str(FormatTimestamp(localTime(s.timestamp)))
  {
    assert "timestamp" == BaseNames[0];
    BuildRowAt(s, localTime, "timestamp");
  }

  /**
   * A row has the twelve base cells plus its own day's accessories:
   * 18 cells for day 1, 20 for day 2, 22 for day 3 and 12 for any other `dayId`.
   */
  lemma RowWidth(s: Session, localTime: int -> DateTime)
    ensures var row := BuildRow(s, localTime);
      var day := Field(s, "dayId");
      && (day == Num(1.0) ==> |row| == 18)
      && (day == Num(2.0) ==> |row| == 20)
      && (day == Num(3.0) ==> |row| == 22)
      && (day != Num(1.0) && day != Num(2.0) && day != Num(3.0) ==> |row| == 12)
  {
    var row := BuildRow(s, localTime);
    var names := RowNames(Field(s, "dayId"));
    RowCells(s, localTime);
    RowNamesDistinct(Field(s, "dayId"));
    var keys := set name | name in names;
    assert row.Keys == keys;
    assert |keys| == |names|;
    assert |row| == |row.Keys|;
    assert |names| == 12 + |AccessoryNames(Field(s, "dayId"))|;
  }

  /** The seven numeric base cells keep any defined value, `0` and `''` included. */
  lemma DefinedCells(s: Session, localTime: int -> DateTime, name: string)
    requires name in DefinedNames
    ensures Field(s, name) != Undefined ==> BuildRow(s, localTime)[name] == Field(s, name)
    ensures Field(s, name) == Undefined ==> BuildRow(s, localTime)[name] == Str("")
  {
    DefinedBaseCell(s, name, localTime);
    BuildRowAt(s, localTime, name);
  }

  lemma DefinedBaseCell(s: Session, name: string, localTime: int -> DateTime)
    requires name in DefinedNames
    ensures name in BaseNames && BaseCell(s, name, localTime) == DefinedOrEmpty(Field(s, name))
  {
    assert name != "timestamp" && name != "dayId" && name != "amrapReps" && name != "rpe" && name != "notes";
  }

  /** The AMRAP reps and RPE cells stay blank unless `amrapCheckbox` is truthy. */
  lemma AmrapCells(s: Session, localTime: int -> DateTime)
    ensures var row := BuildRow(s, localTime);
      && (!Truthy(Field(s, "amrapCheckbox")) ==> row["amrapReps"] == Str("") && row["rpe"] == Str(""))
      && (Truthy(Field(s, "amrapCheckbox")) ==>
            row["amrapReps"] == DefinedOrEmpty(Field(s, "amrapReps")) && row["rpe"] == DefinedOrEmpty(Field(s, "rpe")))
  {
    GatedCell(s, localTime, "amrapReps");
    GatedCell(s, localTime, "rpe");
  }

  lemma GatedCell(s: Session, localTime: int -> DateTime, name: string)
    requires name == "amrapReps" || name == "rpe"
    ensures name in BuildRow(s, localTime)
    ensures BuildRow(s, localTime)[name]
         == if Truthy(Field(s, "amrapCheckbox")) then DefinedOrEmpty(Field(s, name)) else Str("")
  {
    assert name in BaseNames;
    BuildRowAt(s, localTime, name);
  }

  /** Notes and the day's accessory cells keep truthy values only: `0`, `''` and absent become `''`. */
  lemma TruthyOnlyCells(s: Session, localTime: int -> DateTime, name: string)
    requires name == "notes" || name in AccessoryNames(Field(s, "dayId"))
    ensures Truthy(Field(s, name)) ==> BuildRow(s, localTime)[name] == Field(s, name)
    ensures !Truthy(Field(s, name)) ==> BuildRow(s, localTime)[name] == Str("")
  {
    var day := Field(s, "dayId");
    if name == "notes" {
      BuildRowAt(s, localTime, name);
    } else {
      assert name !in BaseNames by {
        if name in BaseNames {
          AccessoriesAfterBase(day, name);
          assert false;
        }
      }
      BuildRowAt(s, localTime, name);
    }
  }

  /** A zero is written out in a numeric base cell but blanked in an accessory cell. */
  lemma ZeroCells(s: Session, localTime: int -> DateTime, name: string)
    requires Field(s, name) == Num(0.0)
    ensures name in DefinedNames ==> BuildRow(s, localTime)[name] == Num(0.0)
    ensures name in AccessoryNames(Field(s, "dayId")) ==> BuildRow(s, localTime)[name] == Str("")
  {
    if name in DefinedNames {
      DefinedCells(s, localTime, name);
    }
    if name in AccessoryNames(Field(s, "dayId")) {
      TruthyOnlyCells(s, localTime, name);
    }
  }

  // ---------------------------------------------------------------- export

  const NoSessionsMessage := "No sessions to export."

  /** What `exportSessionsToExcel` hands to the sheet writer, or the alert it shows when there is nothing to export. */
  datatype ExportOutcome = NothingToExport(alert: string) | Workbook(header: seq<string>, rows: seq<Row>, fileName: string)

  /** The pure part of `exportSessionsToExcel`: stored sessions to header, rows and file name. */
  function ExportSessions(sessions: seq<Session>, localTime: int -> DateTime, today: DateTime): (r: ExportOutcome)
    ensures r.NothingToExport? <==> sessions == []
    ensures r.NothingToExport? ==> r.alert == NoSessionsMessage
    ensures r.Workbook? ==> r.header == Header && r.fileName == ExportFileName(today)
    ensures r.Workbook? ==> |r.rows| == |sessions|
    ensures r.Workbook? ==> forall i :: 0 <= i < |sessions| ==> r.rows[i] == BuildRow(sessions[i], localTime)
  {
    if |sessions| == 0 then NothingToExport(NoSessionsMessage)
    else
      var rows := seq(|sessions|, i requires 0 <= i < |sessions| => BuildRow(sessions[i], localTime));
      Workbook(Header, rows, ExportFileName(today))
  }

  /** Every cell of every exported row sits under a header name, and every row has all twelve base cells. */
  lemma ExportRowsFitHeader(sessions: seq<Session>, localTime: int -> DateTime, today: DateTime)
    requires sessions != []
    ensures var r := ExportSessions(sessions, localTime, today);
      && r.Workbook?
      && (forall i, name :: 0 <= i < |r.rows| && name in r.rows[i] ==> name in r.header)
      && (forall i, name :: 0 <= i < |r.rows| && name in BaseNames ==> name in r.rows[i])
  {
    var r := ExportSessions(sessions, localTime, today);
    forall i, name | 0 <= i < |r.rows| && name in r.rows[i] ensures name in r.header {
      RowCells(sessions[i], localTime);
      RowNamesDistinct(Field(sessions[i], "dayId"));
    }
    forall i, name | 0 <= i < |r.rows| && name in BaseNames ensures name in r.rows[i] {
      BuildRowAt(sessions[i], localTime, name);
    }
  }

  /** `exportSessionsToExcel()`, up to the sheet writer and the download. */
  method ExportSessionsToExcel(store: LocalStorage<Session>, localTime: int -> DateTime, today: DateTime)
    returns (r: ExportOutcome)
    ensures r == ExportSessions(StoredOrEmpty(store.items, SessionsKey), localTime, today)
  {
    var sessions := GetSessions(store);
    if |sessions| == 0 {
      return NothingToExport(NoSessionsMessage);
    }
    var rows := [];
    for i := 0 to |sessions|
      invariant |rows| == i
      invariant forall k :: 0 <= k < i ==> rows[k] == BuildRow(sessions[k], localTime)
    {
      rows := rows + [BuildRow(sessions[i], localTime)];
    }
    r := Workbook(Header, rows, ExportFileName(today));
  }
}
