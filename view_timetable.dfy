/**
 * The weekly grid of the personal timetable (frontend/src/components/ViewTimetable.js):
 * one row per hourly slot, one cell per weekday holding the activity of the first
 * entry booked at exactly that slot and day, or `'-'`. The PDF export builds the
 * rows with loops; the on-screen table computes each cell with `some` and `find`.
 */
module ViewTimetable {
  import opened Wrappers
  import opened Seqs
  import opened TimetableModel

  /** The columns, Monday first. */
  const Days: seq<string> := ["Monday", "Tuesday", "Wednesday", "Thursday", "Friday", "Saturday", "Sunday"]

  /** The rows, from 8 AM to 6 PM. */
  const TimeSlots: seq<string> := [
    "8:00 AM - 9:00 AM", "9:00 AM - 10:00 AM", "10:00 AM - 11:00 AM", "11:00 AM - 12:00 PM",
    "12:00 PM - 1:00 PM", "1:00 PM - 2:00 PM", "2:00 PM - 3:00 PM", "3:00 PM - 4:00 PM",
    "4:00 PM - 5:00 PM", "5:00 PM - 6:00 PM"]

  const Empty := "-"

  /** `item.time === time && item.day === day` */
  predicate BookedAt(s: Slot, time: string, day: string)
  {
    s.time == time && s.day == day
  }

  /** `timetable.find(...)`, as the index of the first entry booked at the slot and day. */
  function FindBooked(entries: seq<Slot>, time: string, day: string): (r: Option<nat>)
    ensures r.Some? ==> r.value < |entries| && BookedAt(entries[r.value], time, day)
    ensures r.Some? ==> forall j :: 0 <= j < r.value ==> !BookedAt(entries[j], time, day)
    ensures r.None? ==> forall j :: 0 <= j < |entries| ==> !BookedAt(entries[j], time, day)
  {
    if entries == [] then None
    else if BookedAt(entries[0], time, day) then Some(0)
    else
      var rest := FindBooked(entries[1..], time, day);
      if rest.Some? then Some(rest.value + 1) else None
  }

  /** The PDF cell: `entry ? entry.activity : '-'`. */
  function Cell(entries: seq<Slot>, time: string, day: string): string
  {
    var found := FindBooked(entries, time, day);
    if found.Some? then entries[found.value].activity else Empty
  }

  /** `timetable.some(...)` */
  function AnyBooked(entries: seq<Slot>, time: string, day: string): (b: bool)
    ensures b <==> exists j :: 0 <= j < |entries| && BookedAt(entries[j], time, day)
  {
    if entries == [] then false
    else BookedAt(entries[0], time, day) || AnyBooked(entries[1..], time, day)
  }

  /** The on-screen cell: `some(...) ? find(...)?.activity : '-'`. */
  function ScreenCell(entries: seq<Slot>, time: string, day: string): string
  {
    if AnyBooked(entries, time, day) then
      var found := FindBooked(entries, time, day);
      if found.Some? then entries[found.value].activity else ""
    else Empty
  }

  /** The screen and the PDF show the same cell everywhere. */
  lemma ScreenMatchesPdf(entries: seq<Slot>, time: string, day: string)
    ensures ScreenCell(entries, time, day) == Cell(entries, time, day)
  {
    if AnyBooked(entries, time, day) {
      var j :| 0 <= j < |entries| && BookedAt(entries[j], time, day);
    }
  }

  /** The row for one slot: `const row = [time]; days.forEach((day) => row.push(...))`. */
  method PdfRow(entries: seq<Slot>, time: string) returns (row: seq<string>)
    ensures |row| == 1 + |Days| && row[0] == time
    ensures forall j :: 0 <= j < |Days| ==> row[j + 1] == Cell(entries, time, Days[j])
  {
    row := [time];
    for j := 0 to |Days|
      invariant |row| == 1 + j && row[0] == time
      invariant forall k :: 0 <= k < j ==> row[k + 1] == Cell(entries, time, Days[k])
    {
      row := row + [Cell(entries, time, Days[j])];
    }
  }

  /** `tableData`: one row per slot, in the listed order. */
  method TableData(entries: seq<Slot>) returns (rows: seq<seq<string>>)
    ensures |rows| == |TimeSlots|
    ensures forall i :: 0 <= i < |rows| ==> |rows[i]| == 1 + |Days| && rows[i][0] == TimeSlots[i]
    ensures forall i, j :: 0 <= i < |rows| && 0 <= j < |Days| ==> rows[i][j + 1] == Cell(entries, TimeSlots[i], Days[j])
  {
    rows := [];
    for i := 0 to |TimeSlots|
      invariant |rows| == i
      invariant forall k :: 0 <= k < i ==> |rows[k]| == 1 + |Days| && rows[k][0] == TimeSlots[k]
      invariant forall k, j :: 0 <= k < i && 0 <= j < |Days| ==> rows[k][j + 1] == Cell(entries, TimeSlots[k], Days[j])
    {
      var row := PdfRow(entries, TimeSlots[i]);
      rows := rows + [row];
    }
  }

  /** Without entries, every day cell is `'-'`. */
  lemma EmptyGrid(time: string, day: string)
    ensures Cell([], time, day) == Empty
  {
  }

  /** A cell shows the activity of an entry booked at exactly that slot and day, and of the first one. */
  lemma CellProvenance(entries: seq<Slot>, time: string, day: string)
    ensures Cell(entries, time, day) == Empty
         || exists i :: 0 <= i < |entries| && BookedAt(entries[i], time, day) && entries[i].activity == Cell(entries, time, day)
    ensures forall i :: (0 <= i < |entries| && BookedAt(entries[i], time, day) && entries[i].activity != Cell(entries, time, day)
                         ==> exists j :: 0 <= j < i && BookedAt(entries[j], time, day))
  {
    var found := FindBooked(entries, time, day);
    if found.Some? {
      assert BookedAt(entries[found.value], time, day);
      forall i | 0 <= i < |entries| && BookedAt(entries[i], time, day) && entries[i].activity != Cell(entries, time, day)
        ensures exists j :: 0 <= j < i && BookedAt(entries[j], time, day)
      {
        assert found.value != i && found.value < i;
      }
    }
  }

  /** The entry is booked at one of the listed slots and days. */
  predicate OnGrid(s: Slot)
  {
    s.time in TimeSlots && s.day in Days
  }

  /** Entries at a slot or day off the grid never show: the grid is the same without them. */
  lemma {:induction false} OffGridIgnored(entries: seq<Slot>, time: string, day: string)
    requires time in TimeSlots && day in Days
    ensures Cell(Filter(entries, OnGrid), time, day) == Cell(entries, time, day)
  {
    if entries != [] {
      OffGridIgnored(entries[1..], time, day);
      var kept := Filter(entries, OnGrid);
      if OnGrid(entries[0]) {
        assert kept == [entries[0]] + Filter(entries[1..], OnGrid);
        assert kept[1..] == Filter(entries[1..], OnGrid);
      } else {
        assert kept == Filter(entries[1..], OnGrid);
      }
    }
  }

  /** The first booking wins: appending an entry never changes a filled cell, and fills an empty one. */
  lemma {:induction false} AppendedEntry(entries: seq<Slot>, e: Slot, time: string, day: string)
    ensures FindBooked(entries, time, day).Some? ==> Cell(entries + [e], time, day) == Cell(entries, time, day)
    ensures FindBooked(entries, time, day).None? && BookedAt(e, time, day) ==> Cell(entries + [e], time, day) == e.activity
    ensures !BookedAt(e, time, day) ==> Cell(entries + [e], time, day) == Cell(entries, time, day)
  {
    if entries != [] {
      assert (entries + [e])[1..] == entries[1..] + [e];
      AppendedEntry(entries[1..], e, time, day);
    }
  }
}
