/**
 * The `Timetable` schema (models/Timetable.js): a personal weekly entry with
 * three required strings and a required owner. There is no length limit and no
 * uniqueness constraint, so one slot may hold several entries.
 */
module TimetableModel {
  import opened Wrappers
  import Store
  import opened Text

  /** One personal timetable entry. An absent string path is `""`. */
  datatype Slot = Slot(time: string, day: string, activity: string, userId: Store.Id)

  /** The names of the required string paths that `s` leaves empty, in declaration order. */
  function Missing(s: Slot): (r: seq<string>)
    ensures r == [] <==> s.time != "" && s.day != "" && s.activity != ""
    ensures |r| <= 3
    ensures "time" in r <==> s.time == ""
    ensures "day" in r <==> s.day == ""
    ensures "activity" in r <==> s.activity == ""
  {
    (if s.time == "" then ["time"] else []) + (if s.day == "" then ["day"] else [])
      + (if s.activity == "" then ["activity"] else [])
  }

  /** `entry.save()`: fails exactly when a required path is empty, with Mongoose's message. */
  function ValidationError(s: Slot): (r: Option<string>)
    ensures r.None? <==> s.time != "" && s.day != "" && s.activity != ""
    ensures r.Some? ==> r.value == Store.RequiredError("Timetable", Missing(s))
  {
    if Missing(s) == [] then None else Some(Store.RequiredError("Timetable", Missing(s)))
  }

  /** A failed save reports every empty path, by name, as required. */
  lemma ValidationNamesMissing(s: Slot, path: string)
    requires (path == "time" && s.time == "") || (path == "day" && s.day == "") || (path == "activity" && s.activity == "")
    ensures ValidationError(s).Some?
    ensures Includes(ValidationError(s).value, Store.RequiredPhrase(path))
  {
    Store.RequiredErrorNames("Timetable", Missing(s), path);
  }

  /** The schema sets no length limit on `activity`. */
  lemma NoActivityLimit(s: Slot)
    requires s.time != "" && s.day != "" && |s.activity| > 50
    ensures ValidationError(s).None?
  {
  }
}
