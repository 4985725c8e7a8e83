/**
 * The personal-timetable planner (frontend/src/components/CreateTimetable.js):
 * a day, a slot and an activity chosen in a form, the submission gate, and the
 * local list that grows by the saved entry. The offered days and slots are the
 * grid's own lists.
 */
module CreateTimetable {
  import opened Wrappers
  import opened Store
  import opened TimetableModel
  import ViewTimetable

  /** The form's three inputs. */
  datatype Field = DayField | TimeField | ActivityField

  const ActivityMaxLength := 50
  const FieldsRequired := "All fields are required, and you must be logged in"
  const AddFailed := "Failed to add timetable entry"

  /** The activity box holds at most `maxLength` characters. */
  function ActivityInput(v: string): (r: string)
    ensures |r| <= ActivityMaxLength && |r| <= |v|
    ensures r == v[..|r|]
    ensures |v| <= ActivityMaxLength ==> r == v
  {
    if |v| <= ActivityMaxLength then v else v[..ActivityMaxLength]
  }

  /** The POST body: `{ userId, day, time, activity }`. */
  datatype Posted = Posted(userId: string, day: string, time: string, activity: string)

  /** What the POST comes back with: the saved entry, or a failure with the server's message (`""` for none). */
  datatype AddOutcome = Saved(entry: Doc<Slot>) | Failed(serverMessage: string)

  /** The planner page's state. */
  class Planner {
    var day: string
    var time: string
    var activity: string
    var timetable: seq<Doc<Slot>>
    var success: bool
    var error: string

    /** `useState({ day: '', time: '', activity: '' })` and an empty list, as loaded. */
    constructor(loaded: seq<Doc<Slot>>)
      ensures day == "" && time == "" && activity == ""
      ensures timetable == loaded && !success && error == ""
    {
      day, time, activity := "", "", "";
      timetable := loaded;
      success := false;
      error := "";
    }

    /** `disabled={!formData.day || !formData.time || !formData.activity}` */
    predicate SubmitDisabled()
      reads this
    {
      day == "" || time == "" || activity == ""
    }

    /** `handleChange`: the named input takes the value; the activity box keeps at most 50 characters. */
    method HandleChange(name: Field, value: string)
      modifies this
      ensures name == DayField ==> day == value && time == old(time) && activity == old(activity)
      ensures name == TimeField ==> time == value && day == old(day) && activity == old(activity)
      ensures name == ActivityField ==> activity == ActivityInput(value) && day == old(day) && time == old(time)
      ensures timetable == old(timetable) && success == old(success) && error == old(error)
    {
      match name
      case DayField => day := value;
      case TimeField => time := value;
      case ActivityField => activity := ActivityInput(value);
    }

    /**
     * `handleSubmit`: posts only when the three inputs and the stored user id
     * are all non-empty. A saved entry is appended and the form is cleared; a
     * failure shows the server's message or a fallback.
     */
    method HandleSubmit(userId: Option<string>, outcome: AddOutcome) returns (post: Option<Posted>)
      modifies this
      ensures post.Some? <==> !old(SubmitDisabled()) && userId.Some? && userId.value != ""
      ensures post.None? ==>
                && error == FieldsRequired
                && day == old(day) && time == old(time) && activity == old(activity)
                && timetable == old(timetable) && success == old(success)
      ensures post.Some? ==> post.value == Posted(userId.value, old(day), old(time), old(activity))
      ensures post.Some? && outcome.Saved? ==>
                && timetable == old(timetable) + [outcome.entry]
                && success && error == ""
                && day == "" && time == "" && activity == ""
      ensures post.Some? && outcome.Failed? ==>
                && timetable == old(timetable) && !success
                && error == (if outcome.serverMessage != "" then outcome.serverMessage else AddFailed)
                && day == old(day) && time == old(time) && activity == old(activity)
    {
      if day != "" && time != "" && activity != "" && userId.Some? && userId.value != "" {
        post := Some(Posted(userId.value, day, time, activity));
        match outcome
        case Saved(entry) =>
          timetable := timetable + [entry];
          success := true;
          day, time, activity := "", "", "";
          error := "";
        case Failed(message) =>
          error := if message != "" then message else AddFailed;
          success := false;
      } else {
        post := None;
        error := FieldsRequired;
      }
    }
  }

  /** The entries of a local list, without their ids. */
  function Entries(docs: seq<Doc<Slot>>): (r: seq<Slot>)
    ensures |r| == |docs| && forall i :: 0 <= i < |docs| ==> r[i] == docs[i].data
  {
    seq(|docs|, i requires 0 <= i < |docs| => docs[i].data)
  }

  /**
   * A planned entry at a free slot and day shows in the grid after it is
   * saved; every earlier cell stays as it was.
   */
  method PlanShows(planner: Planner, userId: string, saved: Doc<Slot>) returns (post: Option<Posted>)
    requires !planner.SubmitDisabled() && userId != ""
    requires saved.data == Slot(planner.time, planner.day, planner.activity, saved.data.userId)
    requires ViewTimetable.FindBooked(Entries(planner.timetable), planner.time, planner.day).None?
    modifies planner
    ensures post.Some?
    ensures ViewTimetable.Cell(Entries(planner.timetable), saved.data.time, saved.data.day) == saved.data.activity
  {
    var before := planner.timetable;
    post := planner.HandleSubmit(Some(userId), Saved(saved));
    assert Entries(planner.timetable) == Entries(before) + [saved.data];
    ViewTimetable.AppendedEntry(Entries(before), saved.data, saved.data.time, saved.data.day);
  }
}
