/**
 * The `StudentTimetable` schema (models/StudentTimetable.js): eight required
 * string paths and a required reference to the owning user. The schema checks
 * presence only; it attaches no format rule to any path.
 */
module StudentTimetableModel {
  import opened Store
  import SlotValidation
  import Text

  /** The string paths of the schema, in declaration order. */
  datatype Path = Time | Day | Teacher | Subject | Venue | Grade | Batch | Course

  const Paths: seq<Path> := [Time, Day, Teacher, Subject, Venue, Grade, Batch, Course]

  /** The path's name as it appears in a document and in a request body. */
  function PathName(p: Path): string
  {
    match p
    case Time => "time"
    case Day => "day"
    case Teacher => "teacher"
    case Subject => "subject"
    case Venue => "venue"
    case Grade => "grade"
    case Batch => "batch"
    case Course => "course"
  }

  /** Every path is listed once, and distinct paths have distinct names. */
  lemma PathsListed(p: Path, q: Path)
    ensures p in Paths && |Paths| == 8
    ensures forall i, j :: 0 <= i < j < |Paths| ==> Paths[i] != Paths[j]
    ensures PathName(p) == PathName(q) ==> p == q
  {
    assert PathName(p)[0] != PathName(q)[0] || PathName(p)[1] != PathName(q)[1] || p == q;
  }

  /** Where a path stands in the declaration order. */
  function PathIndex(p: Path): (i: nat)
    ensures i < |Paths| && Paths[i] == p
  {
    match p
    case Time => 0
    case Day => 1
    case Teacher => 2
    case Subject => 3
    case Venue => 4
    case Grade => 5
    case Batch => 6
    case Course => 7
  }

  /** One timetable entry. An absent string path is the empty string. */
  datatype Entry = Entry(
    time: string, day: string, teacher: string, subject: string,
    venue: string, grade: string, batch: string, course: string,
    userId: Id)
  {
    /** The value at a string path. */
    function Get(p: Path): string
    {
      match p
      case Time => time
      case Day => day
      case Teacher => teacher
      case Subject => subject
      case Venue => venue
      case Grade => grade
      case Batch => batch
      case Course => course
    }

    /** `{ ...entry, [p]: v }`: the entry with one path overwritten. */
    function With(p: Path, v: string): (e: Entry)
      ensures e.Get(p) == v
      ensures forall q :: q != p ==> e.Get(q) == Get(q)
      ensures e.userId == userId
    {
      match p
      case Time => this.(time := v)
      case Day => this.(day := v)
      case Teacher => this.(teacher := v)
      case Subject => this.(subject := v)
      case Venue => this.(venue := v)
      case Grade => this.(grade := v)
      case Batch => this.(batch := v)
      case Course => this.(course := v)
    }
  }

  /** Two entries with the same owner and the same value at every path are the same entry. */
  lemma EntryByPaths(a: Entry, b: Entry)
    requires a.userId == b.userId
    requires forall p :: a.Get(p) == b.Get(p)
    ensures a == b
  {
    assert a.Get(Time) == b.Get(Time) && a.Get(Day) == b.Get(Day) && a.Get(Teacher) == b.Get(Teacher);
    assert a.Get(Subject) == b.Get(Subject) && a.Get(Venue) == b.Get(Venue) && a.Get(Grade) == b.Get(Grade);
    assert a.Get(Batch) == b.Get(Batch) && a.Get(Course) == b.Get(Course);
  }

  /** `required: true` on a String path: `undefined`, `null` and `''` all fail. */
  predicate Complete(e: Entry)
  {
    forall p :: e.Get(p) != ""
  }

  /** Presence is all the schema asks: a complete entry may hold values no form validator accepts. */
  lemma PresenceOnly(v: string, u: Id)
    requires v == "-"
    ensures Complete(Entry(v, v, v, v, v, v, v, v, u))
    ensures !SlotValidation.IsValidTime(v) && !SlotValidation.IsValidDay(v)
    ensures !SlotValidation.IsValidTeacher(v) && !SlotValidation.IsValidSubject(v) && !SlotValidation.IsValidCourse(v)
  {
    assert Text.Lower(v) == v;
  }
}
