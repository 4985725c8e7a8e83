/**
 * The student-timetable form (frontend/src/components/CreateStudentTimetable.js):
 * the form data and the per-field error messages it edits one field at a time,
 * and the submission gate that posts only when every recorded error is empty.
 */
module CreateStudentTimetable {
  import opened Wrappers
  import opened SlotValidation
  import opened StudentTimetableModel

  /** The rule `handleChange` applies to a field. */
  predicate Accepts(p: Path, v: string)
  {
    match p
    case Time => IsValidTime(v)
    case Day => IsValidDay(v)
    case Teacher => IsValidTeacher(v)
    case Subject => IsValidSubject(v)
    case Venue => IsValidVenue(v)
    case Grade => IsValidGrade(v)
    case Batch => IsValidBatch(v)
    case Course => IsValidCourse(v)
  }

  const TimeComplaint := "Time must be in 12-hour range format (HH:MM AM/PM - HH:MM AM/PM, e.g., 10:00 AM - 11:00 AM)"
  const DayComplaint := "Please enter a valid day (e.g., Monday)"
  const TeacherComplaint := "Teacher name must be at least 2 characters and contain only letters and spaces"
  const SubjectComplaint := "Subject must be at least 2 characters and contain letters, numbers, and spaces"
  const VenueComplaint := "Venue must be at least 2 characters and contain letters, numbers, and spaces"
  const GradeComplaint := "Grade must be in format \"year Y semester S\" (e.g., year 1 semester 1, year 4 semester 2)"
  const BatchComplaint := "Batch must be in the format \"batch\" followed by a space and a number (e.g., batch 1, batch 2, batch 1.1)"
  const CourseComplaint := "Course must be at least 2 characters and contain letters, numbers, and spaces"

  /** The message recorded for a field whose value breaks its rule. */
  function Complaint(p: Path): (m: string)
    ensures m != ""
  {
    match p
    case Time => TimeComplaint
    case Day => DayComplaint
    case Teacher => TeacherComplaint
    case Subject => SubjectComplaint
    case Venue => VenueComplaint
    case Grade => GradeComplaint
    case Batch => BatchComplaint
    case Course => CourseComplaint
  }

  /** The error entry a change records: empty exactly when the value passes the field's rule. */
  function FieldError(p: Path, v: string): (e: string)
    ensures e == "" <==> Accepts(p, v)
    ensures e != "" ==> e == Complaint(p)
  {
    if Accepts(p, v) then "" else Complaint(p)
  }

  /** `Object.values(validationErrors).every((error) => error === '')` */
  predicate AllClear(errors: map<Path, string>)
  {
    forall p :: p in errors ==> errors[p] == ""
  }

  /** The gate reads every field's entry: scanning the fields in order decides it. */
  lemma AllClearByPaths(errors: map<Path, string>)
    requires forall p :: p in errors
    ensures AllClear(errors) <==> forall j :: 0 <= j < |Paths| ==> errors[Paths[j]] == ""
  {
    if forall j :: 0 <= j < |Paths| ==> errors[Paths[j]] == "" {
      forall p | p in errors ensures errors[p] == "" {
        var j := PathIndex(p);
        assert errors[Paths[j]] == "";
      }
    }
  }

  /** The body of the POST: `{ userId, ...formData }`, with `userId` as read from local storage. */
  datatype Submission = Submission(userId: Option<string>, fields: map<Path, string>)

  /** After a change, the gate is open only if the changed value passes its rule. */
  lemma ChangeGate(errors: map<Path, string>, p: Path, v: string)
    ensures AllClear(errors[p := FieldError(p, v)]) ==> Accepts(p, v)
    ensures AllClear(errors) && Accepts(p, v) ==> AllClear(errors[p := FieldError(p, v)])
    ensures !Accepts(p, v) ==> !AllClear(errors[p := FieldError(p, v)])
  {
    assert p in errors[p := FieldError(p, v)];
  }

  /** The form's state. */
  class Form {
    var formData: map<Path, string>
    var validationErrors: map<Path, string>

    /** Both records hold an entry for every field. */
    ghost predicate Valid()
      reads this
    {
      forall p :: p in formData && p in validationErrors
    }

    /** `useState` with every field and every error `''`. */
    constructor()
      ensures Valid()
      ensures forall p :: formData[p] == "" && validationErrors[p] == ""
    {
      formData := map p | p in Paths :: "";
      validationErrors := map p | p in Paths :: "";
      forall p ensures p in Paths {
        PathsListed(p, p);
      }
    }

    /** `handleChange`: the field takes the value, and only that field's error is recomputed. */
    method HandleChange(name: Path, value: string)
      requires Valid()
      modifies this
      ensures Valid()
      ensures formData == old(formData)[name := value]
      ensures validationErrors == old(validationErrors)[name := FieldError(name, value)]
    {
      formData := formData[name := value];
      validationErrors := validationErrors[name := FieldError(name, value)];
    }

    /** `handleSubmit`: scans the errors; posts `userId` with the form data only if all are empty. */
    method HandleSubmit(userId: Option<string>) returns (post: Option<Submission>)
      requires Valid()
      ensures post.Some? <==> AllClear(validationErrors)
      ensures post.Some? ==> post.value == Submission(userId, formData)
    {
      var allValid := true;
      var i := 0;
      while i < |Paths|
        invariant 0 <= i <= |Paths|
        invariant allValid <==> forall j :: 0 <= j < i ==> validationErrors[Paths[j]] == ""
      {
        if validationErrors[Paths[i]] != "" {
          allValid := false;
        }
        i := i + 1;
      }
      AllClearByPaths(validationErrors);
      if !allValid {
        return None;
      }
      return Some(Submission(userId, formData));
    }
  }

  /** An untouched form passes the gate: its fields are posted empty. */
  method UntouchedFormPosts(userId: Option<string>) returns (post: Option<Submission>)
    ensures post.Some? && post.value.userId == userId
    ensures forall p :: p in post.value.fields ==> post.value.fields[p] == ""
  {
    var form := new Form();
    post := form.HandleSubmit(userId);
  }

  /** A fresh form whose one change fails its check does not submit. */
  method FailingChangeBlocks(p: Path, bad: string, userId: Option<string>) returns (post: Option<Submission>)
    requires !Accepts(p, bad)
    ensures post.None?
  {
    var form := new Form();
    var before := form.validationErrors;
    form.HandleChange(p, bad);
    ChangeGate(before, p, bad);
    post := form.HandleSubmit(userId);
  }
}
