/**
 * The student-timetable routes (routes/studentTimetableRoutes.js): create
 * after an owner check, the owner-scoped list with optional grade, batch and
 * course filters, update by id and delete by id. The user collection is read
 * only, and is passed in as a snapshot of its documents.
 */
module StudentTimetableRoutes {
  import opened Wrappers
  import opened Seqs
  import opened Store
  import opened StudentTimetableModel
  import AuthRoutes

  const UserNotFound := "User not found"
  const CreateFailed := "Failed to create timetable entry"
  const UpdateFailed := "Failed to update timetable entry"
  const EntryNotFound := "Timetable entry not found"

  /** The Mongo query the list handler builds: the owner and the string paths that must match exactly. */
  datatype Query = Query(userId: Id, fields: map<Path, string>)

  predicate Matches(q: Query, e: Entry)
  {
    e.userId == q.userId && forall p :: p in q.fields ==> e.Get(p) == q.fields[p]
  }

  /** What the list promises: the owner's entries, each non-empty filter matched exactly. */
  predicate Listed(userId: Id, grade: string, batch: string, course: string, e: Entry)
  {
    && e.userId == userId
    && (grade == "" || e.grade == grade)
    && (batch == "" || e.batch == batch)
    && (course == "" || e.course == course)
  }

  /** A request body for an update: the string paths it carries, and the owner if it carries one. */
  datatype EntryPatch = EntryPatch(fields: map<Path, string>, userId: Option<Id>)

  /** The value a path takes after an update: the body's, when the body carries that path. */
  function Updated(e: Entry, fields: map<Path, string>, p: Path): string
  {
    if p in fields then fields[p] else e.Get(p)
  }

  /** `findByIdAndUpdate(id, body)`: the paths of the body overwrite the entry's. */
  function Merge(e: Entry, patch: EntryPatch): (r: Entry)
    ensures forall p :: r.Get(p) == if p in patch.fields then patch.fields[p] else e.Get(p)
    ensures r.userId == if patch.userId.Some? then patch.userId.value else e.userId
  {
    var f := patch.fields;
    Entry(
      Updated(e, f, Time), Updated(e, f, Day), Updated(e, f, Teacher), Updated(e, f, Subject),
      Updated(e, f, Venue), Updated(e, f, Grade), Updated(e, f, Batch), Updated(e, f, Course),
      if patch.userId.Some? then patch.userId.value else e.userId)
  }

  /** `runValidators`: the body passes the update validators when it clears no required path. */
  predicate ClearsNothing(patch: EntryPatch)
  {
    forall p :: p in patch.fields ==> patch.fields[p] != ""
  }

  /** An empty body changes nothing. */
  lemma MergeNothing(e: Entry)
    ensures Merge(e, EntryPatch(map[], None)) == e
  {
    EntryByPaths(Merge(e, EntryPatch(map[], None)), e);
  }

  /** A body that passes the update validators keeps a complete entry complete. */
  lemma MergeKeepsComplete(e: Entry, patch: EntryPatch)
    requires Complete(e) && ClearsNothing(patch)
    ensures Complete(Merge(e, patch))
  {
  }

  /** Merging the same body twice is merging it once. */
  lemma MergeIdempotent(e: Entry, patch: EntryPatch)
    ensures Merge(Merge(e, patch), patch) == Merge(e, patch)
  {
    EntryByPaths(Merge(Merge(e, patch), patch), Merge(e, patch));
  }

  /** The student-timetable collection. */
  class StudentTimetableStore {
    var entries: map<Id, Entry>
    var nextId: Id

    /** Ids are below the counter, and every stored entry passed the `required` validators. */
    ghost predicate Valid()
      reads this
    {
      IdsBelow(entries, nextId) && forall id :: id in entries ==> Complete(entries[id])
    }

    constructor()
      ensures Valid() && entries == map[]
    {
      entries := map[];
      nextId := 0;
    }

    /**
     * POST /: 403 when the owner is not a user; 500 when a required path is
     * missing; otherwise the entry is stored under a fresh id and returned.
     */
    method Create(accounts: map<Id, AuthRoutes.User>, e: Entry) returns (r: Response<Doc<Entry>>)
      requires Valid()
      modifies this
      ensures Valid()
      ensures e.userId !in accounts ==> r == Forbidden(UserNotFound) && entries == old(entries)
      ensures e.userId in accounts && !Complete(e) ==> r == ServerError(CreateFailed) && entries == old(entries)
      ensures e.userId in accounts && Complete(e) ==>
                && old(nextId) !in old(entries)
                && entries == old(entries)[old(nextId) := e]
                && r == Created(Doc(old(nextId), e))
    {
      if e.userId !in accounts {
        return Forbidden(UserNotFound);
      }
      if !(forall p :: e.Get(p) != "") {
        return ServerError(CreateFailed);
      }
      var id := nextId;
      entries := entries[id := e];
      nextId := nextId + 1;
      r := Created(Doc(id, e));
    }

    /**
     * GET /?userId&grade&batch&course: 403 when the owner is not a user;
     * otherwise the query starts from the owner and gains one exact match
     * per non-empty filter.
     */
    method List(accounts: map<Id, AuthRoutes.User>, userId: Id, grade: string, batch: string, course: string)
      returns (r: Response<seq<Doc<Entry>>>)
      requires Valid()
      ensures userId !in accounts ==> r == Forbidden(UserNotFound)
      ensures userId in accounts ==>
                r == Ok(Find(entries, nextId, (e: Entry) => Listed(userId, grade, batch, course, e)))
    {
      if userId !in accounts {
        return Forbidden(UserNotFound);
      }
      var query := Query(userId, map[]);
      if grade != "" {
        query := query.(fields := query.fields[Grade := grade]);
      }
      if batch != "" {
        query := query.(fields := query.fields[Batch := batch]);
      }
      if course != "" {
        query := query.(fields := query.fields[Course := course]);
      }
      assert query.fields.Keys <= {Grade, Batch, Course};
      assert Grade in query.fields <==> grade != "";
      assert Batch in query.fields <==> batch != "";
      assert Course in query.fields <==> course != "";
      assert grade != "" ==> query.fields[Grade] == grade;
      assert batch != "" ==> query.fields[Batch] == batch;
      assert course != "" ==> query.fields[Course] == course;
      FindSame(entries, nextId, (e: Entry) => Matches(query, e), (e: Entry) => Listed(userId, grade, batch, course, e));
      r := Ok(Find(entries, nextId, (e: Entry) => Matches(query, e)));
    }

    /**
     * PUT /:id: 500 when the body would clear a required path; 404 for a
     * missing entry; otherwise the body is merged into that entry alone.
     */
    method Update(id: Id, patch: EntryPatch) returns (r: Response<Doc<Entry>>)
      requires Valid()
      modifies this
      ensures Valid() && nextId == old(nextId)
      ensures !ClearsNothing(patch) ==> r == ServerError(UpdateFailed) && entries == old(entries)
      ensures ClearsNothing(patch) && id !in old(entries) ==> r == NotFound(EntryNotFound) && entries == old(entries)
      ensures ClearsNothing(patch) && id in old(entries) ==>
                && entries == old(entries)[id := Merge(old(entries)[id], patch)]
                && r == Ok(Doc(id, entries[id]))
    {
      if !(forall p :: p in patch.fields ==> patch.fields[p] != "") {
        return ServerError(UpdateFailed);
      }
      if id !in entries {
        return NotFound(EntryNotFound);
      }
      MergeKeepsComplete(entries[id], patch);
      var updated := Merge(entries[id], patch);
      entries := entries[id := updated];
      r := Ok(Doc(id, updated));
    }

    /** DELETE /:id: 404 for a missing entry; otherwise exactly that entry is removed. */
    method Delete(id: Id) returns (r: Response<string>)
      requires Valid()
      modifies this
      ensures Valid() && nextId == old(nextId)
      ensures id !in old(entries) ==> r == NotFound(EntryNotFound) && entries == old(entries)
      ensures id in old(entries) ==> r == Ok("Timetable entry deleted successfully") && entries == old(entries) - {id}
    {
      if id !in entries {
        return NotFound(EntryNotFound);
      }
      entries := entries - {id};
      r := Ok("Timetable entry deleted successfully");
    }
  }

  /** With no filter the list is every entry of the owner. */
  lemma NoFilterIsOwner(m: map<Id, Entry>, bound: nat, userId: Id)
    ensures Find(m, bound, (e: Entry) => Listed(userId, "", "", "", e))
         == Find(m, bound, (e: Entry) => e.userId == userId)
  {
    FindSame(m, bound, (e: Entry) => Listed(userId, "", "", "", e), (e: Entry) => e.userId == userId);
  }

  /** Adding a grade, batch or course filter to a list request can only drop entries, never add or reorder them. */
  lemma MoreFiltersFewerEntries(m: map<Id, Entry>, bound: nat, userId: Id,
                                grade: string, batch: string, course: string,
                                grade': string, batch': string, course': string)
    requires grade == "" || grade' == grade
    requires batch == "" || batch' == batch
    requires course == "" || course' == course
    ensures IsSubsequence(Find(m, bound, (e: Entry) => Listed(userId, grade', batch', course', e)),
                          Find(m, bound, (e: Entry) => Listed(userId, grade, batch, course, e)))
  {
    FindStricter(m, bound, (e: Entry) => Listed(userId, grade, batch, course, e),
                 (e: Entry) => Listed(userId, grade', batch', course', e));
  }

  /** A listed document is a stored entry that meets every filter, and every such entry is listed. */
  lemma ListedExactly(m: map<Id, Entry>, bound: nat, userId: Id, grade: string, batch: string, course: string, d: Doc<Entry>)
    requires IdsBelow(m, bound)
    ensures d in Find(m, bound, (e: Entry) => Listed(userId, grade, batch, course, e))
        <==> d.id in m && m[d.id] == d.data && Listed(userId, grade, batch, course, d.data)
  {
    FindMembers(m, bound, (e: Entry) => Listed(userId, grade, batch, course, e), d);
  }
}
