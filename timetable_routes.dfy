/**
 * The personal-timetable routes (routes/timetableRoutes.js): create after an
 * owner check, and the owner-scoped list. The user collection is read only.
 */
module TimetableRoutes {
  import opened Wrappers
  import opened Store
  import opened TimetableModel
  import AuthRoutes

  const UserNotFound := "User not found"

  /** The personal-timetable collection. */
  class TimetableStore {
    var entries: map<Id, Slot>
    var nextId: Id

    /** Ids are below the counter, and every stored entry passed the `required` validators. */
    ghost predicate Valid()
      reads this
    {
      IdsBelow(entries, nextId) && forall id :: id in entries ==> ValidationError(entries[id]).None?
    }

    constructor()
      ensures Valid() && entries == map[]
    {
      entries := map[];
      nextId := 0;
    }

    /**
     * POST /: 404 when the owner is not a user; 400 with Mongoose's message when
     * a required path is empty; otherwise the entry is stored and returned.
     */
    method Create(accounts: map<Id, AuthRoutes.User>, s: Slot) returns (r: Response<Doc<Slot>>)
      requires Valid()
      modifies this
      ensures Valid()
      ensures s.userId !in accounts ==> r == NotFound(UserNotFound) && entries == old(entries)
      ensures s.userId in accounts && ValidationError(s).Some? ==>
                r == BadRequest(ValidationError(s).value) && entries == old(entries)
      ensures s.userId in accounts && ValidationError(s).None? ==>
                && old(nextId) !in old(entries)
                && entries == old(entries)[old(nextId) := s]
                && r == Created(Doc(old(nextId), s))
    {
      if s.userId !in accounts {
        return NotFound(UserNotFound);
      }
      var failure := ValidationError(s);
      if failure.Some? {
        return BadRequest(failure.value);
      }
      var id := nextId;
      entries := entries[id := s];
      nextId := nextId + 1;
      r := Created(Doc(id, s));
    }

    /** GET /?userId: 404 when the owner is not a user; otherwise exactly the owner's entries, in insertion order. */
    function List(accounts: map<Id, AuthRoutes.User>, userId: Id): (r: Response<seq<Doc<Slot>>>)
      reads this
      requires Valid()
      ensures userId !in accounts <==> r == NotFound(UserNotFound)
      ensures userId in accounts ==> r.Ok?
      ensures r.Ok? ==> forall d :: d in r.body <==> d.id in entries && entries[d.id] == d.data && d.data.userId == userId
      ensures r.Ok? ==> forall i, j :: 0 <= i < j < |r.body| ==> r.body[i].id < r.body[j].id
    {
      if userId !in accounts then NotFound(UserNotFound)
      else
        var found := Find(entries, nextId, (s: Slot) => s.userId == userId);
        FindOrdered(entries, nextId, (s: Slot) => s.userId == userId);
        assert forall d :: d in found <==> d.id in entries && entries[d.id] == d.data && d.data.userId == userId by {
          forall d ensures d in found <==> d.id in entries && entries[d.id] == d.data && d.data.userId == userId {
            FindMembers(entries, nextId, (s: Slot) => s.userId == userId, d);
          }
        }
        Ok(found)
    }
  }

  /** Nothing stops the same slot being booked twice: both entries are stored. */
  method SameSlotTwice(store: TimetableStore, accounts: map<Id, AuthRoutes.User>, s: Slot)
    returns (first: Response<Doc<Slot>>, second: Response<Doc<Slot>>)
    requires store.Valid() && s.userId in accounts && ValidationError(s).None?
    modifies store
    ensures first.Created? && second.Created? && first.body.id != second.body.id
    ensures first.body.id in store.entries && second.body.id in store.entries
    ensures store.entries[first.body.id] == store.entries[second.body.id] == s
  {
    first := store.Create(accounts, s);
    second := store.Create(accounts, s);
  }
}
