/**
 * The batch routes (routes/batchRoutes.js): both handlers are open only to a
 * user whose role is exactly `'admin'`. The `Batch` schema is not part of this
 * model: a batch is the request body it was built from, and whether its save
 * fails is a parameter.
 */
module BatchRoutes {
  import opened Wrappers
  import opened Store
  import AuthRoutes

  const AdminRequired := "Admin access required"

  /** `new Batch(req.body)`: the whole body, keyed by field name. */
  datatype Batch = Batch(body: map<string, string>)

  /** `user && user.role === 'admin'`: the caller exists and its role is exactly `admin`. */
  predicate IsAdmin(accounts: map<Id, AuthRoutes.User>, userId: Id)
  {
    userId in accounts && accounts[userId].role == "admin"
  }

  /** The comparison is exact: no trimming and no case folding. */
  lemma AdminIsExact(accounts: map<Id, AuthRoutes.User>, userId: Id)
    requires userId in accounts
    requires accounts[userId].role in {"Admin", "ADMIN", " admin", "admin ", "administrator"}
    ensures !IsAdmin(accounts, userId)
  {
  }

  /** The batch collection. */
  class BatchStore {
    var batches: map<Id, Batch>
    var nextId: Id

    ghost predicate Valid()
      reads this
    {
      IdsBelow(batches, nextId)
    }

    constructor()
      ensures Valid() && batches == map[]
    {
      batches := map[];
      nextId := 0;
    }

    /**
     * POST /: 403 unless the caller is an admin; 400 with the save's message
     * when it fails; otherwise the batch built from the body is stored.
     */
    method Create(accounts: map<Id, AuthRoutes.User>, userId: Id, body: map<string, string>, saveError: Option<string>)
      returns (r: Response<Doc<Batch>>)
      requires Valid()
      modifies this
      ensures Valid()
      ensures !IsAdmin(accounts, userId) ==> r == Forbidden(AdminRequired) && batches == old(batches)
      ensures IsAdmin(accounts, userId) && saveError.Some? ==> r == BadRequest(saveError.value) && batches == old(batches)
      ensures IsAdmin(accounts, userId) && saveError.None? ==>
                && old(nextId) !in old(batches)
                && batches == old(batches)[old(nextId) := Batch(body)]
                && r == Created(Doc(old(nextId), Batch(body)))
    {
      if userId !in accounts || accounts[userId].role != "admin" {
        return Forbidden(AdminRequired);
      }
      if saveError.Some? {
        return BadRequest(saveError.value);
      }
      var id := nextId;
      batches := batches[id := Batch(body)];
      nextId := nextId + 1;
      r := Created(Doc(id, Batch(body)));
    }

    /** GET /: 403 unless the caller is an admin; otherwise every batch, in insertion order. */
    function List(accounts: map<Id, AuthRoutes.User>, userId: Id): (r: Response<seq<Doc<Batch>>>)
      reads this
      requires Valid()
      ensures !IsAdmin(accounts, userId) <==> r == Forbidden(AdminRequired)
      ensures IsAdmin(accounts, userId) ==> r.Ok?
      ensures r.Ok? ==> forall d :: d in r.body <==> d.id in batches && batches[d.id] == d.data
      ensures r.Ok? ==> forall i, j :: 0 <= i < j < |r.body| ==> r.body[i].id < r.body[j].id
    {
      if userId !in accounts || accounts[userId].role != "admin" then Forbidden(AdminRequired)
      else
        var all := InIdOrder(batches, nextId);
        assert forall d :: d in all ==> d.id in batches && batches[d.id] == d.data by {
          forall d | d in all ensures d.id in batches && batches[d.id] == d.data {
            var i :| 0 <= i < |all| && all[i] == d;
          }
        }
        Ok(all)
    }
  }
}
