/**
 * What every collection of the document database shares: document ids, stored
 * documents, the handlers' HTTP responses, the insertion-ordered listing that
 * `Model.find()` returns, and the message of a failed `required` validation.
 */
module Store {
  import opened Seqs
  import opened Wrappers
  import opened Text

  /** A document `_id`. Ids are issued in increasing order, so id order is insertion order. */
  type Id = nat

  /** A stored document: its `_id` and its fields. */
  datatype Doc<T> = Doc(id: Id, data: T)

  /** A route handler's reply: a JSON body, or `{ message }` with an error status. */
  datatype Response<T> =
    | Ok(body: T)
    | Created(body: T)
    | BadRequest(message: string)
    | Forbidden(message: string)
    | NotFound(message: string)
    | ServerError(message: string)
  {
    /** The HTTP status code sent with the reply. */
    function Status(): int
    {
      match this
      case Ok(_) => 200
      case Created(_) => 201
      case BadRequest(_) => 400
      case Forbidden(_) => 403
      case NotFound(_) => 404
      case ServerError(_) => 500
    }
  }

  /** Every id in use is below the next id to be issued. */
  predicate IdsBelow<T>(m: map<Id, T>, bound: nat)
  {
    forall id :: id in m ==> id < bound
  }

  /** `Model.find()`: the documents of `m` with id below `bound`, in ascending id order. */
  function InIdOrder<T>(m: map<Id, T>, bound: nat): (r: seq<Doc<T>>)
    ensures forall i :: 0 <= i < |r| ==> r[i].id < bound && r[i].id in m && m[r[i].id] == r[i].data
    ensures forall id :: id < bound && id in m ==> Doc(id, m[id]) in r
    ensures forall i, j :: 0 <= i < j < |r| ==> r[i].id < r[j].id
  {
    if bound == 0 then []
    else InIdOrder(m, bound - 1) + (if bound - 1 in m then [Doc(bound - 1, m[bound - 1])] else [])
  }

  /** `Model.find(query)`: the listing restricted to the documents whose fields satisfy `query`. */
  function Find<T>(m: map<Id, T>, bound: nat, query: T -> bool): seq<Doc<T>>
  {
    Filter(InIdOrder(m, bound), OnData(query))
  }

  /** A test on a document's fields, as a test on the document. */
  function OnData<T>(query: T -> bool): Doc<T> -> bool
  {
    (d: Doc<T>) => query(d.data)
  }

  /** Queries that agree on every stored document find the same documents. */
  lemma FindSame<T>(m: map<Id, T>, bound: nat, p: T -> bool, q: T -> bool)
    requires forall id :: id in m ==> (p(m[id]) <==> q(m[id]))
    ensures Find(m, bound, p) == Find(m, bound, q)
  {
    FilterSame(InIdOrder(m, bound), OnData(p), OnData(q));
  }

  /** A stricter query finds a subsequence of what the looser one finds. */
  lemma FindStricter<T>(m: map<Id, T>, bound: nat, p: T -> bool, q: T -> bool)
    requires forall id :: id in m && q(m[id]) ==> p(m[id])
    ensures IsSubsequence(Find(m, bound, q), Find(m, bound, p))
  {
    FilterStricter(InIdOrder(m, bound), OnData(p), OnData(q));
  }

  /** A document is found exactly when it is stored and its fields satisfy the query. */
  lemma FindMembers<T>(m: map<Id, T>, bound: nat, query: T -> bool, d: Doc<T>)
    requires IdsBelow(m, bound)
    ensures d in Find(m, bound, query) <==> d.id in m && m[d.id] == d.data && query(d.data)
  {
    var s := InIdOrder(m, bound);
    if d in Find(m, bound, query) {
      var i :| 0 <= i < |Find(m, bound, query)| && Find(m, bound, query)[i] == d;
      assert d in s;
    }
    if d.id in m && m[d.id] == d.data && query(d.data) {
      assert Doc(d.id, m[d.id]) in s;
    }
  }

  /** Found documents come in ascending id order. */
  lemma FindOrdered<T>(m: map<Id, T>, bound: nat, query: T -> bool)
    ensures forall i, j :: 0 <= i < j < |Find(m, bound, query)| ==> Find(m, bound, query)[i].id < Find(m, bound, query)[j].id
  {
    var s := InIdOrder(m, bound);
    FilterIsSubsequence(s, OnData(query));
    SubsequenceOrdered(Find(m, bound, query), s);
  }

  /** A subsequence of an id-ordered listing is id-ordered. */
  lemma {:induction false} SubsequenceOrdered<T>(a: seq<Doc<T>>, b: seq<Doc<T>>)
    requires IsSubsequence(a, b)
    requires forall i, j :: 0 <= i < j < |b| ==> b[i].id < b[j].id
    ensures forall i, j :: 0 <= i < j < |a| ==> a[i].id < a[j].id
    decreases |b|
  {
    if a != [] && b != [] {
      if a[0] == b[0] && IsSubsequence(a[1..], b[1..]) {
        SubsequenceOrdered(a[1..], b[1..]);
        SubsequenceMembers(a[1..], b[1..]);
        forall j | 0 < j < |a| ensures a[0].id < a[j].id {
          assert a[j] == a[1..][j - 1] && a[j] in a[1..];
          var k :| 0 <= k < |b[1..]| && b[1..][k] == a[j];
          assert b[k + 1] == a[j];
        }
      } else {
        SubsequenceOrdered(a, b[1..]);
      }
    }
  }

  /** `Model.findOne(query)`: the id of the first document, in id order, whose fields satisfy `query`. */
  function First<T>(m: map<Id, T>, bound: nat, query: T -> bool): (r: Option<Id>)
    ensures r.Some? ==> r.value in m && r.value < bound && query(m[r.value])
    ensures r.Some? ==> forall id :: id in m && id < r.value ==> !query(m[id])
    ensures r.None? ==> forall id :: id in m && id < bound ==> !query(m[id])
  {
    if bound == 0 then None
    else
      var earlier := First(m, bound - 1, query);
      if earlier.Some? then earlier
      else if bound - 1 in m && query(m[bound - 1]) then Some(bound - 1)
      else None
  }

  /** `findOne` looks only below its bound: maps that agree there give the same answer. */
  lemma {:induction false} FirstAgrees<T>(m: map<Id, T>, n: map<Id, T>, bound: nat, query: T -> bool)
    requires forall id :: id < bound ==> (id in m <==> id in n)
    requires forall id :: id < bound && id in m ==> m[id] == n[id]
    ensures First(m, bound, query) == First(n, bound, query)
  {
    if bound > 0 {
      FirstAgrees(m, n, bound - 1, query);
    }
  }

  /** A document inserted at the next id, when no earlier one matches, is the first match. */
  lemma FirstAfterInsert<T>(m: map<Id, T>, bound: nat, v: T, query: T -> bool)
    requires IdsBelow(m, bound)
    requires First(m, bound, query).None? && query(v)
    ensures First(m[bound := v], bound + 1, query) == Some(bound)
  {
    FirstAgrees(m, m[bound := v], bound, query);
  }

  /** A listing holds each document once. */
  lemma InIdOrderUnique<T>(m: map<Id, T>, bound: nat, i: int, j: int)
    requires 0 <= i < |InIdOrder(m, bound)| && 0 <= j < |InIdOrder(m, bound)|
    requires InIdOrder(m, bound)[i].id == InIdOrder(m, bound)[j].id
    ensures i == j
  {
  }

  /** What a failed `required` validation says about one path. */
  function RequiredPhrase(path: string): string
  {
    "Path `" + path + "` is required."
  }

  /** `<Model> validation failed: ` and then, for each missing path, `<path>: Path `<path>` is required.` */
  function RequiredError(model: string, missing: seq<string>): (msg: string)
    ensures |msg| > |model| && msg[..|model|] == model
  {
    model + " validation failed: " + JoinRequired(missing)
  }

  function JoinRequired(missing: seq<string>): string
  {
    if missing == [] then ""
    else if |missing| == 1 then missing[0] + ": " + RequiredPhrase(missing[0])
    else missing[0] + ": " + RequiredPhrase(missing[0]) + ", " + JoinRequired(missing[1..])
  }

  /** The joined list says of every missing path that it is required. */
  lemma {:induction false} JoinNames(missing: seq<string>, i: nat)
    requires i < |missing|
    ensures Occurs(RequiredPhrase(missing[i]), JoinRequired(missing))
    decreases |missing|
  {
    var head := missing[0] + ": ";
    var phrase := RequiredPhrase(missing[0]);
    if |missing| == 1 {
      OccursIn(head, phrase, "");
      assert head + phrase + "" == JoinRequired(missing);
    } else if i == 0 {
      var rest := ", " + JoinRequired(missing[1..]);
      OccursIn(head, phrase, rest);
      assert head + phrase + rest == JoinRequired(missing);
    } else {
      JoinNames(missing[1..], i - 1);
      assert missing[1..][i - 1] == missing[i];
      OccursWithin(RequiredPhrase(missing[i]), head + phrase + ", ", JoinRequired(missing[1..]), "");
      assert head + phrase + ", " + JoinRequired(missing[1..]) + "" == JoinRequired(missing);
    }
  }

  /** The message reports every missing path as required. */
  lemma RequiredErrorNames(model: string, missing: seq<string>, path: string)
    requires path in missing
    ensures Includes(RequiredError(model, missing), RequiredPhrase(path))
  {
    var i :| 0 <= i < |missing| && missing[i] == path;
    JoinNames(missing, i);
    OccursWithin(RequiredPhrase(path), model + " validation failed: ", JoinRequired(missing), "");
    assert model + " validation failed: " + JoinRequired(missing) + "" == RequiredError(model, missing);
    IncludesIsOccurs(RequiredError(model, missing), RequiredPhrase(path));
  }
}
