/**
 * The two list updates the pages apply to their local copy of a collection
 * after the server has answered: `list.filter((x) => x._id !== id)` after a
 * delete and `list.map((x) => x._id === id ? replacement : x)` after an update.
 */
module LocalLists {
  import opened Seqs
  import opened Store

  /** `(x) => x._id !== id` */
  function OtherId<T>(id: Id): Doc<T> -> bool
  {
    (d: Doc<T>) => d.id != id
  }

  /** The list after deleting `id`: the documents with other ids, in their order. */
  function RemoveById<T>(list: seq<Doc<T>>, id: Id): (r: seq<Doc<T>>)
    ensures forall i :: 0 <= i < |r| ==> r[i].id != id && r[i] in list
    ensures forall d :: d in list && d.id != id ==> d in r
  {
    Filter(list, OtherId(id))
  }

  /** Deleting keeps the order of the rest, and removes nothing else. */
  lemma RemoveKeepsOrder<T>(list: seq<Doc<T>>, id: Id)
    ensures IsSubsequence(RemoveById(list, id), list)
    ensures (forall d :: d in list ==> d.id != id) ==> RemoveById(list, id) == list
  {
    FilterIsSubsequence(list, OtherId(id));
    if forall d :: d in list ==> d.id != id {
      FilterAll(list, OtherId(id));
    }
  }

  /** Deleting the same id twice is deleting it once; deletions of two ids commute. */
  lemma RemoveTwice<T>(list: seq<Doc<T>>, a: Id, b: Id)
    ensures RemoveById(RemoveById(list, a), a) == RemoveById(list, a)
    ensures RemoveById(RemoveById(list, a), b) == RemoveById(RemoveById(list, b), a)
  {
    FilterAll(RemoveById(list, a), OtherId(a));
    FilterCommute(list, OtherId(a), OtherId(b));
  }

  /** The list after updating `id`: that document replaced, every other one and the length kept. */
  function ReplaceById<T>(list: seq<Doc<T>>, id: Id, replacement: Doc<T>): (r: seq<Doc<T>>)
    ensures |r| == |list|
    ensures forall i :: 0 <= i < |list| && list[i].id != id ==> r[i] == list[i]
    ensures forall i :: 0 <= i < |list| && list[i].id == id ==> r[i] == replacement
  {
    seq(|list|, i requires 0 <= i < |list| => if list[i].id == id then replacement else list[i])
  }

  /** Replacing is invisible once the id is deleted, and replacing an absent id changes nothing. */
  lemma {:induction false} ReplaceThenRemove<T>(list: seq<Doc<T>>, id: Id, replacement: Doc<T>)
    requires replacement.id == id
    ensures RemoveById(ReplaceById(list, id, replacement), id) == RemoveById(list, id)
    ensures (forall d :: d in list ==> d.id != id) ==> ReplaceById(list, id, replacement) == list
  {
    if list != [] {
      ReplaceThenRemove(list[1..], id, replacement);
      assert ReplaceById(list, id, replacement)[1..] == ReplaceById(list[1..], id, replacement);
    }
  }

  /** Replacing with the same document twice is replacing once. */
  lemma ReplaceTwice<T>(list: seq<Doc<T>>, id: Id, replacement: Doc<T>)
    requires replacement.id == id
    ensures ReplaceById(ReplaceById(list, id, replacement), id, replacement) == ReplaceById(list, id, replacement)
  {
  }
}
