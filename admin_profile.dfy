/**
 * The admin page's user list (frontend/src/components/AdminProfile.js): the
 * full list as loaded, the list the search leaves, and the updates of both
 * after a user is deleted.
 */
module AdminProfile {
  import opened Seqs
  import opened Text
  import opened Store
  import opened LocalLists
  import AuthRoutes

  const Deleted := "User deleted successfully"
  const DeleteFailed := "Error deleting user"

  /** The search test on an already lower-cased query: it occurs in the lower-cased email or role. */
  predicate UserMatches(u: AuthRoutes.User, query: string)
  {
    Includes(Lower(u.email), query) || Includes(Lower(u.role), query)
  }

  function UserTest(query: string): Doc<AuthRoutes.User> -> bool
  {
    (d: Doc<AuthRoutes.User>) => UserMatches(d.data, query)
  }

  /** What `handleSearch` shows for a lower-cased query: everyone for `''`, else the matching users in order. */
  function Search(users: seq<Doc<AuthRoutes.User>>, query: string): (r: seq<Doc<AuthRoutes.User>>)
    ensures query == "" ==> r == users
    ensures forall i :: 0 <= i < |r| ==> r[i] in users && UserMatches(r[i].data, query)
    ensures forall d :: d in users && UserMatches(d.data, query) ==> d in r
  {
    if query == "" then
      forall d | d in users ensures UserMatches(d.data, query) {
        IncludesEmpty(Lower(d.data.email));
      }
      users
    else Filter(users, UserTest(query))
  }

  /** Deleting from the full list and from the search result agree: the result stays the search over the list. */
  lemma SearchAfterRemove(users: seq<Doc<AuthRoutes.User>>, query: string, id: Id)
    ensures RemoveById(Search(users, query), id) == Search(RemoveById(users, id), query)
  {
    if query != "" {
      FilterCommute(users, UserTest(query), OtherId(id));
    }
  }

  /** The search result keeps the list order. */
  lemma SearchIsSubsequence(users: seq<Doc<AuthRoutes.User>>, query: string)
    ensures IsSubsequence(Search(users, query), users)
  {
    if query == "" {
      SubsequenceReflexive(users);
    } else {
      FilterIsSubsequence(users, UserTest(query));
    }
  }

  /** How a delete request ends: success, or a failure with the server's message (`""` for none). */
  datatype DeleteOutcome = Removed | Failed(serverMessage: string)

  /** The page's state. */
  class AdminPage {
    var users: seq<Doc<AuthRoutes.User>>
    var filteredUsers: seq<Doc<AuthRoutes.User>>
    var searchQuery: string
    var success: string
    var error: string

    /** The shown list is the search over the full list. */
    ghost predicate Consistent()
      reads this
    {
      filteredUsers == Search(users, searchQuery)
    }

    /** `setUsers(response.data); setFilteredUsers(response.data)` */
    constructor(loaded: seq<Doc<AuthRoutes.User>>)
      ensures Consistent()
      ensures users == loaded && filteredUsers == loaded && searchQuery == "" && success == "" && error == ""
    {
      users := loaded;
      filteredUsers := loaded;
      searchQuery := "";
      success := "";
      error := "";
    }

    /** `handleSearch`: the query is lower-cased and stored, and the search runs over the full list. */
    method HandleSearch(value: string)
      modifies this
      ensures Consistent()
      ensures searchQuery == Lower(value) && filteredUsers == Search(users, Lower(value))
      ensures users == old(users) && success == old(success) && error == old(error)
    {
      var query := Lower(value);
      searchQuery := query;
      if query == "" {
        filteredUsers := users;
      } else {
        filteredUsers := Filter(users, (user: Doc<AuthRoutes.User>) => UserMatches(user.data, query));
        assert filteredUsers == Search(users, query) by {
          FilterSame(users, (user: Doc<AuthRoutes.User>) => UserMatches(user.data, query), UserTest(query));
        }
      }
    }

    /** `handleDeleteUser`: on success the user leaves both lists, which stay consistent. */
    method HandleDeleteUser(id: Id, outcome: DeleteOutcome)
      requires Consistent()
      modifies this
      ensures Consistent() && searchQuery == old(searchQuery)
      ensures outcome.Removed? ==>
                && users == RemoveById(old(users), id)
                && filteredUsers == RemoveById(old(filteredUsers), id)
                && success == Deleted && error == old(error)
      ensures outcome.Failed? ==>
                && users == old(users) && filteredUsers == old(filteredUsers) && success == old(success)
                && error == (if outcome.serverMessage != "" then outcome.serverMessage else DeleteFailed)
    {
      match outcome
      case Removed =>
        SearchAfterRemove(users, searchQuery, id);
        users := RemoveById(users, id);
        filteredUsers := RemoveById(filteredUsers, id);
        success := Deleted;
      case Failed(message) =>
        error := if message != "" then message else DeleteFailed;
    }
  }

  /** Narrowing the search and then clearing it shows the whole list again. */
  method ClearedSearchShowsAll(page: AdminPage, narrow: string) returns (shown: seq<Doc<AuthRoutes.User>>)
    modifies page
    ensures shown == page.users == old(page.users)
  {
    page.HandleSearch(narrow);
    page.HandleSearch("");
    shown := page.filteredUsers;
  }
}
