/**
 * The ticket list page (frontend/src/components/viewticket.js): the search
 * over name, university id and email, the local list after a delete or an
 * edit, and the edit dialog's copy of the selected ticket.
 */
module ViewTickets {
  import opened Wrappers
  import opened Seqs
  import opened Text
  import opened Store
  import opened TicketModel
  import opened LocalLists

  const DeleteFailed := "Error deleting ticket"
  const UpdateFailed := "Error updating ticket"

  /** The search test: the lower-cased term occurs in the lower-cased name, university id or email. */
  predicate TicketMatches(t: Ticket, term: string)
  {
    var q := Lower(term);
    Includes(Lower(t.name), q) || Includes(Lower(t.universityId), q) || Includes(Lower(t.email), q)
  }

  function SearchTest(term: string): Doc<Ticket> -> bool
  {
    (d: Doc<Ticket>) => TicketMatches(d.data, term)
  }

  /** `filteredTickets`: the tickets that pass the search test, in list order. */
  function FilteredTickets(tickets: seq<Doc<Ticket>>, term: string): (r: seq<Doc<Ticket>>)
    ensures forall i :: 0 <= i < |r| ==> r[i] in tickets && TicketMatches(r[i].data, term)
    ensures forall d :: d in tickets && TicketMatches(d.data, term) ==> d in r
  {
    Filter(tickets, SearchTest(term))
  }

  /** The search keeps the list order and drops only non-matching tickets. */
  lemma FilteredIsSubsequence(tickets: seq<Doc<Ticket>>, term: string)
    ensures IsSubsequence(FilteredTickets(tickets, term), tickets)
  {
    FilterIsSubsequence(tickets, SearchTest(term));
  }

  /** An empty search term keeps every ticket. */
  lemma EmptyTermKeepsAll(tickets: seq<Doc<Ticket>>)
    ensures FilteredTickets(tickets, "") == tickets
  {
    forall d | d in tickets ensures SearchTest("")(d) {
      IncludesEmpty(Lower(d.data.name));
    }
    FilterAll(tickets, SearchTest(""));
  }

  /** The search ignores the case of ASCII letters in the term. */
  lemma SearchIgnoresCase(tickets: seq<Doc<Ticket>>, term: string)
    ensures FilteredTickets(tickets, Lower(term)) == FilteredTickets(tickets, term)
  {
    LowerIdempotent(term);
    FilterSame(tickets, SearchTest(Lower(term)), SearchTest(term));
  }

  /** Typing more of the term can only narrow the list. */
  lemma LongerTermNarrows(tickets: seq<Doc<Ticket>>, term: string, more: string)
    ensures IsSubsequence(FilteredTickets(tickets, term + more), FilteredTickets(tickets, term))
  {
    LowerAppend(term, more);
    forall d | d in tickets && SearchTest(term + more)(d) ensures SearchTest(term)(d) {
      IncludesPrefix(Lower(d.data.name), Lower(term), Lower(more));
      IncludesPrefix(Lower(d.data.universityId), Lower(term), Lower(more));
      IncludesPrefix(Lower(d.data.email), Lower(term), Lower(more));
    }
    FilterStricter(tickets, SearchTest(term), SearchTest(term + more));
  }

  /** The page's state. */
  class TicketsPage {
    var tickets: seq<Doc<Ticket>>
    var searchTerm: string
    var selected: Option<Doc<Ticket>>
    var openDialog: bool
    var error: string

    constructor(loaded: seq<Doc<Ticket>>)
      ensures tickets == loaded && searchTerm == "" && selected.None? && !openDialog && error == ""
    {
      tickets := loaded;
      searchTerm := "";
      selected := None;
      openDialog := false;
      error := "";
    }

    /** The rows shown: the search applied to the whole list. */
    function Visible(): seq<Doc<Ticket>>
      reads this
    {
      FilteredTickets(tickets, searchTerm)
    }

    /** The search box's `onChange`. */
    method SetSearchTerm(value: string)
      modifies this
      ensures searchTerm == value
      ensures tickets == old(tickets) && selected == old(selected) && openDialog == old(openDialog) && error == old(error)
    {
      searchTerm := value;
    }

    /** `handleDeleteTicket`: once the server has deleted `id`, exactly the tickets with that id leave the list. */
    method HandleDeleteTicket(id: Id, deleted: bool)
      modifies this
      ensures tickets == if deleted then RemoveById(old(tickets), id) else old(tickets)
      ensures error == if deleted then old(error) else DeleteFailed
      ensures searchTerm == old(searchTerm) && selected == old(selected) && openDialog == old(openDialog)
    {
      if deleted {
        tickets := RemoveById(tickets, id);
      } else {
        error := DeleteFailed;
      }
    }

    /** `handleEditTicket`: the dialog opens on a copy of the ticket. */
    method HandleEditTicket(ticket: Doc<Ticket>)
      modifies this
      ensures selected == Some(ticket) && openDialog
      ensures tickets == old(tickets) && searchTerm == old(searchTerm) && error == old(error)
    {
      selected := Some(ticket);
      openDialog := true;
    }

    /** `handleDialogChange`: only the named path of the selected copy changes. */
    method HandleDialogChange(name: Path, value: string)
      requires selected.Some?
      modifies this
      ensures selected == Some(Doc(old(selected).value.id, old(selected).value.data.With(name, value)))
      ensures tickets == old(tickets) && searchTerm == old(searchTerm) && openDialog == old(openDialog) && error == old(error)
    {
      selected := Some(Doc(selected.value.id, selected.value.data.With(name, value)));
    }

    /** `handleUpdateTicket`: the copy is sent; on success it replaces the ticket with its id and the dialog closes. */
    method HandleUpdateTicket(updated: bool) returns (sent: Doc<Ticket>)
      requires selected.Some?
      modifies this
      ensures sent == old(selected).value
      ensures updated ==> tickets == ReplaceById(old(tickets), sent.id, sent) && !openDialog && error == old(error)
      ensures !updated ==> tickets == old(tickets) && openDialog == old(openDialog) && error == UpdateFailed
      ensures searchTerm == old(searchTerm) && selected == old(selected)
    {
      sent := selected.value;
      if updated {
        tickets := ReplaceById(tickets, sent.id, sent);
        openDialog := false;
      } else {
        error := UpdateFailed;
      }
    }
  }

  /** Editing one path in the dialog and saving changes that ticket's path alone, and keeps the list's length. */
  method EditAndSave(page: TicketsPage, ticket: Doc<Ticket>, name: Path, value: string) returns (sent: Doc<Ticket>)
    modifies page
    ensures |page.tickets| == |old(page.tickets)|
    ensures forall i :: 0 <= i < |page.tickets| && old(page.tickets)[i].id != ticket.id ==> page.tickets[i] == old(page.tickets)[i]
    ensures forall i :: 0 <= i < |page.tickets| && old(page.tickets)[i].id == ticket.id ==>
              page.tickets[i] == Doc(ticket.id, ticket.data.With(name, value))
  {
    page.HandleEditTicket(ticket);
    page.HandleDialogChange(name, value);
    sent := page.HandleUpdateTicket(true);
  }
}
