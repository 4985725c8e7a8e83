/**
 * The ticket routes (routes/ticketRoutes.js): the upload filter and the
 * stored file name, create, list, read, update with the attachment rule, and
 * delete with the removal of the attached file. The upload directory is a
 * set of file names; the clock readings are parameters.
 */
module TicketRoutes {
  import opened Wrappers
  import opened Text
  import opened Store
  import opened TicketModel

  /** A file sent in the `attachment` part: its name on the client and its MIME type. */
  datatype Upload = Upload(originalName: string, mimeType: string)

  const PdfOnly := "Only PDF files are allowed"
  const TicketNotFound := "Ticket not found"
  const UpdateFailed := "Failed to update ticket"

  /** The `fileFilter`: a file is accepted exactly when its MIME type is `application/pdf`. */
  predicate AcceptsUpload(u: Upload)
  {
    u.mimeType == "application/pdf"
  }

  /** The `filename` callback: `${Date.now()}-${file.originalname}`. */
  function StoredFilename(time: nat, originalName: string): string
  {
    Decimal(time) + "-" + originalName
  }

  /** The stored name splits back, at its first `-`, into the time and the original name. */
  lemma StoredFilenameRoundTrip(time: nat, originalName: string)
    ensures var f := StoredFilename(time, originalName);
            var k := IndexOf(f, '-');
            && k == |Decimal(time)| < |f|
            && AllDigits(f[..k]) && DecimalValue(f[..k]) == time
            && f[k + 1..] == originalName
  {
    var d := Decimal(time);
    var f := StoredFilename(time, originalName);
    assert forall i :: 0 <= i < |d| ==> f[i] == d[i];
    assert f[|d|] == '-';
    IndexOfExact(f, '-', |d|);
    assert f[..|d|] == d;
    assert f[|d| + 1..] == originalName;
    DecimalRoundTrip(time);
  }

  /** Different times or different original names give different stored names. */
  lemma StoredFilenameInjective(t1: nat, n1: string, t2: nat, n2: string)
    requires StoredFilename(t1, n1) == StoredFilename(t2, n2)
    ensures t1 == t2 && n1 == n2
  {
    StoredFilenameRoundTrip(t1, n1);
    StoredFilenameRoundTrip(t2, n2);
  }

  /** The body of a successful create: the message and the stored ticket. */
  datatype Submitted = Submitted(message: string, ticket: Doc<Ticket>)

  /** The value a string path takes after an update: the given one, when the update carries that path. */
  function Updated(t: Ticket, fields: map<Path, string>, p: Path): string
  {
    if p in fields then fields[p] else t.Get(p)
  }

  /** `findByIdAndUpdate(id, updateData)`: the given string paths, and the attachment only if one is given. */
  function MergeTicket(t: Ticket, fields: map<Path, string>, attachment: Option<string>): (r: Ticket)
    ensures forall p :: r.Get(p) == if p in fields then fields[p] else t.Get(p)
    ensures r.attachment == if attachment.Some? then attachment else t.attachment
    ensures r.createdAt == t.createdAt
  {
    Ticket(
      Updated(t, fields, Name), Updated(t, fields, UniversityId), Updated(t, fields, Email),
      Updated(t, fields, ContactNumber), Updated(t, fields, Department), Updated(t, fields, Message),
      if attachment.Some? then attachment else t.attachment,
      t.createdAt)
  }

  /** `runValidators`: the update clears no required path. */
  predicate ClearsNothing(fields: map<Path, string>)
  {
    forall p :: p in fields ==> fields[p] != ""
  }

  /** An update that passes the validators keeps a complete ticket complete. */
  lemma MergeKeepsComplete(t: Ticket, fields: map<Path, string>, attachment: Option<string>)
    requires Complete(t) && ClearsNothing(fields)
    ensures Complete(MergeTicket(t, fields, attachment))
  {
  }

  /** The ticket collection and the upload directory. */
  class TicketStore {
    var tickets: map<Id, Ticket>
    var nextId: Id
    var files: set<string>

    ghost predicate Valid()
      reads this
    {
      IdsBelow(tickets, nextId) && forall id :: id in tickets ==> Complete(tickets[id])
    }

    constructor()
      ensures Valid() && tickets == map[] && files == {}
    {
      tickets := map[];
      nextId := 0;
      files := {};
    }

    /**
     * `upload.single('attachment')`: a non-PDF file fails the request with a
     * 500; a PDF is written under its stored name, whose name is returned.
     */
    method Receive(upload: Option<Upload>, time: nat) returns (rejected: bool, filename: Option<string>)
      modifies this
      ensures tickets == old(tickets) && nextId == old(nextId)
      ensures rejected <==> upload.Some? && !AcceptsUpload(upload.value)
      ensures filename == if upload.Some? && !rejected then Some(StoredFilename(time, upload.value.originalName)) else None
      ensures files == if filename.Some? then old(files) + {filename.value} else old(files)
    {
      rejected := false;
      filename := None;
      if upload.Some? {
        if !AcceptsUpload(upload.value) {
          rejected := true;
          return;
        }
        var name := StoredFilename(time, upload.value.originalName);
        files := files + {name};
        filename := Some(name);
      }
    }

    /**
     * POST /: the upload is filtered and written first; then the ticket is
     * built with the stored name (or none) and `createdAt` = `now`, and either
     * saved (201) or refused with Mongoose's validation message (400).
     */
    method Create(text: Path -> string, upload: Option<Upload>, time: nat, now: nat) returns (r: Response<Submitted>)
      requires Valid()
      modifies this
      ensures Valid()
      ensures upload.Some? && !AcceptsUpload(upload.value) ==>
                r == ServerError(PdfOnly) && tickets == old(tickets) && files == old(files)
      ensures upload.None? || AcceptsUpload(upload.value) ==>
                var attachment := if upload.Some? then Some(StoredFilename(time, upload.value.originalName)) else None;
                var t := NewTicket(text, attachment, now);
                && files == (if upload.Some? then old(files) + {attachment.value} else old(files))
                && (!Complete(t) ==> r == BadRequest(ValidationError(t).value) && tickets == old(tickets))
                && (Complete(t) ==>
                      && old(nextId) !in old(tickets)
                      && tickets == old(tickets)[old(nextId) := t]
                      && r == Created(Submitted("Ticket submitted successfully", Doc(old(nextId), t))))
    {
      var rejected, attachment := Receive(upload, time);
      if rejected {
        return ServerError(PdfOnly);
      }
      var t := NewTicket(text, attachment, now);
      var failure := ValidationError(t);
      if failure.Some? {
        return BadRequest(failure.value);
      }
      var id := nextId;
      tickets := tickets[id := t];
      nextId := nextId + 1;
      r := Created(Submitted("Ticket submitted successfully", Doc(id, t)));
    }

    /** GET /: every ticket, in insertion order. */
    function List(): (r: seq<Doc<Ticket>>)
      reads this
      requires Valid()
      ensures forall i :: 0 <= i < |r| ==> r[i].id in tickets && tickets[r[i].id] == r[i].data
      ensures forall id :: id in tickets ==> Doc(id, tickets[id]) in r
      ensures forall i, j :: 0 <= i < j < |r| ==> r[i].id < r[j].id
    {
      InIdOrder(tickets, nextId)
    }

    /** GET /:id: the ticket, or 404. */
    function Get(id: Id): (r: Response<Doc<Ticket>>)
      reads this
      ensures r.Ok? <==> id in tickets
      ensures r.Ok? ==> r.body == Doc(id, tickets[id])
      ensures !r.Ok? ==> r == NotFound(TicketNotFound)
    {
      if id in tickets then Ok(Doc(id, tickets[id])) else NotFound(TicketNotFound)
    }

    /**
     * PUT /:id: the upload is filtered and written first; the given string
     * paths overwrite the ticket's, and the attachment changes only when a
     * new file came with the request. The previous file stays on disk.
     */
    method Update(id: Id, fields: map<Path, string>, upload: Option<Upload>, time: nat) returns (r: Response<Doc<Ticket>>)
      requires Valid()
      modifies this
      ensures Valid() && nextId == old(nextId)
      ensures upload.Some? && !AcceptsUpload(upload.value) ==>
                r == ServerError(PdfOnly) && tickets == old(tickets) && files == old(files)
      ensures upload.None? || AcceptsUpload(upload.value) ==>
                var attachment := if upload.Some? then Some(StoredFilename(time, upload.value.originalName)) else None;
                && files == (if upload.Some? then old(files) + {attachment.value} else old(files))
                && (!ClearsNothing(fields) ==> r == ServerError(UpdateFailed) && tickets == old(tickets))
                && (ClearsNothing(fields) && id !in old(tickets) ==> r == NotFound(TicketNotFound) && tickets == old(tickets))
                && (ClearsNothing(fields) && id in old(tickets) ==>
                      && tickets == old(tickets)[id := MergeTicket(old(tickets)[id], fields, attachment)]
                      && r == Ok(Doc(id, tickets[id])))
    {
      var rejected, attachment := Receive(upload, time);
      if rejected {
        return ServerError(PdfOnly);
      }
      if !(forall p :: p in fields ==> fields[p] != "") {
        return ServerError(UpdateFailed);
      }
      if id !in tickets {
        return NotFound(TicketNotFound);
      }
      MergeKeepsComplete(tickets[id], fields, attachment);
      var updated := MergeTicket(tickets[id], fields, attachment);
      tickets := tickets[id := updated];
      r := Ok(Doc(id, updated));
    }

    /**
     * DELETE /:id: 404 for a missing ticket; otherwise the ticket is removed
     * and so is its attached file, if it had one. A failed removal is only
     * logged, so the reply is the same either way.
     */
    method Delete(id: Id) returns (r: Response<string>)
      requires Valid()
      modifies this
      ensures Valid() && nextId == old(nextId)
      ensures id !in old(tickets) ==> r == NotFound(TicketNotFound) && tickets == old(tickets) && files == old(files)
      ensures id in old(tickets) ==>
                && r == Ok("Ticket deleted successfully")
                && tickets == old(tickets) - {id}
                && var a := old(tickets)[id].attachment;
                   files == if a.Some? && a.value != "" then old(files) - {a.value} else old(files)
    {
      if id !in tickets {
        return NotFound(TicketNotFound);
      }
      var ticket := tickets[id];
      tickets := tickets - {id};
      if ticket.attachment.Some? && ticket.attachment.value != "" {
        files := files - {ticket.attachment.value};
      }
      r := Ok("Ticket deleted successfully");
    }
  }

  /** A ticket created with a PDF and then deleted leaves no trace of the file. */
  method CreateThenDelete(store: TicketStore, text: Path -> string, name: string, time: nat, now: nat)
    returns (created: Response<Submitted>, deleted: Response<string>)
    requires store.Valid() && forall p :: text(p) != ""
    requires StoredFilename(time, name) !in store.files
    modifies store
    ensures created.Created? && deleted == Ok("Ticket deleted successfully")
    ensures store.files == old(store.files) && store.tickets == old(store.tickets)
  {
    created := store.Create(text, Some(Upload(name, "application/pdf")), time, now);
    StoredFilenameRoundTrip(time, name);
    deleted := store.Delete(created.body.ticket.id);
  }

  /** Replacing an attachment by update leaves the earlier file in the upload directory. */
  method ReplacedFileStays(store: TicketStore, id: Id, name: string, time: nat) returns (r: Response<Doc<Ticket>>)
    requires store.Valid() && id in store.tickets
    requires store.tickets[id].attachment.Some?
    requires store.tickets[id].attachment.value in store.files
    modifies store
    ensures r.Ok? && r.body.data.attachment == Some(StoredFilename(time, name))
    ensures old(store.tickets[id].attachment.value) in store.files
  {
    r := store.Update(id, map[], Some(Upload(name, "application/pdf")), time);
  }
}
