/**
 * The `Ticket` schema (models/Ticket.js): six required string paths, an
 * optional attachment file name, and a creation time that defaults to the
 * moment the document is made. No path carries a format rule.
 */
module TicketModel {
  import opened Wrappers
  import Store
  import TicketValidation
  import opened Text

  /** The required string paths, in declaration order. */
  datatype Path = Name | UniversityId | Email | ContactNumber | Department | Message

  const Paths: seq<Path> := [Name, UniversityId, Email, ContactNumber, Department, Message]

  function PathName(p: Path): string
  {
    match p
    case Name => "name"
    case UniversityId => "universityId"
    case Email => "email"
    case ContactNumber => "contactNumber"
    case Department => "department"
    case Message => "message"
  }

  lemma PathsListed(p: Path)
    ensures p in Paths && |Paths| == 6
    ensures forall i, j :: 0 <= i < j < |Paths| ==> Paths[i] != Paths[j]
  {
  }

  /** Where a path stands in the declaration order. */
  function PathIndex(p: Path): (i: nat)
    ensures i < |Paths| && Paths[i] == p
  {
    match p
    case Name => 0
    case UniversityId => 1
    case Email => 2
    case ContactNumber => 3
    case Department => 4
    case Message => 5
  }

  /** A support ticket; `createdAt` is a time in milliseconds. An absent string path is `""`. */
  datatype Ticket = Ticket(
    name: string, universityId: string, email: string,
    contactNumber: string, department: string, message: string,
    attachment: Option<string>, createdAt: nat)
  {
    function Get(p: Path): string
    {
      match p
      case Name => name
      case UniversityId => universityId
      case Email => email
      case ContactNumber => contactNumber
      case Department => department
      case Message => message
    }

    /** The ticket with one string path overwritten. */
    function With(p: Path, v: string): (t: Ticket)
      ensures t.Get(p) == v
      ensures forall q :: q != p ==> t.Get(q) == Get(q)
      ensures t.attachment == attachment && t.createdAt == createdAt
    {
      match p
      case Name => this.(name := v)
      case UniversityId => this.(universityId := v)
      case Email => this.(email := v)
      case ContactNumber => this.(contactNumber := v)
      case Department => this.(department := v)
      case Message => this.(message := v)
    }
  }

  /**
   * `new Ticket({ ...fields, attachment })`: the text comes from `text`, and
   * `createdAt` takes its default, the current time `now`.
   */
  function NewTicket(text: Path -> string, attachment: Option<string>, now: nat): (t: Ticket)
    ensures forall p :: t.Get(p) == text(p)
    ensures t.attachment == attachment && t.createdAt == now
  {
    Ticket(text(Name), text(UniversityId), text(Email), text(ContactNumber), text(Department), text(Message),
      attachment, now)
  }

  /** `required: true` on every string path: `undefined`, `null` and `''` all fail. */
  predicate Complete(t: Ticket)
  {
    forall p :: t.Get(p) != ""
  }

  lemma CompleteFields(t: Ticket)
    ensures Complete(t) <==> t.name != "" && t.universityId != "" && t.email != ""
                             && t.contactNumber != "" && t.department != "" && t.message != ""
  {
    assert t.Get(Name) == t.name && t.Get(UniversityId) == t.universityId && t.Get(Email) == t.email;
    assert t.Get(ContactNumber) == t.contactNumber && t.Get(Department) == t.department;
    assert t.Get(Message) == t.message;
  }

  /** Distinct paths have distinct names. */
  lemma PathNamesDistinct()
    ensures forall p, q :: PathName(p) == PathName(q) ==> p == q
  {
    forall p, q | PathName(p) == PathName(q) ensures p == q {
      assert PathName(p)[0] == PathName(q)[0];
    }
  }

  /** The names of the paths among `ps` that the ticket leaves empty, in the order of `ps`. */
  function MissingAmong(t: Ticket, ps: seq<Path>): (r: seq<string>)
    ensures |r| <= |ps|
    ensures r == [] <==> forall q :: q in ps ==> t.Get(q) != ""
    ensures forall q :: PathName(q) in r <==> q in ps && t.Get(q) == ""
  {
    if ps == [] then []
    else
      PathNamesDistinct();
      (if t.Get(ps[0]) == "" then [PathName(ps[0])] else []) + MissingAmong(t, ps[1..])
  }

  /** The names of the required paths a ticket leaves empty, in declaration order. */
  function Missing(t: Ticket): (r: seq<string>)
    ensures r == [] <==> Complete(t)
    ensures |r| <= 6
    ensures forall p :: PathName(p) in r <==> t.Get(p) == ""
  {
    forall p ensures p in Paths {
      PathsListed(p);
    }
    MissingAmong(t, Paths)
  }

  /** `ticket.save()` fails exactly when a required path is empty, with Mongoose's message. */
  function ValidationError(t: Ticket): (r: Option<string>)
    ensures r.None? <==> Complete(t)
    ensures r.Some? ==> r.value == Store.RequiredError("Ticket", Missing(t))
  {
    if Missing(t) == [] then None else Some(Store.RequiredError("Ticket", Missing(t)))
  }

  /** A failed save reports every empty path, by name, as required. */
  lemma ValidationNamesMissing(t: Ticket, p: Path)
    requires t.Get(p) == ""
    ensures ValidationError(t).Some?
    ensures Includes(ValidationError(t).value, Store.RequiredPhrase(PathName(p)))
  {
    Store.RequiredErrorNames("Ticket", Missing(t), PathName(p));
  }

  /** Presence is all the schema asks: an eight-digit university id and an address without `@` are stored. */
  lemma PresenceOnly(now: nat)
    ensures ValidationError(Ticket("Ann", "12345678", "ann", "x", "y", "z", None, now)).None?
    ensures !TicketValidation.IsValidUniversityId("12345678") && !TicketValidation.IsValidEmail("ann")
  {
    var t := Ticket("Ann", "12345678", "ann", "x", "y", "z", None, now);
    forall p ensures t.Get(p) != "" {
      assert t.Get(p)[0] == t.Get(p)[0];
    }
  }

  /** The failure names the empty paths in declaration order. */
  lemma MissingExample(t: Ticket)
    requires t.name == "" && t.email == ""
    requires t.universityId != "" && t.contactNumber != "" && t.department != "" && t.message != ""
    ensures ValidationError(t) == Some(Store.RequiredError("Ticket", ["name", "email"]))
  {
    assert MissingAmong(t, Paths[3..]) == [] by {
      assert forall q :: q in Paths[3..] ==> t.Get(q) != "";
    }
    assert MissingAmong(t, Paths[2..]) == ["email"] by {
      assert Paths[2..][0] == Email && Paths[2..][1..] == Paths[3..];
    }
    assert MissingAmong(t, Paths[1..]) == ["email"] by {
      assert Paths[1..][0] == UniversityId && Paths[1..][1..] == Paths[2..];
    }
    assert Missing(t) == ["name"] + ["email"];
  }
}
