/**
 * The ticket form (frontend/src/components/CreateTicket.js): six text fields and
 * an attachment, an error entry per field, the submission gate, the multipart
 * payload built from the truthy fields, and the reset after a successful post.
 */
module CreateTicket {
  import opened Wrappers
  import opened TicketValidation
  import opened TicketModel

  /** The rule `handleChange` applies to a text field. */
  predicate Accepts(p: Path, v: string)
  {
    match p
    case Name => IsValidName(v)
    case UniversityId => IsValidUniversityId(v)
    case Email => IsValidEmail(v)
    case ContactNumber => IsValidContactNumber(v)
    case Department => IsValidDepartment(v)
    case Message => IsValidMessage(v)
  }

  const NameComplaint := "Name must be at least 2 characters and contain only letters and spaces"
  const UniversityIdComplaint := "University ID must be a 9-digit number"
  const EmailComplaint := "Please enter a valid email address"
  const ContactComplaint := "Contact number must be a 10-digit number"
  const DepartmentComplaint := "Department must be at least 2 characters and contain only letters and spaces"
  const MessageComplaint := "Message must be at least 10 characters"
  const AttachmentComplaint := "Please upload a PDF file only"
  const GateMessage := "Please fix the validation errors before submitting"
  const SubmittedMessage := "Ticket submitted successfully"
  const FallbackMessage := "Error submitting ticket"

  function Complaint(p: Path): (m: string)
    ensures m != ""
  {
    match p
    case Name => NameComplaint
    case UniversityId => UniversityIdComplaint
    case Email => EmailComplaint
    case ContactNumber => ContactComplaint
    case Department => DepartmentComplaint
    case Message => MessageComplaint
  }

  /** The error entry a text change records: empty exactly when the value passes the field's rule. */
  function FieldError(p: Path, v: string): (e: string)
    ensures e == "" <==> Accepts(p, v)
    ensures e != "" ==> e == Complaint(p)
  {
    if Accepts(p, v) then "" else Complaint(p)
  }

  /** The error entry `handleFileChange` records: empty exactly when a PDF was chosen. */
  function AttachmentError(file: Option<File>): (e: string)
    ensures e == "" <==> file.Some? && file.value.mimeType == "application/pdf"
    ensures e != "" ==> e == AttachmentComplaint
  {
    if IsPdf(file) then "" else AttachmentComplaint
  }

  /** One `ticketData.append(key, value)`. */
  datatype Part = TextPart(key: Path, value: string) | FilePart(file: File)

  /** The parts appended for the text keys `keys`, in order, skipping the empty (falsy) values. */
  function TextParts(text: map<Path, string>, keys: seq<Path>): (r: seq<Part>)
    requires forall k :: k in text
    ensures |r| <= |keys|
  {
    if keys == [] then []
    else (if text[keys[0]] != "" then [TextPart(keys[0], text[keys[0]])] else []) + TextParts(text, keys[1..])
  }

  /** One step of the payload loop: the part for `keys[i]` moves from the rest to the prefix built so far. */
  lemma TextPartsStep(text: map<Path, string>, keys: seq<Path>, i: nat, built: seq<Part>)
    requires forall k :: k in text
    requires i < |keys|
    ensures var part := if text[keys[i]] != "" then [TextPart(keys[i], text[keys[i]])] else [];
            built + TextParts(text, keys[i..]) == (built + part) + TextParts(text, keys[i + 1..])
  {
    assert keys[i..][1..] == keys[i + 1..];
  }

  /** The whole payload: the text keys in declaration order, then the attachment if one is set. */
  function Payload(text: map<Path, string>, attachment: Option<File>): seq<Part>
    requires forall k :: k in text
  {
    TextParts(text, Paths) + (if attachment.Some? then [FilePart(attachment.value)] else [])
  }

  /** A text part is sent for a key exactly when the key is listed and its value is non-empty. */
  lemma {:induction false} TextPartsExact(text: map<Path, string>, keys: seq<Path>, k: Path, v: string)
    requires forall q :: q in text
    ensures TextPart(k, v) in TextParts(text, keys) <==> k in keys && v == text[k] && v != ""
    ensures forall i :: 0 <= i < |TextParts(text, keys)| ==> TextParts(text, keys)[i].TextPart?
  {
    if keys != [] {
      TextPartsExact(text, keys[1..], k, v);
      var head := if text[keys[0]] != "" then [TextPart(keys[0], text[keys[0]])] else [];
      assert TextParts(text, keys) == head + TextParts(text, keys[1..]);
      assert keys == [keys[0]] + keys[1..];
    }
  }

  /** The payload holds exactly the truthy fields: an absent attachment is omitted. */
  lemma PayloadExact(text: map<Path, string>, attachment: Option<File>, k: Path, v: string, f: File)
    requires forall q :: q in text
    ensures TextPart(k, v) in Payload(text, attachment) <==> v == text[k] && v != ""
    ensures FilePart(f) in Payload(text, attachment) <==> attachment == Some(f)
  {
    PathsListed(k);
    TextPartsExact(text, Paths, k, v);
    var tail := if attachment.Some? then [FilePart(attachment.value)] else [];
    assert FilePart(f) !in TextParts(text, Paths) by {
      TextPartsExact(text, Paths, k, v);
    }
    assert Payload(text, attachment) == TextParts(text, Paths) + tail;
  }

  /** What the POST comes back with: success, or a failure carrying the server's message (`""` for none). */
  datatype PostOutcome = Accepted | Rejected(serverMessage: string)

  /** The form's state. */
  class Form {
    var formData: map<Path, string>
    var attachment: Option<File>
    var validationErrors: map<Path, string>
    var attachmentError: string
    var error: string
    var success: string

    ghost predicate Valid()
      reads this
    {
      forall p :: p in formData && p in validationErrors
    }

    /** Every text field, every error, `error` and `success` start as `''`; the attachment as `null`. */
    constructor()
      ensures Valid()
      ensures forall p :: formData[p] == "" && validationErrors[p] == ""
      ensures attachment == None && attachmentError == "" && error == "" && success == ""
    {
      formData := map p | p in Paths :: "";
      validationErrors := map p | p in Paths :: "";
      attachment := None;
      attachmentError := "";
      error := "";
      success := "";
      forall p ensures p in Paths {
        PathsListed(p);
      }
    }

    /** `handleChange`: the field takes the value, and only that field's error is recomputed. */
    method HandleChange(name: Path, value: string)
      requires Valid()
      modifies this
      ensures Valid()
      ensures formData == old(formData)[name := value]
      ensures validationErrors == old(validationErrors)[name := FieldError(name, value)]
      ensures attachment == old(attachment) && attachmentError == old(attachmentError)
      ensures error == old(error) && success == old(success)
    {
      formData := formData[name := value];
      validationErrors := validationErrors[name := FieldError(name, value)];
    }

    /** `handleFileChange`: the attachment takes the chosen file (none when the choice is cleared). */
    method HandleFileChange(file: Option<File>)
      requires Valid()
      modifies this
      ensures Valid()
      ensures attachment == file && attachmentError == AttachmentError(file)
      ensures formData == old(formData) && validationErrors == old(validationErrors)
      ensures error == old(error) && success == old(success)
    {
      attachment := file;
      attachmentError := AttachmentError(file);
    }

    /** `Object.values(validationErrors).every((error) => error === '')`, in key order. */
    method AllValid() returns (ok: bool)
      requires Valid()
      ensures ok <==> attachmentError == "" && forall p :: validationErrors[p] == ""
    {
      ok := true;
      var i := 0;
      while i < |Paths|
        invariant 0 <= i <= |Paths|
        invariant ok <==> forall j :: 0 <= j < i ==> validationErrors[Paths[j]] == ""
      {
        if validationErrors[Paths[i]] != "" {
          ok := false;
        }
        i := i + 1;
      }
      if forall j :: 0 <= j < |Paths| ==> validationErrors[Paths[j]] == "" {
        forall p ensures validationErrors[p] == "" {
          var j := PathIndex(p);
          assert validationErrors[Paths[j]] == "";
        }
      }
      if attachmentError != "" {
        ok := false;
      }
    }

    /** The loop over `Object.keys(formData)` that appends each truthy value. */
    method BuildPayload() returns (parts: seq<Part>)
      requires Valid()
      ensures parts == Payload(formData, attachment)
    {
      parts := [];
      var i := 0;
      while i < |Paths|
        invariant 0 <= i <= |Paths|
        invariant parts + TextParts(formData, Paths[i..]) == TextParts(formData, Paths)
      {
        var key := Paths[i];
        var part := if formData[key] != "" then [TextPart(key, formData[key])] else [];
        TextPartsStep(formData, Paths, i, parts);
        parts := parts + part;
        i := i + 1;
      }
      if attachment.Some? {
        parts := parts + [FilePart(attachment.value)];
      }
    }

    /**
     * `handleSubmit`: blocked with the gate message while any error entry is
     * non-empty; otherwise the payload is posted, and the form is reset on
     * success or the server's message (or a fallback) is shown on failure.
     */
    method HandleSubmit(outcome: PostOutcome) returns (sent: Option<seq<Part>>)
      requires Valid()
      modifies this
      ensures Valid()
      ensures validationErrors == old(validationErrors) && attachmentError == old(attachmentError)
      ensures sent.None? <==> !(old(attachmentError) == "" && forall p :: old(validationErrors)[p] == "")
      ensures sent.None? ==> error == GateMessage && success == old(success)
                             && formData == old(formData) && attachment == old(attachment)
      ensures sent.Some? ==> sent.value == old(Payload(formData, attachment))
      ensures sent.Some? && outcome.Accepted? ==>
                success == SubmittedMessage && error == ""
                && attachment == None && forall p :: formData[p] == ""
      ensures sent.Some? && outcome.Rejected? ==>
                success == "" && formData == old(formData) && attachment == old(attachment)
                && error == (if outcome.serverMessage != "" then outcome.serverMessage else FallbackMessage)
    {
      var ok := AllValid();
      if !ok {
        error := GateMessage;
        return None;
      }
      var parts := BuildPayload();
      sent := Some(parts);
      match outcome
      case Accepted =>
        success := SubmittedMessage;
        error := "";
        formData := map p | p in Paths :: "";
        attachment := None;
        forall p ensures p in Paths {
          PathsListed(p);
        }
      case Rejected(message) =>
        error := if message != "" then message else FallbackMessage;
        success := "";
    }
  }

  /** A form whose attachment was never touched passes the gate without a file, and posts none. */
  method NoFileStillPosts(text: map<Path, string>) returns (sent: Option<seq<Part>>)
    requires forall p :: p in text && Accepts(p, text[p])
    ensures sent.Some?
    ensures forall i :: 0 <= i < |sent.value| ==> sent.value[i].TextPart?
  {
    var form := new Form();
    for i := 0 to |Paths|
      invariant form.Valid()
      invariant form.attachment == None && form.attachmentError == ""
      invariant forall p :: form.validationErrors[p] == ""
    {
      form.HandleChange(Paths[i], text[Paths[i]]);
    }
    var data := form.formData;
    sent := form.HandleSubmit(Accepted);
    TextPartsExact(data, Paths, Name, "");
    assert Payload(data, None) == TextParts(data, Paths) + [];
    assert Payload(data, None) == TextParts(data, Paths);
  }

  /** Choosing a file that is not a PDF blocks the next submission. */
  method NonPdfBlocks(name: string, mimeType: string) returns (sent: Option<seq<Part>>)
    requires mimeType != "application/pdf"
    ensures sent.None?
  {
    var form := new Form();
    form.HandleFileChange(Some(File(name, mimeType)));
    sent := form.HandleSubmit(Accepted);
  }
}
