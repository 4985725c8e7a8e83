# Smart Scheduler — a verified model of its core

Smart Scheduler is a campus web application. An Express server over a MongoDB
database keeps four collections: users, student timetable entries (class
sessions with time, day, teacher, subject, venue, grade, batch and course),
personal timetable entries (a slot, a day and an activity), and support
tickets with an optional PDF attachment. A React front end holds the forms
that check each field as it is typed. It also has pages that list, search,
edit and delete documents and keep their local lists in step with the server.

This project models that core in Dafny:

- **Schemas** (`timetable_model.dfy`, `ticket_model.dfy`, `student_timetable_model.dfy`): the required paths and Mongoose's "Path `x` is required." failure message.
- **Collections** (`store.dfy`): a map from ids to documents, with ids issued in increasing order. `find()` is the insertion-ordered listing filtered by a query; `findOne` takes the first match.
- **Route handlers** (`auth_routes.dfy`, `student_timetable_routes.dfy`, `timetable_routes.dfy`, `batch_routes.dfy`, `ticket_routes.dfy`): classes whose methods update the collection. Each method returns the HTTP reply with its status.
- **Field validators** (`slot_validation.dfy`, `ticket_validation.dfy`): the regular expressions, written as predicates. Each one is proved equivalent to a declarative description of the pattern.
- **Pages** (`create_student_timetable.dfy`, `create_ticket.dfy`, `create_timetable.dfy`, `view_timetable.dfy`, `view_student_timetable.dfy`, `view_tickets.dfy`, `admin_profile.dfy`, `client_lists.dfy`): classes holding the component state. Each handler is a method.

`text.dfy`, `seqs.dfy` and `wrappers.dfy` are helpers: characters, lower-casing, substring search, decimal numerals, filtering and subsequences, and `Option`.

Other modelling choices:

- bcrypt is a key-derivation function `kdf` fixed per user store. The salt that bcrypt would draw at random is a parameter.
- `Date.now()` and the document's creation time are parameters.
- The upload directory is a set of file names.
- Each answer the server could give a page is a parameter of the page's handler.
- An absent string path is the empty string. A Mongoose `required` String path fails on `''`, just as it fails on `undefined`.

Where the code and its description differ, the model follows the code. The timetable routes answer 404 for an unknown owner and the student-timetable routes answer 403, as each is written. Other points:

- A non-PDF upload makes multer pass the filter's error to `next(err)`. `server.js:21-31` registers no error handler, so Express's default handler answers with a 500, not a 400. The model carries the filter's message as that reply's message.
- `runValidators` on the student-timetable and ticket updates runs before the handler can answer 404. So a body that clears a required path gets the handler's 500 even for a missing id.
- The ticket form's submission gate does not require an attachment. Its attachment error starts empty, and only choosing a file sets it.

## Model

| member | source | states |
|---|---|---|
| Store.InIdOrder | models/Timetable.js:3-8 | the listing holds exactly the stored documents below the id bound, each with its stored fields, in strictly increasing id order |
| Store.FindMembers | routes/studentTimetableRoutes.js:51-56 | a document is in a query's result exactly when it is stored with those fields and they satisfy the query |
| Store.FindOrdered | routes/timetableRoutes.js:39-40 | a query's result is in strictly increasing id (insertion) order |
| Store.FindStricter | routes/studentTimetableRoutes.js:51-56 | a stricter query returns a subsequence of a looser one's result |
| Store.FindSame | routes/studentTimetableRoutes.js:51-56 | two queries that agree on every stored document return the same result |
| Store.First | routes/authRoutes.js:11 | `findOne`: the lowest stored id whose document matches, with no lower match; none only when no stored document matches |
| Store.FirstAgrees | routes/authRoutes.js:41 | `findOne` depends only on the documents below the bound |
| Store.FirstAfterInsert | routes/authRoutes.js:11-25 | when nothing matched before, a matching document inserted under the next id is the one `findOne` finds |
| Store.InIdOrderUnique | routes/authRoutes.js:110-117 | no id appears twice in a listing |
| Store.RequiredError | models/Ticket.js:4-9 | the failure message starts with the model's name and is longer than it |
| Store.JoinNames | models/Ticket.js:4-9 | the joined list of required-path errors contains "Path `p` is required." for each listed path p |
| Store.RequiredErrorNames | models/Ticket.js:4-9 | the failure message includes "Path `p` is required." for every missing path p |
| Seqs.Filter | frontend/src/components/viewticket.js:80-84 | every kept element is in the input and passes the test; every input element that passes is kept |
| Seqs.FilterAppend | frontend/src/components/viewticket.js:80-84 | filtering distributes over concatenation |
| Seqs.FilterIsSubsequence | frontend/src/components/viewticket.js:80-84 | a filter keeps the input's order |
| Seqs.FilterFilter | frontend/src/components/AdminProfile.js:94-98 | two filters in a row equal one filter by the conjunction |
| Seqs.FilterCommute | frontend/src/components/AdminProfile.js:105-106 | two filters commute |
| Seqs.FilterAll | frontend/src/components/AdminProfile.js:91-92 | a filter that every element passes returns the input unchanged |
| Seqs.FilterStricter | frontend/src/components/viewticket.js:80-84 | a stricter test keeps a subsequence of what a looser one keeps |
| Seqs.FilterSame | frontend/src/components/viewticket.js:80-84 | tests that agree on the input give the same result |
| Seqs.SubsequenceReflexive | frontend/src/components/AdminProfile.js:91-92 | a list is a subsequence of itself |
| Seqs.SubsequenceMembers | frontend/src/components/viewticket.js:80-84 | every element of a subsequence is an element of the list |
| Store.SubsequenceOrdered | routes/studentTimetableRoutes.js:51-56 | a subsequence of an id-ordered list is id-ordered |
| Text.IndexOf | routes/ticketRoutes.js:12 | the first position of a character, or the length when it does not occur |
| Text.IndexOfExact | routes/ticketRoutes.js:12 | a position holding the character, with no earlier occurrence, is the first position |
| Text.LeadingSpaceExact | frontend/src/components/CreateStudentTimetable.js:38 | the leading run of `\s` ends exactly at the first non-space character |
| Text.TrailingSpaceExact | frontend/src/components/CreateStudentTimetable.js:38 | the trailing run of `\s` starts exactly after the last non-space character |
| Text.LowerChar | frontend/src/components/CreateStudentTimetable.js:48 | the model's ASCII lower-casing, standing for `toLowerCase`: it maps `A`–`Z` to `a`–`z` and fixes every other character |
| Text.Lower | frontend/src/components/CreateStudentTimetable.js:48 | lower-casing keeps the length and lower-cases each character in place |
| Text.LowerIdempotent | frontend/src/components/AdminProfile.js:88 | lower-casing twice is lower-casing once |
| Text.LowerAppend | frontend/src/components/viewticket.js:81-83 | lower-casing distributes over concatenation |
| Text.IncludesIsOccurs | frontend/src/components/viewticket.js:81-83 | `includes` holds exactly when the needle occurs at some position of the haystack |
| Text.OccursIn | frontend/src/components/viewticket.js:81-83 | a string occurs in any string built around it |
| Text.OccursWithin | frontend/src/components/viewticket.js:81-83 | a string that occurs in a middle part occurs in the whole |
| Text.IncludesPrefix | frontend/src/components/viewticket.js:81-83 | a haystack that includes a string includes each of its prefixes |
| Text.IncludesEmpty | frontend/src/components/viewticket.js:81-83 | every string includes the empty string |
| Text.Decimal | routes/ticketRoutes.js:12 | the decimal numeral of a number is a non-empty run of digits with no leading zero |
| Text.DecimalRoundTrip | routes/ticketRoutes.js:12 | reading back the numeral gives the number |
| TicketRoutes.StoredFilenameRoundTrip | routes/ticketRoutes.js:11-13 | the stored name splits at its first `-` into the upload time's digits and the original name |
| TicketRoutes.StoredFilenameInjective | routes/ticketRoutes.js:11-13 | two uploads get the same stored name only with the same time and the same original name |
| TicketRoutes.MergeTicket | routes/ticketRoutes.js:69-77 | the update's string paths overwrite the ticket's and the others stay; the attachment changes only when a file came; `createdAt` stays |
| TicketRoutes.MergeKeepsComplete | routes/ticketRoutes.js:69-77 | an update that clears no required path keeps a complete ticket complete |
| TicketRoutes.TicketStore.constructor | routes/ticketRoutes.js:25-36 | an empty collection and an empty upload directory |
| TicketRoutes.TicketStore.Receive | routes/ticketRoutes.js:18-21 | a non-PDF upload is rejected and nothing is written; a PDF is written under its stored name, which is returned |
| TicketRoutes.TicketStore.Create | routes/ticketRoutes.js:25-36 | a non-PDF gives the 500 with nothing stored; a ticket missing a path gives a 400 with the validation message; otherwise a 201 with the ticket stored under a fresh id, carrying the stored file name and `createdAt` |
| TicketRoutes.TicketStore.List | routes/ticketRoutes.js:39-47 | exactly the stored tickets, in insertion order |
| TicketRoutes.TicketStore.Get | routes/ticketRoutes.js:50-61 | the stored ticket exactly when the id is stored, else the 404 |
| TicketRoutes.TicketStore.Update | routes/ticketRoutes.js:64-83 | the upload is filtered first; a body clearing a path gives the 500; a missing id the 404; otherwise that ticket alone becomes the merge |
| TicketRoutes.TicketStore.Delete | routes/ticketRoutes.js:86-106 | a missing id gives the 404; otherwise exactly that ticket is removed, and so is its attached file if it has a non-empty one |
| TicketRoutes.CreateThenDelete | routes/ticketRoutes.js:25-106 | creating a ticket with a new PDF and deleting it restores both the collection and the upload directory |
| TicketRoutes.ReplacedFileStays | routes/ticketRoutes.js:64-83 | replacing an attachment by update sets the new stored name and leaves the old file in the directory |
| TicketModel.PathsListed | models/Ticket.js:4-9 | the six required paths are listed once each |
| TicketModel.PathIndex | models/Ticket.js:4-9 | each path has its place in the declaration order |
| TicketModel.Ticket.With | frontend/src/components/viewticket.js:75-78 | `{ ...ticket, [name]: value }`: the named path takes the value and everything else stays |
| TicketModel.NewTicket | models/Ticket.js:4-11 | each string path holds the given text; the attachment is as given; `createdAt` defaults to now |
| TicketModel.CompleteFields | models/Ticket.js:4-9 | a ticket passes `required` exactly when all six string paths are non-empty |
| TicketModel.PathNamesDistinct | models/Ticket.js:4-9 | the six paths have distinct names |
| TicketModel.MissingAmong | models/Ticket.js:4-9 | among a list of paths, a path's name is listed exactly when the path is in the list and empty in the ticket; nothing is listed exactly when none is empty |
| TicketModel.Missing | models/Ticket.js:4-9 | the list of failing paths is empty exactly when the ticket is complete, and names a path exactly when it is empty |
| TicketModel.ValidationNamesMissing | models/Ticket.js:4-9 | a ticket with an empty path fails `save`, and the message says that path is required |
| TicketModel.ValidationError | models/Ticket.js:4-9 | `save` fails exactly when a required path is empty, with the message naming the missing paths |
| TicketModel.PresenceOnly | models/Ticket.js:4-9 | the schema stores values the form rejects: an eight-digit id and an address without `@` |
| TicketModel.MissingExample | models/Ticket.js:4-9 | for any ticket whose name and email alone are empty, the message lists "name" then "email", in declaration order |
| TimetableModel.Missing | models/Timetable.js:3-8 | the list of missing paths is empty exactly when time, day and activity are all given, and names each of "time", "day" and "activity" exactly when it is empty |
| TimetableModel.ValidationNamesMissing | models/Timetable.js:4-6 | a slot with an empty time, day or activity fails `save`, and the message says that path is required |
| TimetableModel.ValidationError | models/Timetable.js:3-8 | `save` fails exactly when a required path is empty, with the message naming the missing paths |
| TimetableModel.NoActivityLimit | models/Timetable.js:4-6 | the schema puts no length limit on the activity |
| StudentTimetableModel.PathsListed | models/StudentTimetable.js:3-13 | the eight string paths are listed once each and have distinct names |
| StudentTimetableModel.PathIndex | models/StudentTimetable.js:4-11 | each path has its place in the declaration order |
| StudentTimetableModel.Entry.With | frontend/src/components/ViewStudentTimetable.js:232-235 | `{ ...entry, [name]: value }`: the named path takes the value, the others and the owner stay |
| StudentTimetableModel.EntryByPaths | models/StudentTimetable.js:3-13 | two entries with one owner and equal paths are equal |
| StudentTimetableModel.PresenceOnly | models/StudentTimetable.js:4-11 | the schema checks presence only: an entry of `-` everywhere is complete, yet fails every form rule |
| StudentTimetableRoutes.Merge | routes/studentTimetableRoutes.js:65-77 | the body's paths overwrite the entry's, the others stay, and the owner changes only when the body names one |
| StudentTimetableRoutes.MergeNothing | routes/studentTimetableRoutes.js:68-72 | an empty body changes nothing |
| StudentTimetableRoutes.MergeKeepsComplete | routes/studentTimetableRoutes.js:68-72 | a body that clears no path keeps a complete entry complete |
| StudentTimetableRoutes.MergeIdempotent | routes/studentTimetableRoutes.js:68-72 | the same update applied twice is the same as once |
| StudentTimetableRoutes.StudentTimetableStore.constructor | models/StudentTimetable.js:3-13 | an empty collection |
| StudentTimetableRoutes.StudentTimetableStore.Create | routes/studentTimetableRoutes.js:8-38 | 403 for an unknown owner, 500 for an entry missing a path, otherwise 201 with the entry stored under a fresh id |
| StudentTimetableRoutes.StudentTimetableStore.List | routes/studentTimetableRoutes.js:41-62 | 403 for an unknown owner; otherwise the owner's entries matching each non-empty filter exactly, in insertion order |
| StudentTimetableRoutes.StudentTimetableStore.Update | routes/studentTimetableRoutes.js:65-77 | 500 for a body that clears a path, 404 for a missing id, otherwise that entry alone becomes the merge |
| StudentTimetableRoutes.StudentTimetableStore.Delete | routes/studentTimetableRoutes.js:81-93 | 404 for a missing id, otherwise exactly that entry is removed |
| StudentTimetableRoutes.NoFilterIsOwner | routes/studentTimetableRoutes.js:51-54 | with no filters the list is every entry of the owner |
| StudentTimetableRoutes.MoreFiltersFewerEntries | routes/studentTimetableRoutes.js:51-54 | adding a filter only drops entries, never adds or reorders them |
| StudentTimetableRoutes.ListedExactly | routes/studentTimetableRoutes.js:51-56 | a document is listed exactly when it is stored, owned by the user and matches every given filter |
| TimetableRoutes.TimetableStore.constructor | models/Timetable.js:3-8 | an empty collection |
| TimetableRoutes.TimetableStore.Create | routes/timetableRoutes.js:7-25 | 404 for an unknown owner, 400 with the validation message for a missing path, otherwise 201 with the entry stored under a fresh id |
| TimetableRoutes.TimetableStore.List | routes/timetableRoutes.js:28-44 | 404 exactly for an unknown owner; for a known owner always a 200 holding exactly the owner's stored entries, in insertion order |
| TimetableRoutes.SameSlotTwice | routes/timetableRoutes.js:7-25 | nothing prevents double booking: one slot posted twice is stored twice under different ids |
| BatchRoutes.AdminIsExact | routes/batchRoutes.js:9-12 | the role test is exact: no case folding, no trimming |
| BatchRoutes.BatchStore.constructor | routes/batchRoutes.js:6-19 | an empty collection |
| BatchRoutes.BatchStore.Create | routes/batchRoutes.js:6-19 | 403 unless the caller is an admin, 400 with the save's message when it fails, otherwise 201 with the batch stored under a fresh id |
| BatchRoutes.BatchStore.List | routes/batchRoutes.js:21-33 | 403 exactly when the caller is not an admin; for an admin always a 200 holding exactly the stored batches, in insertion order |
| AuthRoutes.Hash | routes/authRoutes.js:17-22 | the digest keeps its salt, the hashed password verifies against it, and another password verifies exactly when it derives the same key |
| AuthRoutes.RoleOrDefault | routes/authRoutes.js:23 | the role is never empty and a given role is kept |
| AuthRoutes.PatchNothing | routes/authRoutes.js:77-81 | an update with no fields changes nothing |
| AuthRoutes.PatchIdempotent | routes/authRoutes.js:77-81 | the same update applied twice is the same as once |
| AuthRoutes.PatchPassword | routes/authRoutes.js:79 | a new password verifies after the update; without one, the old passwords verify as before |
| AuthRoutes.UserStore.constructor | routes/authRoutes.js:7-35 | an empty collection with the given key derivation |
| AuthRoutes.UserStore.FindByEmail | routes/authRoutes.js:11 | the first user in insertion order with that email; none only when no user has it |
| AuthRoutes.UserStore.Register | routes/authRoutes.js:7-35 | a taken email gives the 400 and nothing changes; a free email with no password gives the 500, since bcrypt refuses to hash it, and nothing changes; otherwise a user with the hashed password and the defaulted role is stored under a fresh id, and `findOne` now finds it |
| AuthRoutes.UserStore.Login | routes/authRoutes.js:38-49 | success exactly when the first user with the email exists, a password is given and it verifies, with that user's id and role; a known email with no password gives the 500, since bcrypt refuses to compare; one 400 otherwise |
| AuthRoutes.UserStore.Get | routes/authRoutes.js:52-63 | email, role and id exactly when the user exists, else the 404 |
| AuthRoutes.UserStore.Update | routes/authRoutes.js:66-87 | 404 for a missing user; otherwise only the non-empty fields are written, the password re-hashed |
| AuthRoutes.UserStore.Delete | routes/authRoutes.js:90-106 | 404 for a missing user, otherwise exactly that user is removed |
| AuthRoutes.UserStore.List | routes/authRoutes.js:110-117 | exactly the stored users, in insertion order |
| AuthRoutes.RegisterThenLogin | routes/authRoutes.js:7-49 | a login right after a successful registration with the same credentials returns the new id and role |
| AuthRoutes.FailuresLookAlike | routes/authRoutes.js:41-44 | in any store, an unknown email and a known email with a wrong password get the same 400 |
| SlotValidation.StartClock | frontend/src/components/CreateStudentTimetable.js:38 | the starting clock is a prefix of the value |
| SlotValidation.ClockFacts | frontend/src/components/CreateStudentTimetable.js:38 | a clock has 6 to 8 characters, starts with a digit, ends in `M`/`m` and holds no `-` |
| SlotValidation.TimeRangeSound | frontend/src/components/CreateStudentTimetable.js:38 | every accepted value matches the range pattern: clock, optional spaces, `-`, optional spaces, clock |
| SlotValidation.TimeRangeComplete | frontend/src/components/CreateStudentTimetable.js:38 | every value that matches the range pattern is accepted, with its clocks found where the pattern puts them |
| SlotValidation.TimeRangeCorrect | frontend/src/components/CreateStudentTimetable.js:38 | the time test accepts exactly the values of the range pattern |
| SlotValidation.ClocksOf | frontend/src/components/CreateStudentTimetable.js:38 | two endpoints around a separator of spaces and one dash: the value is accepted exactly when both endpoints are clocks |
| SlotValidation.TimeFromClocks | frontend/src/components/CreateStudentTimetable.js:38 | two clocks joined by a spaced dash form an accepted value, with those clocks as its endpoints |
| SlotValidation.ClockBounds | frontend/src/components/CreateStudentTimetable.js:38 | a clock's hour is 1 to 12 and its minute at most 59 |
| SlotValidation.TimeBounds | frontend/src/components/CreateStudentTimetable.js:38 | both endpoints of an accepted value have hour 1 to 12 and minute at most 59 |
| SlotValidation.ClockLower | frontend/src/components/CreateStudentTimetable.js:38 | the `i` flag: a clock is accepted in any letter case |
| SlotValidation.TimeIgnoresCase | frontend/src/components/CreateStudentTimetable.js:38 | the time test gives the same answer for a lower-cased value |
| SlotValidation.TimeAcceptedSpaced | frontend/src/components/CreateStudentTimetable.js:38-41 | `10:00 AM - 11:00 AM` is accepted |
| SlotValidation.TimeAcceptedCompact | frontend/src/components/CreateStudentTimetable.js:38 | `9:30am-10:15pm` is accepted |
| SlotValidation.TimeRejectedHour | frontend/src/components/CreateStudentTimetable.js:38 | hours beyond 12 are rejected |
| SlotValidation.TimeRejectedMinute | frontend/src/components/CreateStudentTimetable.js:38 | minute 60 is rejected |
| SlotValidation.TimeRejectedNoDash | frontend/src/components/CreateStudentTimetable.js:38 | a single clock is rejected |
| SlotValidation.TimeEndpointsNotCompared | frontend/src/components/CreateStudentTimetable.js:38 | a range ending before it starts is accepted |
| SlotValidation.DayIgnoresCase | frontend/src/components/CreateStudentTimetable.js:45-48 | a day is accepted in any letter case, and an accepted day has 6 to 9 characters |
| SlotValidation.DayNotTrimmed | frontend/src/components/CreateStudentTimetable.js:48 | surrounding spaces are not trimmed: a padded day is rejected |
| SlotValidation.DayExamples | frontend/src/components/CreateStudentTimetable.js:45-48 | `Monday`, `SUNDAY` and `wEdNeSdAy` are accepted; `Mon` and `Funday` are not |
| SlotValidation.TeacherIsWord | frontend/src/components/CreateStudentTimetable.js:52-92 | a valid teacher name is also a valid subject, venue and course |
| SlotValidation.WordExamples | frontend/src/components/CreateStudentTimetable.js:52-92 | letters and spaces for a teacher, digits allowed elsewhere, two characters at least, and two spaces pass |
| SlotValidation.GradeTextValid | frontend/src/components/CreateStudentTimetable.js:73 | `year Y semester S` with single digits is accepted exactly when Y is 1 to 4 and S is 1 or 2 |
| SlotValidation.GradeIsText | frontend/src/components/CreateStudentTimetable.js:73 | an accepted grade with plain spaces is `year Y semester S` of its own digits |
| SlotValidation.GradeExamples | frontend/src/components/CreateStudentTimetable.js:73-76 | accepted and rejected grades, including case and doubled spaces |
| SlotValidation.BatchNumberCorrect | frontend/src/components/CreateStudentTimetable.js:81 | the batch number test accepts exactly digits with an optional fraction of digits |
| SlotValidation.BatchCorrect | frontend/src/components/CreateStudentTimetable.js:81 | the batch test accepts exactly `batch`, one or more spaces, and a number |
| SlotValidation.BatchFrom | frontend/src/components/CreateStudentTimetable.js:81 | after `batch` and spaces, the value is accepted exactly when the rest is a number |
| SlotValidation.BatchNumberExamples | frontend/src/components/CreateStudentTimetable.js:81 | `1`, `12`, `1.1` are numbers; `1.`, `1.1.1`, `.5` are not |
| SlotValidation.BatchAccepted | frontend/src/components/CreateStudentTimetable.js:81-84 | `batch 1`, `batch 12`, `batch 1.1` are accepted, with a space or a tab after the space |
| SlotValidation.BatchRejected | frontend/src/components/CreateStudentTimetable.js:81 | a trailing dot or two fractions are rejected |
| SlotValidation.BatchNeedsSpace | frontend/src/components/CreateStudentTimetable.js:81 | `batch1` and `Batch 1` are rejected |
| TicketValidation.NameExamples | frontend/src/components/CreateTicket.js:44-76 | names and departments need two letters or spaces at least |
| TicketValidation.DigitCountExact | frontend/src/components/CreateTicket.js:51-68 | the id takes exactly nine digits and the contact number exactly ten |
| TicketValidation.IdExamples | frontend/src/components/CreateTicket.js:51-68 | digit counts and non-digit characters decide acceptance |
| TicketValidation.EmailSound | frontend/src/components/CreateTicket.js:58 | every accepted address matches the pattern: local part, `@`, domain with an inner dot, no spaces and no second `@` |
| TicketValidation.DomainJoin | frontend/src/components/CreateTicket.js:58 | two words joined by a dot make a domain with an inner dot |
| TicketValidation.EmailComplete | frontend/src/components/CreateTicket.js:58 | every address that matches the pattern is accepted |
| TicketValidation.EmailCorrect | frontend/src/components/CreateTicket.js:58 | the email test accepts exactly the addresses of the pattern |
| TicketValidation.EmailShape | frontend/src/components/CreateTicket.js:58 | an accepted address has no space and exactly one `@`, not at the start |
| TicketValidation.EmailAccepted | frontend/src/components/CreateTicket.js:58-61 | `ann@uni.lk` is accepted |
| TicketValidation.EmailNeedsLocalPart | frontend/src/components/CreateTicket.js:58 | an address without `@`, or starting with it, is rejected |
| TicketValidation.EmailNeedsInnerDot | frontend/src/components/CreateTicket.js:58 | a domain without a dot, or with the dot first or last, is rejected |
| TicketValidation.Utf16LengthBounds | frontend/src/components/CreateTicket.js:81 | `value.length` counts UTF-16 units: between one and two per character, one for the basic plane |
| TicketValidation.MessageLength | frontend/src/components/CreateTicket.js:81 | ten characters are always enough and fewer than five never are |
| TicketValidation.PdfExamples | frontend/src/components/CreateTicket.js:93 | only a chosen file of type exactly `application/pdf` is a PDF |
| CreateStudentTimetable.Complaint | frontend/src/components/CreateStudentTimetable.js:41-91 | every field's complaint is non-empty |
| CreateStudentTimetable.FieldError | frontend/src/components/CreateStudentTimetable.js:36-96 | a change records an empty error exactly when the value passes the field's rule, else that field's complaint |
| CreateStudentTimetable.AllClearByPaths | frontend/src/components/CreateStudentTimetable.js:103 | the gate over the error record is the same as scanning the fields in order |
| CreateStudentTimetable.ChangeGate | frontend/src/components/CreateStudentTimetable.js:31-107 | after a change the gate is open only if the value passed; a failing value closes it; a passing value keeps it as it was |
| CreateStudentTimetable.Form.constructor | frontend/src/components/CreateStudentTimetable.js:7-26 | every field and every error start empty |
| CreateStudentTimetable.Form.HandleChange | frontend/src/components/CreateStudentTimetable.js:31-97 | the field takes the value and only its error is recomputed |
| CreateStudentTimetable.Form.HandleSubmit | frontend/src/components/CreateStudentTimetable.js:99-113 | posts exactly when every recorded error is empty, and then posts the user id with the form data |
| CreateStudentTimetable.UntouchedFormPosts | frontend/src/components/CreateStudentTimetable.js:7-113 | an untouched form passes the gate and posts its empty fields |
| CreateStudentTimetable.FailingChangeBlocks | frontend/src/components/CreateStudentTimetable.js:31-107 | one failing change blocks submission |
| CreateTicket.Complaint | frontend/src/components/CreateTicket.js:47-81 | every field's complaint is non-empty |
| CreateTicket.FieldError | frontend/src/components/CreateTicket.js:42-86 | a change records an empty error exactly when the value passes the field's rule, else that field's complaint |
| CreateTicket.AttachmentError | frontend/src/components/CreateTicket.js:93-97 | the attachment error is empty exactly when a PDF was chosen |
| CreateTicket.TextParts | frontend/src/components/CreateTicket.js:112-114 | at most one part per key |
| CreateTicket.TextPartsStep | frontend/src/components/CreateTicket.js:112-114 | one loop step moves one key's part from the rest to the built prefix |
| CreateTicket.TextPartsExact | frontend/src/components/CreateTicket.js:112-114 | a text part is sent for a key exactly when the key is listed and its value is non-empty, and only text parts come from text keys |
| CreateTicket.PayloadExact | frontend/src/components/CreateTicket.js:111-114 | the payload holds exactly the truthy fields and the attachment if one is set |
| CreateTicket.Form.constructor | frontend/src/components/CreateTicket.js:16-35 | fields, errors and messages start empty; no attachment |
| CreateTicket.Form.HandleChange | frontend/src/components/CreateTicket.js:37-87 | the field takes the value and only its error is recomputed |
| CreateTicket.Form.HandleFileChange | frontend/src/components/CreateTicket.js:89-98 | the attachment takes the chosen file and its error is recomputed; nothing else changes |
| CreateTicket.Form.AllValid | frontend/src/components/CreateTicket.js:104 | true exactly when every field error and the attachment error are empty |
| CreateTicket.Form.BuildPayload | frontend/src/components/CreateTicket.js:111-114 | the loop builds exactly the payload of the current form |
| CreateTicket.Form.HandleSubmit | frontend/src/components/CreateTicket.js:100-136 | blocked with the gate message exactly when an error is set; otherwise sends the payload, then resets the form on success or shows the server's message or the fallback |
| CreateTicket.NoFileStillPosts | frontend/src/components/CreateTicket.js:27-35 | a form never given a file passes the gate when the fields pass, and sends only text parts |
| CreateTicket.NonPdfBlocks | frontend/src/components/CreateTicket.js:89-108 | choosing a non-PDF blocks the next submission |
| CreateTimetable.ActivityInput | frontend/src/components/CreateTimetable.js:191 | the activity box keeps a prefix of at most 50 characters, all of a shorter input |
| CreateTimetable.Planner.constructor | frontend/src/components/CreateTimetable.js:47-50 | an empty form over the loaded list, with no message |
| CreateTimetable.Planner.HandleChange | frontend/src/components/CreateTimetable.js:89-92 | only the named input changes |
| CreateTimetable.Planner.HandleSubmit | frontend/src/components/CreateTimetable.js:95-126 | posts exactly when day, time, activity and the user id are all set; a saved entry is appended and the form cleared; a failure shows the server's message or the fallback; a refused submit shows the required-fields message |
| CreateTimetable.Entries | frontend/src/components/CreateTimetable.js:109 | the list's entries in order, without ids |
| CreateTimetable.PlanShows | frontend/src/components/CreateTimetable.js:95-113 | an entry saved at a free slot and day shows in the grid |
| ViewTimetable.FindBooked | frontend/src/components/ViewTimetable.js:74 | `find`: the first entry booked at exactly that slot and day; none only when none is |
| ViewTimetable.AnyBooked | frontend/src/components/ViewTimetable.js:139 | `some`: true exactly when an entry is booked at that slot and day |
| ViewTimetable.ScreenMatchesPdf | frontend/src/components/ViewTimetable.js:71-78 | the screen's cell and the PDF's cell are the same everywhere |
| ViewTimetable.PdfRow | frontend/src/components/ViewTimetable.js:72-76 | a row is the slot followed by the cell of each day in order |
| ViewTimetable.TableData | frontend/src/components/ViewTimetable.js:71-78 | one row per slot in order, each holding that slot's cells |
| ViewTimetable.EmptyGrid | frontend/src/components/ViewTimetable.js:75 | with no entries every cell is `-` |
| ViewTimetable.CellProvenance | frontend/src/components/ViewTimetable.js:74-75 | a filled cell shows the activity of an entry at that slot and day; any other entry there has an earlier one before it |
| ViewTimetable.OffGridIgnored | frontend/src/components/ViewTimetable.js:52-78 | entries at unlisted slots or days never show |
| ViewTimetable.AppendedEntry | frontend/src/components/ViewTimetable.js:74 | the first booking wins: an appended entry fills only an empty cell at its own slot and day |
| LocalLists.RemoveById | frontend/src/components/ViewStudentTimetable.js:34 | the list after a delete: exactly the documents with other ids |
| LocalLists.RemoveKeepsOrder | frontend/src/components/viewticket.js:54 | a delete keeps the order of the rest and changes nothing when the id is absent |
| LocalLists.RemoveTwice | frontend/src/components/AdminProfile.js:105-106 | deleting twice is deleting once, and deletions of two ids commute |
| LocalLists.ReplaceById | frontend/src/components/viewticket.js:68 | the list after an update: same length, that id's documents replaced, the others kept |
| LocalLists.ReplaceThenRemove | frontend/src/components/ViewStudentTimetable.js:242-246 | a replacement is invisible once its id is deleted, and replacing an absent id changes nothing |
| LocalLists.ReplaceTwice | frontend/src/components/viewticket.js:68 | replacing twice with the same document is replacing once |
| ViewStudentTimetable.TimetablePage.constructor | frontend/src/components/ViewStudentTimetable.js:28 | the page shows the loaded list |
| ViewStudentTimetable.TimetablePage.HandleDelete | frontend/src/components/ViewStudentTimetable.js:31-38 | after a successful delete the entries with that id leave the list; after a failure it stays |
| ViewStudentTimetable.UpdateForm.constructor | frontend/src/components/ViewStudentTimetable.js:229-230 | the form data starts as the selected entry |
| ViewStudentTimetable.UpdateForm.HandleChange | frontend/src/components/ViewStudentTimetable.js:232-235 | only the named path of the form data changes |
| ViewStudentTimetable.UpdateForm.HandleUpdate | frontend/src/components/ViewStudentTimetable.js:237-251 | the form data is sent; on success the server's answer replaces the selected id's entry in the page's list |
| ViewStudentTimetable.PdfRow | frontend/src/components/ViewStudentTimetable.js:76-85 | a report row is the entry's eight paths in declaration order |
| ViewStudentTimetable.PdfBody | frontend/src/components/ViewStudentTimetable.js:76-85 | one row per entry, in list order |
| ViewStudentTimetable.PdfRowFaithful | frontend/src/components/ViewStudentTimetable.js:76-85 | a row determines its entry, given the owner |
| ViewStudentTimetable.EditOneColumn | frontend/src/components/ViewStudentTimetable.js:232-235 | editing one path changes exactly that column of the row |
| ViewTickets.FilteredTickets | frontend/src/components/viewticket.js:80-84 | the shown tickets are exactly those whose name, university id or email contains the term, ignoring case |
| ViewTickets.FilteredIsSubsequence | frontend/src/components/viewticket.js:80-84 | the search keeps the list order |
| ViewTickets.EmptyTermKeepsAll | frontend/src/components/viewticket.js:80-84 | an empty term shows every ticket |
| ViewTickets.SearchIgnoresCase | frontend/src/components/viewticket.js:80-84 | lower-casing the term does not change the result |
| ViewTickets.LongerTermNarrows | frontend/src/components/viewticket.js:80-84 | typing more of the term only narrows the list |
| ViewTickets.TicketsPage.constructor | frontend/src/components/viewticket.js:38-49 | the loaded list, no search term, no dialog |
| ViewTickets.TicketsPage.SetSearchTerm | frontend/src/components/viewticket.js:80-84 | only the term changes |
| ViewTickets.TicketsPage.HandleDeleteTicket | frontend/src/components/viewticket.js:51-58 | a successful delete drops exactly that id's tickets; a failure sets the error and keeps the list |
| ViewTickets.TicketsPage.HandleEditTicket | frontend/src/components/viewticket.js:60-63 | the dialog opens on the ticket |
| ViewTickets.TicketsPage.HandleDialogChange | frontend/src/components/viewticket.js:75-78 | only the named path of the selected copy changes |
| ViewTickets.TicketsPage.HandleUpdateTicket | frontend/src/components/viewticket.js:65-73 | the copy is sent; success replaces the ticket with its id and closes the dialog; failure sets the error |
| ViewTickets.EditAndSave | frontend/src/components/viewticket.js:60-78 | editing one path and saving changes that ticket's path alone and keeps the list's length |
| AdminProfile.Search | frontend/src/components/AdminProfile.js:87-100 | everyone for an empty query; otherwise exactly the users whose email or role contains the query, in order |
| AdminProfile.SearchAfterRemove | frontend/src/components/AdminProfile.js:102-107 | deleting from the search result agrees with searching the list after the delete |
| AdminProfile.SearchIsSubsequence | frontend/src/components/AdminProfile.js:94-98 | the search keeps the list order |
| AdminProfile.AdminPage.constructor | frontend/src/components/AdminProfile.js:72-84 | both lists are the loaded users, with no query and no message |
| AdminProfile.AdminPage.HandleSearch | frontend/src/components/AdminProfile.js:87-100 | the query is lower-cased and the shown list becomes its search over the full list |
| AdminProfile.AdminPage.HandleDeleteUser | frontend/src/components/AdminProfile.js:102-112 | success drops the user from both lists, which stay consistent, and sets the message; failure shows the server's message or the fallback |
| AdminProfile.ClearedSearchShowsAll | frontend/src/components/AdminProfile.js:87-100 | clearing a search shows the whole list again |

## Left out

- Rendering is not modelled: JSX, Material-UI styling, the dialogs' open and close state in `ViewStudentTimetable.js:40-48`, `jsPDF` drawing, navigation and the timers (`setTimeout`).
- HTTP transport and `async` are not modelled: `axios` calls and their ordering. Each handler takes the server's answer as a parameter.
- `localStorage` is not modelled: the user id is a parameter.
- The catch-all 500 "Server error" replies are not modelled where they answer a database failure, which the model does not have. The same goes for malformed ids, which raise a cast error. The one in `routes/authRoutes.js:32-33` and `:46-47` that a request with no password reaches is modelled.
- A register or login request with no email is not modelled: the email is always a string.
- `models/User.js` and `models/Batch.js` are not part of this model. A user has the email, digest and role the routes use. A batch is the body it was built from, and whether its save fails is a parameter.
- `routes/venueRoutes.js`, `models/Venue.js`, `server.js` and the other pages are not part of this model.
- bcrypt's cost factor and its random salt are not modelled: hashing is a fixed function `kdf` with the salt as a parameter.
- `fs.unlink` failures are not modelled: the reply is the same either way and the failure is only logged.
- Console logging and `CreateStudentTimetable.js`'s error logging are left out, because they change no state.
- Email uniqueness is not an invariant of the user store. `models/User.js` is not part of this model, and the model assumes it declares no unique index on the email. So the update route can write an email another user has. If the schema did declare one, that `save` would fail with a 500.
- `findByIdAndUpdate` with keys the schema does not declare is not modelled: a body is a map from declared paths only. A path whose value is `undefined` (the ticket update destructures all six) is taken as absent from the update, as current Mongoose drops such keys.
- The option lists of `CreateTimetable.js:53-65` are not stated separately: they equal `ViewTimetable.Days` and `ViewTimetable.TimeSlots`, and `CreateTimetable.Planner.HandleChange` takes any value.
- The initial fetch (`useEffect`) of each page is left out: the constructors take the loaded list.
- HTML `required` attributes on the inputs are left out: the browser's own check is not part of the code.
- Text.LowerChar and Text.Lower: only ASCII letters are lower-cased, unlike `toLowerCase`, which also folds other scripts. The day test and the searches are therefore modelled for ASCII case only.
- CreateTimetable.ActivityInput: `maxLength` is modelled as truncation to 50 characters, not 50 UTF-16 units.
- ViewTickets.TicketsPage.HandleDialogChange and ViewTickets.TicketsPage.HandleUpdateTicket require a selected ticket. The source can only call them while the dialog is open on one.
