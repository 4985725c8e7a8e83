/**
 * The student-timetable page (frontend/src/components/ViewStudentTimetable.js):
 * the loaded list, its local update after a delete or an edit, the edit form,
 * and the rows of the PDF report.
 */
module ViewStudentTimetable {
  import opened Wrappers
  import opened Store
  import opened StudentTimetableModel
  import opened LocalLists

  /** The list shown on the page. */
  class TimetablePage {
    var timetable: seq<Doc<Entry>>

    constructor(loaded: seq<Doc<Entry>>)
      ensures timetable == loaded
    {
      timetable := loaded;
    }

    /** `handleDelete`: once the server has deleted `id`, every entry with that id leaves the list. */
    method HandleDelete(id: Id, deleted: bool)
      modifies this
      ensures timetable == if deleted then RemoveById(old(timetable), id) else old(timetable)
    {
      if deleted {
        timetable := RemoveById(timetable, id);
      }
    }
  }

  /** `UpdateTimetableForm`: the entry being edited, and the form data started from it. */
  class UpdateForm {
    const selected: Doc<Entry>
    var formData: Doc<Entry>

    /** `useState(selectedEntry)` */
    constructor(selected: Doc<Entry>)
      ensures this.selected == selected && formData == selected
    {
      this.selected := selected;
      formData := selected;
    }

    /** `handleChange`: only the named path of the form data changes. */
    method HandleChange(name: Path, value: string)
      modifies this
      ensures formData == Doc(old(formData).id, old(formData).data.With(name, value))
    {
      formData := Doc(formData.id, formData.data.With(name, value));
    }

    /**
     * `handleUpdate`: the form data is sent; on success the entry with the
     * selected id is replaced in the page's list by the server's answer.
     */
    method HandleUpdate(page: TimetablePage, response: Option<Doc<Entry>>) returns (sent: Doc<Entry>)
      modifies page
      ensures sent == formData
      ensures page.timetable == if response.Some? then ReplaceById(old(page.timetable), selected.id, response.value)
                                else old(page.timetable)
    {
      sent := formData;
      if response.Some? {
        page.timetable := ReplaceById(page.timetable, selected.id, response.value);
      }
    }
  }

  /** The PDF row of an entry: its eight string paths in declaration order. */
  function PdfRow(e: Entry): (row: seq<string>)
    ensures |row| == |Paths|
    ensures forall j :: 0 <= j < |Paths| ==> row[j] == e.Get(Paths[j])
  {
    [e.time, e.day, e.teacher, e.subject, e.venue, e.grade, e.batch, e.course]
  }

  /** `timetable.map(...)`: one row per entry, in list order. */
  function PdfBody(timetable: seq<Doc<Entry>>): (body: seq<seq<string>>)
    ensures |body| == |timetable|
    ensures forall i :: 0 <= i < |timetable| ==> body[i] == PdfRow(timetable[i].data)
  {
    seq(|timetable|, i requires 0 <= i < |timetable| => PdfRow(timetable[i].data))
  }

  /** A row shows every path of its entry: two entries of one owner with the same row are equal. */
  lemma PdfRowFaithful(a: Entry, b: Entry)
    requires a.userId == b.userId && PdfRow(a) == PdfRow(b)
    ensures a == b
  {
    forall p ensures a.Get(p) == b.Get(p) {
      var j := PathIndex(p);
      assert PdfRow(a)[j] == PdfRow(b)[j];
    }
    EntryByPaths(a, b);
  }

  /** Editing one path changes one column of the entry's row. */
  lemma EditOneColumn(e: Entry, p: Path, v: string)
    ensures forall j :: 0 <= j < |Paths| ==>
              PdfRow(e.With(p, v))[j] == if Paths[j] == p then v else PdfRow(e)[j]
  {
  }
}
