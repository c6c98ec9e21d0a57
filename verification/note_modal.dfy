/**
 * The note editor (src/components/modals/NoteModal.tsx): its edit buffer, built from the note
 * being edited, and the conversion back to a save request on submit.
 */
module NoteModal {
  import opened Types
  import opened JsText

  /** `formData` and `selectedCats`: the chosen category ids are held as strings, as the select reports them. */
  datatype Form = Form(title: string, content: string, selected: seq<string>)

  /** The id strings of a list of categories, in order: what `c.id.toString()` and the option values give. */
  function IdStrings(cs: seq<Category>): (r: seq<string>)
    ensures |r| == |cs|
    ensures forall i :: 0 <= i < |cs| ==> r[i] == IntToString(cs[i].id)
    ensures forall i :: 0 <= i < |cs| ==> ParseInt(r[i]) == Some(cs[i].id)
  {
    var r := seq(|cs|, i requires 0 <= i < |cs| => IntToString(cs[i].id));
    assert forall i :: 0 <= i < |cs| ==> ParseInt(r[i]) == Some(cs[i].id) by {
      forall i | 0 <= i < |cs| {
        ParseIntToString(cs[i].id);
      }
    }
    r
  }

  /**
   * The buffer as the modal opens: empty when creating; the note's title, content and
   * category ids otherwise.
   */
  function InitialForm(noteToEdit: Option<Note>): (f: Form)
    ensures noteToEdit.None? ==> f == Form("", "", [])
    ensures noteToEdit.Some? ==>
              f.title == noteToEdit.value.title && f.content == noteToEdit.value.content
              && |f.selected| == |noteToEdit.value.categories|
              && (forall i :: 0 <= i < |f.selected| ==> f.selected[i] == IntToString(noteToEdit.value.categories[i].id))
              && (forall i :: 0 <= i < |f.selected| ==> ParseInt(f.selected[i]) == Some(noteToEdit.value.categories[i].id))
  {
    match noteToEdit
    case None => Form("", "", [])
    case Some(n) => Form(n.title, n.content, IdStrings(n.categories))
  }

  /** Every selected string reads back as a number (never NaN). */
  ghost predicate ValidSelection(selected: seq<string>) {
    forall i :: 0 <= i < |selected| ==> ParseInt(selected[i]).Some?
  }

  /** The title input's `onChange`. */
  function SetTitle(f: Form, title: string): (r: Form)
    ensures r.title == title && r.content == f.content && r.selected == f.selected
  {
    f.(title := title)
  }

  /** The content textarea's `onChange`. */
  function SetContent(f: Form, content: string): (r: Form)
    ensures r.content == content && r.title == f.title && r.selected == f.selected
  {
    f.(content := content)
  }

  /** The select's `onChange`: the selection becomes the values of the chosen options, each a category id. */
  function SelectOptions(f: Form, chosen: seq<Category>): (r: Form)
    ensures r.title == f.title && r.content == f.content
    ensures ValidSelection(r.selected) && |r.selected| == |chosen|
    ensures forall i :: 0 <= i < |chosen| ==> r.selected[i] == IntToString(chosen[i].id)
    ensures forall i :: 0 <= i < |chosen| ==> ParseInt(r.selected[i]) == Some(chosen[i].id)
  {
    f.(selected := IdStrings(chosen))
  }

  /** The buffer opens with a selection that reads back as numbers; `SelectOptions` keeps it so. */
  lemma InitialSelectionValid(noteToEdit: Option<Note>)
    ensures ValidSelection(InitialForm(noteToEdit).selected)
  {
  }

  /** The arguments `handleSubmit` passes to `onSave`. */
  datatype SaveRequest = SaveRequest(noteId: Option<int>, data: NoteData, ids: seq<int>)

  /** `selectedCats.map((id) => parseInt(id))`. */
  function ParseIds(selected: seq<string>): (ids: seq<int>)
    requires ValidSelection(selected)
    ensures |ids| == |selected|
    ensures forall i :: 0 <= i < |ids| ==> ParseInt(selected[i]) == Some(ids[i])
  {
    seq(|selected|, i requires 0 <= i < |selected| && ValidSelection(selected) => ParseInt(selected[i]).value)
  }

  /**
   * `handleSubmit`: the edited note's id, or null when creating (and, through `||`, when that id
   * is 0), the buffer's title and content, and the selection converted to numbers.
   */
  function Submit(noteToEdit: Option<Note>, f: Form): (r: SaveRequest)
    requires ValidSelection(f.selected)
    ensures r.noteId.None? <==> noteToEdit.None? || noteToEdit.value.id == 0
    ensures r.noteId.Some? ==> r.noteId.value == noteToEdit.value.id
    ensures r.data == NoteData(f.title, f.content)
    ensures |r.ids| == |f.selected|
    ensures forall i :: 0 <= i < |r.ids| ==> ParseInt(f.selected[i]) == Some(r.ids[i])
  {
    var id := if noteToEdit.Some? && noteToEdit.value.id != 0 then Some(noteToEdit.value.id) else None;
    SaveRequest(id, NoteData(f.title, f.content), ParseIds(f.selected))
  }

  /** Submitting an untouched selection hands back exactly the note's category ids, in order. */
  lemma UnchangedSelectionRoundTrip(n: Note, title: string, content: string)
    ensures var f := InitialForm(Some(n)).(title := title, content := content);
            Submit(Some(n), f).ids == CategoryIds(n.categories)
  {
    var f := InitialForm(Some(n)).(title := title, content := content);
    var ids := Submit(Some(n), f).ids;
    forall i | 0 <= i < |ids|
      ensures ids[i] == n.categories[i].id
    {
      assert ParseInt(f.selected[i]) == Some(ids[i]);
    }
  }
}
