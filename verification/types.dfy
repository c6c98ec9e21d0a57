/** The records the client exchanges with the backend (src/types/note.ts, src/types/auth.ts). */
module Types {

  /** A value that may be absent: TypeScript's `T | null`. */
  datatype Option<T> = None | Some(value: T)

  /** The authenticated user, as returned by `/auth/me`. */
  datatype User = User(id: string, firstName: string, lastName: string, email: string)

  datatype Category = Category(id: int, name: string)

  datatype Note = Note(id: int, title: string, content: string, archived: bool, categories: seq<Category>)

  /** The body of a create or update request (`CreateNoteDto` / `UpdateNoteDto`). */
  datatype NoteData = NoteData(title: string, content: string)

  /** The login form's `{ email, password }` pair. */
  datatype Credentials = Credentials(email: string, password: string)

  /** The ids of a note's categories, in order. */
  function CategoryIds(cs: seq<Category>): (ids: seq<int>)
    ensures |ids| == |cs|
    ensures forall i :: 0 <= i < |cs| ==> ids[i] == cs[i].id
  {
    seq(|cs|, i requires 0 <= i < |cs| => cs[i].id)
  }

  /** `notes.find((n) => n.id === id)`: the first note carrying `id`. */
  function FindNote(notes: seq<Note>, id: int): (r: Option<Note>)
    ensures r.None? <==> forall i :: 0 <= i < |notes| ==> notes[i].id != id
    ensures r.Some? ==> r.value in notes && r.value.id == id
    ensures r.Some? ==> exists i :: 0 <= i < |notes| && notes[i] == r.value
                                    && forall j :: 0 <= j < i ==> notes[j].id != id
  {
    if |notes| == 0 then None
    else if notes[0].id == id then Some(notes[0])
    else
      var r := FindNote(notes[1..], id);
      assert forall j :: 0 < j < |notes| ==> notes[j] == notes[1..][j - 1];
      r
  }
}
