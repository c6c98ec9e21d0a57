/**
 * The note list logic of the home page (src/pages/HomePage.tsx): loading notes and categories,
 * saving a note with its category associations, deleting, archiving, and filtering the list.
 *
 * Every request to the note service is an emitted `Call`; what the backend answers is an input.
 * An operation's requests form a sequence of stages: each stage is awaited before the next
 * starts, and the calls within one stage (a `Promise.all` batch) form an unordered set.
 */
module HomePage {
  import opened Types
  import opened Seqs
  import JsText

  /** A request to the note service (src/services/noteService.ts), or a re-run of `fetchData`. */
  datatype Call =
    | ListNotes(archived: bool)
    | ListCategories
    | CreateNote(data: NoteData)
    | UpdateNote(id: int, data: NoteData)
    | DeleteNote(id: int)
    | ArchiveNote(id: int)
    | UnarchiveNote(id: int)
    | CreateCategory(name: string)
    | DeleteCategory(id: int)
    | AddCategory(noteId: int, categoryId: int)
    | RemoveCategory(noteId: int, categoryId: int)
    | Refetch

  /** A call that adds or removes one note-category association. */
  predicate IsAssociation(c: Call) {
    c.AddCategory? || c.RemoveCategory?
  }

  /** The page's state that the handlers below read or write. */
  datatype Page = Page(
    notes: seq<Note>,
    categories: seq<Category>,
    loading: bool,
    showArchived: bool,
    filterCategory: string,
    noteModalOpen: bool)

  /** The state after a handler, and the stages of calls it issued. */
  datatype Effect = Effect(page: Page, stages: seq<set<Call>>)

  /** What a successful `Promise.all([getAll(showArchived), getCategories()])` returns. */
  datatype Fetched = Fetched(notes: seq<Note>, categories: seq<Category>)

  /**
   * `fetchData`: with nobody signed in nothing happens; otherwise both lists are requested
   * together and, when both arrive, replace the held ones; `loading` ends false either way.
   */
  function FetchData(page: Page, signedIn: bool, response: Option<Fetched>): (e: Effect)
    ensures !signedIn ==> e == Effect(page, [])
    ensures signedIn ==> e.stages == [{ListNotes(page.showArchived), ListCategories}] && !e.page.loading
    ensures signedIn && response.Some? ==>
              e.page == page.(notes := response.value.notes, categories := response.value.categories, loading := false)
    ensures signedIn && response.None? ==> e.page == page.(loading := false)
  {
    if !signedIn then Effect(page, [])
    else
      var batch := {ListNotes(page.showArchived), ListCategories};
      match response
      case Some(f) => Effect(page.(notes := f.notes, categories := f.categories, loading := false), [batch])
      case None => Effect(page.(loading := false), [batch])
  }

  /** `cs.some((c) => c.id === id)`. */
  predicate HasId(cs: seq<Category>, id: int) {
    exists i :: 0 <= i < |cs| && cs[i].id == id
  }

  /** The selected ids the note does not have yet (`categoriesToAdd`), in selection order. */
  function ToAdd(current: seq<Category>, selected: seq<int>): (r: seq<int>)
    ensures forall x :: x in r <==> x in selected && !HasId(current, x)
    ensures IsSubsequence(r, selected)
  {
    var p := (x: int) => !HasId(current, x);
    FilterIsSubsequence(selected, p);
    Filter(selected, p)
  }

  /** The ids of the note's categories that are no longer selected (`categoriesToRemove`). */
  function ToRemove(current: seq<Category>, selected: seq<int>): (r: seq<int>)
    ensures forall x :: x in r <==> HasId(current, x) && x !in selected
  {
    var kept := Filter(current, (c: Category) => c.id !in selected);
    var r := CategoryIds(kept);
    assert forall x :: x in r ==> exists c :: c in kept && c.id == x;
    assert forall i :: 0 <= i < |current| && current[i].id !in selected ==> current[i] in kept;
    r
  }

  /** One add per id in `ToAdd`. */
  function AddBatch(noteId: int, current: seq<Category>, selected: seq<int>): (b: set<Call>)
    ensures forall c :: c in b ==> c.AddCategory? && c.noteId == noteId
    ensures forall x :: AddCategory(noteId, x) in b <==> x in selected && !HasId(current, x)
  {
    var add := ToAdd(current, selected);
    set x | x in add :: AddCategory(noteId, x)
  }

  /** One remove per id in `ToRemove`. */
  function RemoveBatch(noteId: int, current: seq<Category>, selected: seq<int>): (b: set<Call>)
    ensures forall c :: c in b ==> c.RemoveCategory? && c.noteId == noteId
    ensures forall x :: RemoveCategory(noteId, x) in b <==> HasId(current, x) && x !in selected
  {
    var remove := ToRemove(current, selected);
    set x | x in remove :: RemoveCategory(noteId, x)
  }

  /** The association batch of an edit: an add for every id in `ToAdd`, a remove for every id in `ToRemove`. */
  function AssociationBatch(noteId: int, current: seq<Category>, selected: seq<int>): (b: set<Call>)
    ensures forall c :: c in b ==> IsAssociation(c) && c.noteId == noteId
    ensures forall x :: AddCategory(noteId, x) in b <==> x in selected && !HasId(current, x)
    ensures forall x :: RemoveCategory(noteId, x) in b <==> HasId(current, x) && x !in selected
  {
    AddBatch(noteId, current, selected) + RemoveBatch(noteId, current, selected)
  }

  /** The association batch of a create: one add per selected id. */
  function CreateBatch(noteId: int, selected: seq<int>): (b: set<Call>)
    ensures forall c :: c in b ==> c.AddCategory? && c.noteId == noteId && c.categoryId in selected
    ensures forall x :: x in selected ==> AddCategory(noteId, x) in b
  {
    set x | x in selected :: AddCategory(noteId, x)
  }

  /** `if (noteId)`: null and 0 both take the create path. */
  predicate IsEdit(noteId: Option<int>) {
    noteId.Some? && noteId.value != 0
  }

  /** The association batch a save issues, if it reaches `Promise.all` at all. */
  function SaveBatch(page: Page, noteId: Option<int>, selected: seq<int>, savedId: int): (b: Option<set<Call>>)
    ensures b.Some? ==> forall c :: c in b.value ==> IsAssociation(c) && c.noteId == savedId
    ensures !IsEdit(noteId) ==> b.Some?
  {
    if !IsEdit(noteId) then Some(CreateBatch(savedId, selected))
    else match FindNote(page.notes, noteId.value)
      case None => None
      case Some(n) => Some(AssociationBatch(savedId, n.categories, selected))
  }

  /** An awaited batch completes: `Promise.all([])` always resolves, so an empty batch cannot fail. */
  predicate BatchCompletes(batch: Option<set<Call>>, batchOk: bool) {
    batch.None? || batch.value == {} || batchOk
  }

  /**
   * `handleSaveNote`: update (or create) the note, then issue the association batch against the
   * id the server returned, then close the modal and refetch. `savedId` is that id, or None when
   * the update/create request fails; `batchOk` says whether the whole batch succeeds.
   * A failure anywhere is logged and ends the handler: the modal stays open and nothing is refetched.
   */
  function SaveNote(page: Page, noteId: Option<int>, data: NoteData, selected: seq<int>,
                    savedId: Option<int>, batchOk: bool): (e: Effect)
    ensures |e.stages| >= 1
    ensures IsEdit(noteId) ==> e.stages[0] == {UpdateNote(noteId.value, data)}
    ensures !IsEdit(noteId) ==> e.stages[0] == {CreateNote(data)}
    ensures savedId.None? ==> |e.stages| == 1 && e.page == page
    ensures savedId.Some? ==>
              var batch := SaveBatch(page, noteId, selected, savedId.value);
              && (batch.None? ==> e.stages == [e.stages[0], {Refetch}])
              && (batch.Some? ==> |e.stages| >= 2 && e.stages[1] == batch.value)
              && (BatchCompletes(batch, batchOk) ==>
                    e.page == page.(noteModalOpen := false)
                    && |e.stages| == (if batch.Some? then 3 else 2) && e.stages[|e.stages| - 1] == {Refetch})
              && (!BatchCompletes(batch, batchOk) ==> e.page == page && |e.stages| == 2 && e.stages[1] != {})
  {
    var head := if IsEdit(noteId) then UpdateNote(noteId.value, data) else CreateNote(data);
    if savedId.None? then Effect(page, [{head}])
    else AfterSave(page, head, SaveBatch(page, noteId, selected, savedId.value), batchOk)
  }

  /** The rest of a save once the update/create has returned: the batch if any, then close and refetch. */
  function AfterSave(page: Page, head: Call, batch: Option<set<Call>>, batchOk: bool): (e: Effect)
    ensures |e.stages| >= 2 && e.stages[0] == {head}
    ensures batch.None? ==> e.stages == [{head}, {Refetch}]
    ensures batch.Some? ==> e.stages[1] == batch.value
    ensures BatchCompletes(batch, batchOk) ==>
              e.page == page.(noteModalOpen := false)
              && |e.stages| == (if batch.Some? then 3 else 2) && e.stages[|e.stages| - 1] == {Refetch}
    ensures !BatchCompletes(batch, batchOk) ==> e.page == page && |e.stages| == 2 && e.stages[1] != {}
  {
    match batch
    case None => Effect(page.(noteModalOpen := false), [{head}, {Refetch}])
    case Some(b) =>
      if b != {} && !batchOk then Effect(page, [{head}, b])
      else Effect(page.(noteModalOpen := false), [{head}, b, {Refetch}])
  }

  /** Every association call of a save targets the id the update/create returned, never the input id. */
  lemma SaveTargetsSavedId(page: Page, noteId: Option<int>, data: NoteData, selected: seq<int>,
                           savedId: Option<int>, batchOk: bool)
    ensures var e := SaveNote(page, noteId, data, selected, savedId, batchOk);
            forall i, c :: 0 <= i < |e.stages| && c in e.stages[i] && IsAssociation(c) ==>
              savedId.Some? && c.noteId == savedId.value
  {
    var e := SaveNote(page, noteId, data, selected, savedId, batchOk);
    forall i, c | 0 <= i < |e.stages| && c in e.stages[i]
      ensures !IsAssociation(c) || (savedId.Some? && c.noteId == savedId.value)
    {
      if i > 0 {
        var batch := SaveBatch(page, noteId, selected, savedId.value);
        if i == 1 && batch.Some? {
          assert c in batch.value;
        }
      }
    }
  }

  /** `prev.filter((n) => n.id !== id)`: every note carrying `id` goes, the rest keep their order. */
  function WithoutNote(notes: seq<Note>, id: int): (r: seq<Note>)
    ensures forall n :: n in r <==> n in notes && n.id != id
    ensures forall n: Note :: n.id != id ==> multiset(r)[n] == multiset(notes)[n]
    ensures IsSubsequence(r, notes)
  {
    var p := (n: Note) => n.id != id;
    FilterIsSubsequence(notes, p);
    Filter(notes, p)
  }

  /**
   * `handleDeleteNote`: nothing at all happens unless the user confirms; the note leaves the
   * list only once the delete request succeeds.
   */
  function DeleteNoteHandler(page: Page, id: int, confirmed: bool, ok: bool): (e: Effect)
    ensures !confirmed ==> e == Effect(page, [])
    ensures confirmed ==> e.stages == [{DeleteNote(id)}]
    ensures confirmed && ok ==> e.page == page.(notes := WithoutNote(page.notes, id))
    ensures !ok ==> e.page == page
  {
    if !confirmed then Effect(page, [])
    else if ok then Effect(page.(notes := WithoutNote(page.notes, id)), [{DeleteNote(id)}])
    else Effect(page, [{DeleteNote(id)}])
  }

  /**
   * `handleArchiveToggle`: the note leaves the displayed list before the request is sent; an
   * archived note is unarchived and any other archived; only a failed request triggers a refetch.
   */
  function ArchiveToggle(page: Page, id: int, currentStatus: bool, ok: bool): (e: Effect)
    ensures e.page == page.(notes := WithoutNote(page.notes, id))
    ensures |e.stages| >= 1
    ensures e.stages[0] == {if currentStatus then UnarchiveNote(id) else ArchiveNote(id)}
    ensures ok ==> |e.stages| == 1
    ensures !ok ==> |e.stages| == 2 && e.stages[1] == {Refetch}
  {
    var request := if currentStatus then UnarchiveNote(id) else ArchiveNote(id);
    Effect(page.(notes := WithoutNote(page.notes, id)), [{request}] + (if ok then [] else [{Refetch}]))
  }

  /** `handleCreateCategory`: create, then refetch on success. */
  function CreateCategoryHandler(page: Page, name: string, ok: bool): (e: Effect)
    ensures e.page == page
    ensures ok ==> e.stages == [{CreateCategory(name)}, {Refetch}]
    ensures !ok ==> e.stages == [{CreateCategory(name)}]
  {
    Effect(page, [{CreateCategory(name)}] + (if ok then [{Refetch}] else []))
  }

  /** `handleDeleteCategory`: nothing unless confirmed; delete, then refetch on success. */
  function DeleteCategoryHandler(page: Page, id: int, confirmed: bool, ok: bool): (e: Effect)
    ensures e.page == page
    ensures !confirmed ==> e.stages == []
    ensures confirmed && ok ==> e.stages == [{DeleteCategory(id)}, {Refetch}]
    ensures confirmed && !ok ==> e.stages == [{DeleteCategory(id)}]
  {
    if !confirmed then Effect(page, [])
    else Effect(page, [{DeleteCategory(id)}] + (if ok then [{Refetch}] else []))
  }

  /** `handleRemoveCategoryFromNote`: remove one association, then refetch on success. */
  function RemoveCategoryHandler(page: Page, noteId: int, categoryId: int, ok: bool): (e: Effect)
    ensures e.page == page
    ensures ok ==> e.stages == [{RemoveCategory(noteId, categoryId)}, {Refetch}]
    ensures !ok ==> e.stages == [{RemoveCategory(noteId, categoryId)}]
  {
    Effect(page, [{RemoveCategory(noteId, categoryId)}] + (if ok then [{Refetch}] else []))
  }

  /** Whether one of the note's categories has an id whose string is `filter`. */
  predicate InCategory(n: Note, filter: string) {
    exists i :: 0 <= i < |n.categories| && JsText.IntToString(n.categories[i].id) == filter
  }

  /** `filteredNotes`: everything when no filter is set, else the notes in the chosen category. */
  function FilteredNotes(notes: seq<Note>, filter: string): (r: seq<Note>)
    ensures filter == "" ==> r == notes
    ensures filter != "" ==> forall n :: n in r <==> n in notes && InCategory(n, filter)
    ensures filter != "" ==> forall n: Note :: multiset(r)[n] == if InCategory(n, filter) then multiset(notes)[n] else 0
    ensures IsSubsequence(r, notes)
  {
    var p := (n: Note) => if filter != "" then InCategory(n, filter) else true;
    FilterIsSubsequence(notes, p);
    assert filter == "" ==> Filter(notes, p) == notes by {
      if filter == "" {
        FilterKeepsAll(notes, p);
      }
    }
    Filter(notes, p)
  }

  // ---------------------------------------------------------------------------------------------
  // Laws of the save orchestration and of the list transitions
  // ---------------------------------------------------------------------------------------------

  /** The elements of a sequence, as a set. */
  ghost function Elems(s: seq<int>): set<int> {
    set x | x in s
  }

  /** The ids of a list of categories, as a set. */
  ghost function IdSet(cs: seq<Category>): set<int> {
    set c | c in cs :: c.id
  }

  lemma HasIdIffInIdSet(cs: seq<Category>, x: int)
    ensures HasId(cs, x) <==> x in IdSet(cs)
  {
    if x in IdSet(cs) {
      var c :| c in cs && c.id == x;
      var i :| 0 <= i < |cs| && cs[i] == c;
    }
  }

  /**
   * The diff law of an edit: the ids added are exactly selected minus current, the ids removed
   * exactly current minus selected, and no id is both added and removed.
   */
  lemma EditDiffLaw(current: seq<Category>, selected: seq<int>)
    ensures Elems(ToAdd(current, selected)) == Elems(selected) - IdSet(current)
    ensures Elems(ToRemove(current, selected)) == IdSet(current) - Elems(selected)
    ensures Elems(ToAdd(current, selected)) !! Elems(ToRemove(current, selected))
  {
    forall x {
      HasIdIffInIdSet(current, x);
    }
  }

  /** The ids of a note after the backend applies a batch, when adding a present id and removing an absent one change nothing. */
  ghost function ApplyBatch(ids: set<int>, noteId: int, batch: set<Call>): set<int> {
    (ids + set c | c in batch && c.AddCategory? && c.noteId == noteId :: c.categoryId)
      - set c | c in batch && c.RemoveCategory? && c.noteId == noteId :: c.categoryId
  }

  /** After an edit's batch the note's categories are exactly the selected ones. */
  lemma EditConverges(noteId: int, current: seq<Category>, selected: seq<int>)
    ensures ApplyBatch(IdSet(current), noteId, AssociationBatch(noteId, current, selected)) == Elems(selected)
  {
    var b := AssociationBatch(noteId, current, selected);
    var r := ApplyBatch(IdSet(current), noteId, b);
    forall x
      ensures x in r <==> x in selected
    {
      HasIdIffInIdSet(current, x);
      if x in selected && !HasId(current, x) {
        assert AddCategory(noteId, x) in b;
      }
      if x !in selected && HasId(current, x) {
        assert RemoveCategory(noteId, x) in b;
      }
    }
  }

  /** After a create's batch the new note's categories are exactly the selected ones. */
  lemma CreateConverges(noteId: int, selected: seq<int>)
    ensures ApplyBatch({}, noteId, CreateBatch(noteId, selected)) == Elems(selected)
  {
    var b := CreateBatch(noteId, selected);
    forall x | x in selected
      ensures x in ApplyBatch({}, noteId, b)
    {
      assert AddCategory(noteId, x) in b;
    }
  }

  /** When the selection equals the current categories the batch is empty. */
  lemma UnchangedSelectionEmptyBatch(noteId: int, current: seq<Category>, selected: seq<int>)
    requires Elems(selected) == IdSet(current)
    ensures AssociationBatch(noteId, current, selected) == {}
  {
    var b := AssociationBatch(noteId, current, selected);
    forall c: Call
      ensures c !in b
    {
      if c.AddCategory? || c.RemoveCategory? {
        HasIdIffInIdSet(current, c.categoryId);
      }
    }
  }

  /**
   * Saving an edited note whose selection equals its current categories issues no association
   * call, and the save then always completes: the modal closes and the page refetches.
   */
  lemma SaveUnchangedSelection(page: Page, id: int, data: NoteData, selected: seq<int>, savedId: int, batchOk: bool)
    requires id != 0 && FindNote(page.notes, id).Some?
    requires Elems(selected) == IdSet(FindNote(page.notes, id).value.categories)
    ensures var e := SaveNote(page, Some(id), data, selected, Some(savedId), batchOk);
            e.stages == [{UpdateNote(id, data)}, {}, {Refetch}]
            && e.page == page.(noteModalOpen := false)
  {
    UnchangedSelectionEmptyBatch(savedId, FindNote(page.notes, id).value.categories, selected);
  }

  /** Saving an edit of a note the page does not hold issues only the update, then the refetch. */
  lemma SaveUnknownNote(page: Page, id: int, data: NoteData, selected: seq<int>, savedId: int, batchOk: bool)
    requires id != 0 && FindNote(page.notes, id).None?
    ensures SaveNote(page, Some(id), data, selected, Some(savedId), batchOk).stages == [{UpdateNote(id, data)}, {Refetch}]
  {
  }

  /**
   * Creating (no id, or id 0) issues one create, then exactly one add per selected id, against
   * the new id. With no category selected the save always completes and refetches.
   */
  lemma SaveCreate(page: Page, noteId: Option<int>, data: NoteData, selected: seq<int>, newId: int, batchOk: bool)
    requires noteId.None? || noteId.value == 0
    ensures var e := SaveNote(page, noteId, data, selected, Some(newId), batchOk);
            && e.stages[0] == {CreateNote(data)}
            && (forall x :: AddCategory(newId, x) in e.stages[1] <==> x in selected)
            && (forall c :: c in e.stages[1] ==> c.AddCategory? && c.noteId == newId)
            && (selected == [] ==> e.stages == [{CreateNote(data)}, {}, {Refetch}] && e.page == page.(noteModalOpen := false))
  {
    assert selected == [] ==> CreateBatch(newId, selected) == {};
  }

  /**
   * With an answer, the lists after a fetch are the answer's, whatever was held before; so a
   * second fetch with the same answer changes nothing.
   */
  lemma FetchDataReplacesLists(page: Page, other: Page, f: Fetched)
    requires other == page.(notes := other.notes, categories := other.categories, loading := other.loading)
    ensures FetchData(other, true, Some(f)) == FetchData(page, true, Some(f))
    ensures FetchData(FetchData(page, true, Some(f)).page, true, Some(f)).page == FetchData(page, true, Some(f)).page
  {
  }

  /** Deleting the same id again changes nothing more. */
  lemma {:induction false} WithoutNoteIdempotent(notes: seq<Note>, id: int)
    ensures WithoutNote(WithoutNote(notes, id), id) == WithoutNote(notes, id)
  {
    FilterIdempotent(notes, (n: Note) => n.id != id);
  }

  /** The optimistic removal does not wait for, or depend on, the archive request's outcome. */
  lemma ArchiveToggleOptimistic(page: Page, id: int, currentStatus: bool)
    ensures ArchiveToggle(page, id, currentStatus, true).page == ArchiveToggle(page, id, currentStatus, false).page
    ensures forall n :: n in ArchiveToggle(page, id, currentStatus, false).page.notes ==> n.id != id
  {
  }

  /** Filtering by the string of a category id keeps exactly the notes that carry that category. */
  lemma FilterByCategoryId(notes: seq<Note>, k: int)
    ensures forall n :: n in FilteredNotes(notes, JsText.IntToString(k)) <==> n in notes && HasId(n.categories, k)
  {
    var f := JsText.IntToString(k);
    assert f != "";
    forall n: Note
      ensures InCategory(n, f) <==> HasId(n.categories, k)
    {
      forall i | 0 <= i < |n.categories|
        ensures JsText.IntToString(n.categories[i].id) == f <==> n.categories[i].id == k
      {
        JsText.IntToStringInjective(n.categories[i].id, k);
      }
    }
  }
}
