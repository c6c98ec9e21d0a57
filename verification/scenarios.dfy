/**
 * Whole-flow properties that cross components: the editor feeding the save orchestration, the
 * category manager feeding the page's handler, the login form feeding the session, and a few
 * worked examples.
 */
module Scenarios {
  import opened Types
  import JsText
  import HomePage
  import NoteModal
  import CategoryManager
  import UseLogin
  import AuthProvider

  /**
   * Opening a held note in the editor and saving it with the selection untouched issues the
   * update and no association call at all; the modal then closes and the page refetches.
   */
  lemma UntouchedEditIssuesNoAssociation(page: HomePage.Page, n: Note, title: string, content: string,
                                         savedId: int, batchOk: bool)
    requires n.id != 0 && FindNote(page.notes, n.id) == Some(n)
    ensures var f := NoteModal.InitialForm(Some(n)).(title := title, content := content);
            var req := NoteModal.Submit(Some(n), f);
            var e := HomePage.SaveNote(page, req.noteId, req.data, req.ids, Some(savedId), batchOk);
            e.stages == [{HomePage.UpdateNote(n.id, NoteData(title, content))}, {}, {HomePage.Refetch}]
            && e.page == page.(noteModalOpen := false)
  {
    var f := NoteModal.InitialForm(Some(n)).(title := title, content := content);
    NoteModal.InitialSelectionValid(Some(n));
    NoteModal.UnchangedSelectionRoundTrip(n, title, content);
    var ids := NoteModal.Submit(Some(n), f).ids;
    assert HomePage.Elems(ids) == HomePage.IdSet(n.categories) by {
      forall x
        ensures x in ids <==> exists c :: c in n.categories && c.id == x
      {
        if x in ids {
          var i :| 0 <= i < |ids| && ids[i] == x;
          assert n.categories[i] in n.categories;
        }
        if exists c :: c in n.categories && c.id == x {
          var c :| c in n.categories && c.id == x;
          var i :| 0 <= i < |n.categories| && n.categories[i] == c;
          assert ids[i] == x;
        }
      }
    }
    HomePage.SaveUnchangedSelection(page, n.id, NoteData(title, content), ids, savedId, batchOk);
  }

  /** A batch with the diff's membership laws, over categories 10, 20 and selection 20, 30, holds only two calls. */
  lemma ExampleBatchMember(noteId: int, current: seq<Category>, selected: seq<int>, b: set<HomePage.Call>, c: HomePage.Call)
    requires |current| == 2 && current[0].id == 10 && current[1].id == 20
    requires selected == [20, 30]
    requires forall c :: c in b ==> HomePage.IsAssociation(c) && c.noteId == noteId
    requires forall x :: HomePage.AddCategory(noteId, x) in b <==> x in selected && !HomePage.HasId(current, x)
    requires forall x :: HomePage.RemoveCategory(noteId, x) in b <==> HomePage.HasId(current, x) && x !in selected
    requires c in b
    ensures c == HomePage.AddCategory(noteId, 30) || c == HomePage.RemoveCategory(noteId, 10)
  {
    var x := c.categoryId;
    if c.AddCategory? {
      assert c == HomePage.AddCategory(noteId, x);
      assert current[1].id == 20;
    } else {
      assert c == HomePage.RemoveCategory(noteId, x);
      var k :| 0 <= k < |current| && current[k].id == x;
      assert k == 0;
    }
  }

  /** Over categories 10, 20 and selection 20, 30, the diff's membership laws leave room for exactly two calls. */
  lemma ExampleBatch(noteId: int, current: seq<Category>, selected: seq<int>, b: set<HomePage.Call>)
    requires |current| == 2 && current[0].id == 10 && current[1].id == 20
    requires selected == [20, 30]
    requires forall c :: c in b ==> HomePage.IsAssociation(c) && c.noteId == noteId
    requires forall x :: HomePage.AddCategory(noteId, x) in b <==> x in selected && !HomePage.HasId(current, x)
    requires forall x :: HomePage.RemoveCategory(noteId, x) in b <==> HomePage.HasId(current, x) && x !in selected
    ensures b == {HomePage.AddCategory(noteId, 30), HomePage.RemoveCategory(noteId, 10)}
  {
    assert HomePage.HasId(current, 10);
    assert HomePage.AddCategory(noteId, 30) in b && HomePage.RemoveCategory(noteId, 10) in b;
    forall c | c in b
      ensures c == HomePage.AddCategory(noteId, 30) || c == HomePage.RemoveCategory(noteId, 10)
    {
      ExampleBatchMember(noteId, current, selected, b, c);
    }
  }

  /** Categories 10 and 20 reselected as 20 and 30: the batch adds 30 and removes 10, nothing else. */
  lemma EditExampleBatch(noteId: int, current: seq<Category>, selected: seq<int>)
    requires |current| == 2 && current[0].id == 10 && current[1].id == 20
    requires selected == [20, 30]
    ensures HomePage.AssociationBatch(noteId, current, selected)
            == {HomePage.AddCategory(noteId, 30), HomePage.RemoveCategory(noteId, 10)}
  {
    ExampleBatch(noteId, current, selected, HomePage.AssociationBatch(noteId, current, selected));
  }

  /** Note 1 holds categories 10 and 20 and is saved with 20 and 30: add 30, remove 10, nothing else. */
  lemma EditExample(page: HomePage.Page, batchOk: bool)
    requires page.notes == [Note(1, "t", "c", false, [Category(10, "A"), Category(20, "B")])]
    ensures HomePage.SaveNote(page, Some(1), NoteData("t", "c"), [20, 30], Some(1), batchOk).stages[1]
            == {HomePage.AddCategory(1, 30), HomePage.RemoveCategory(1, 10)}
  {
    var n := page.notes[0];
    assert FindNote(page.notes, 1) == Some(n);
    EditExampleBatch(1, n.categories, [20, 30]);
  }

  /** Creating with categories 7 and 8 issues the create, then one add for each against the new id. */
  lemma CreateExample(page: HomePage.Page, newId: int, batchOk: bool)
    ensures var e := HomePage.SaveNote(page, None, NoteData("t", "c"), [7, 8], Some(newId), batchOk);
            e.stages[0] == {HomePage.CreateNote(NoteData("t", "c"))}
            && e.stages[1] == {HomePage.AddCategory(newId, 7), HomePage.AddCategory(newId, 8)}
  {
    var b := HomePage.CreateBatch(newId, [7, 8]);
    forall c | c in b
      ensures c == HomePage.AddCategory(newId, 7) || c == HomePage.AddCategory(newId, 8)
    {
      assert c == HomePage.AddCategory(newId, c.categoryId);
    }
  }

  /**
   * Submitting a category name: a blank one reaches no service call; any other reaches the
   * create request untrimmed, and since the page's handler never rejects, the input is emptied.
   */
  lemma CategorySubmitFlow(page: HomePage.Page, input: string, ok: bool)
    ensures var r := CategoryManager.HandleSubmit(input, true);
            if JsText.IsBlank(input) then r.created.None? && r.input == input
            else r.created == Some(input) && r.input == ""
                 && HomePage.CreateCategoryHandler(page, r.created.value, ok).stages[0] == {HomePage.CreateCategory(input)}
  {
  }

  /** The delete button of a row, once confirmed, deletes exactly that row's category. */
  lemma CategoryDeleteFlow(page: HomePage.Page, row: int, ok: bool)
    requires 0 <= row < |page.categories|
    ensures var id := CategoryManager.DeleteTarget(page.categories, row);
            var target := HomePage.DeleteCategory(page.categories[row].id);
            id.Some? && HomePage.DeleteCategoryHandler(page, id.value, true, ok).stages
                        == if ok then [{target}, {HomePage.Refetch}] else [{target}]
  {
  }

  /** ("a@b.com", "short") never calls `login`: the short-password message is shown and the credentials are kept. */
  lemma ShortPasswordNeverPosts(form: UseLogin.LoginForm, outcome: UseLogin.LoginOutcome)
    requires form.credentials == Credentials("a@b.com", "short")
    ensures var r := UseLogin.HandleSubmit(form, outcome);
            r.loginCall.None? && r.form.error == Some(UseLogin.ShortPassword) && r.form.credentials == form.credentials
  {
    UseLogin.ShortPasswordExample();
  }

  /**
   * A valid form passes its credentials to `login`; a rejected POST leaves the session as it
   * was and the form shows the classified message with the password cleared.
   */
  lemma RejectedLoginFlow(form: UseLogin.LoginForm, s: AuthProvider.Session, f: AuthProvider.Failure, me: Option<User>)
    requires UseLogin.Validate(form.credentials).None?
    ensures var l := AuthProvider.Login(s, form.credentials, AuthProvider.PostFailed(f), me);
            var r := UseLogin.HandleSubmit(form, UseLogin.Rejected(l.thrown.value));
            && l.session == s
            && r.loginCall == Some(form.credentials)
            && r.form.error == Some(AuthProvider.ClassifyError(f))
            && r.form.credentials == Credentials(form.credentials.email, "")
  {
  }
}
