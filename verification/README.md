# notaApp client logic, modelled in Dafny

notaApp is a React client for a personal note-taking service. Users sign in, then create, edit,
archive, delete and tag notes with categories through a REST backend. Most of the client is
markup. This project models the parts that hold logic, as pure functions over immutable
datatypes, and proves what they promise:

- **Home page** (`home_page.dfy`, module `HomePage`): loading the lists, the save-note
  orchestration, delete, the optimistic archive toggle, the category handlers and the category
  filter. The backend has no "set categories" endpoint, so an edit computes a diff and issues one
  add or remove per changed association. Service requests are emitted `Call` values. A handler's
  requests form a sequence of stages. Each stage is awaited before the next starts, and each
  stage is a set, because a `Promise.all` batch promises no order. A re-run of `fetchData` is the
  call `Refetch`. `FetchData` models the fetch itself, including its signed-out guard.
- **Session** (`auth_provider.dfy`, module `AuthProvider`): the stored token, the Authorization
  header, the user and `loading`, changed by `Logout`, `CheckAuth` and `Login`. Server answers
  are parameters. Requests and navigations are emitted as `Action`s. The header follows the
  Bearer scheme of section 2.1 of RFC 6750. `BearerConforms` shows that a b64token gives
  conforming credentials and that the empty token does not.
- **Login form** (`use_login.dfy`, module `UseLogin`): field edits, then three ordered checks
  (blank field, email shape, password length), then what a failed login leaves behind. The email
  check is the app's own regular expression `/^[^\s@]+@[^\s@]+\.[^\s@]+$/`. `IsEmailShaped`
  decides it by positions, and `EmailShapeIffRegex` proves this equal to the pattern read as a
  concatenation.
- **Note editor** (`note_modal.dfy`), **category manager** (`category_manager.dfy`) and
  **avatar initials** (`nav_bar.dfy`).
- **JavaScript built-ins** (`js_text.dfy`): truthiness, `\s` and `trim`, `toString` on integers,
  and `parseInt` with no radix. This includes white-space skipping, the sign and the `0x` prefix.
  `ParseIntToString` proves that `parseInt` reads back every integer's numeral. This is why the
  editor's string buffer returns the note's own ids.
- **Flows** (`scenarios.dfy`): properties that span components, and a few worked examples.

`types.dfy` mirrors `src/types/note.ts` and `src/types/auth.ts`. `seqs.dfy` holds the
order-preserving `Filter` that every list transition uses.

Some behaviour of the code follows from JavaScript's coercions, and the model keeps it:

- A note id of 0 takes the create path, both in the editor (`||`) and in `handleSaveNote` (`if (noteId)`).
- A login response with neither `token` nor `accessToken` stores the string "undefined" and
  sends `Bearer undefined`. `LoginMissingToken` states this.
- A stored empty token counts as no token. `checkAuth` then leaves any existing header in place.
- An error message of "" is falsy, so `handleChange` does not clear it.

## Model

| member | source | states |
|---|---|---|
| Types.FindNote | src/pages/HomePage.tsx:58 | the note found is the first one carrying the id; none is found exactly when no note carries it |
| HomePage.FetchData | src/pages/HomePage.tsx:26-41 | signed out: nothing is requested and nothing changes; signed in: both lists are requested in one batch, replace the held lists only if both arrive, and `loading` ends false |
| HomePage.ToAdd | src/pages/HomePage.tsx:60-63 | an id is added exactly when it is selected and the note does not already have it; selection order is kept |
| HomePage.ToRemove | src/pages/HomePage.tsx:65-67 | an id is removed exactly when the note has it and it is no longer selected |
| HomePage.AssociationBatch | src/pages/HomePage.tsx:69-76 | the edit batch holds only association calls on the given note: adds for exactly the new ids, removes for exactly the dropped ids |
| HomePage.CreateBatch | src/pages/HomePage.tsx:80-84 | the create batch holds one add per selected id against the new note, and nothing else |
| HomePage.SaveBatch | src/pages/HomePage.tsx:55-85 | every call in a save's batch is an association on the saved id; the create path always reaches a batch |
| HomePage.SaveNote | src/pages/HomePage.tsx:47-92 | update if the id is truthy, else create; a failed first call ends the save; a note the page does not hold gets no batch; an empty batch never fails, as `Promise.all([])` resolves; on success the modal closes and the stages end with the refetch; on failure the page is untouched and nothing follows the batch |
| HomePage.AfterSave | src/pages/HomePage.tsx:69-91 | once the update/create has returned: the batch, if any, is the second stage; a batch that completes (an empty one always does) is followed by closing the modal and the refetch; a failing one ends the save with the page untouched |
| HomePage.SaveTargetsSavedId | src/pages/HomePage.tsx:70-82 | every association call of a save targets the id the server returned, never the input id |
| HomePage.EditDiffLaw | src/pages/HomePage.tsx:60-67 | added ids = selected − current, removed ids = current − selected, and the two never meet |
| HomePage.EditConverges | src/pages/HomePage.tsx:60-76 | applying the edit batch to the note's ids yields exactly the selected set |
| HomePage.CreateConverges | src/pages/HomePage.tsx:79-84 | applying the create batch to a new note yields exactly the selected set |
| HomePage.UnchangedSelectionEmptyBatch | src/pages/HomePage.tsx:60-67 | a selection equal to the current ids gives an empty batch |
| HomePage.SaveUnchangedSelection | src/pages/HomePage.tsx:55-88 | saving with an unchanged selection issues the update, an empty batch and the refetch, and closes the modal |
| HomePage.SaveUnknownNote | src/pages/HomePage.tsx:55-88 | editing a note the page does not hold issues only the update and then the refetch |
| HomePage.SaveCreate | src/pages/HomePage.tsx:78-88 | with id null or 0: one create, then exactly one add per selected id, all against the new id; with nothing selected the save always completes, closes the modal and refetches |
| HomePage.WithoutNote | src/pages/HomePage.tsx:98 | drops exactly the notes with that id and keeps every other note, with its multiplicity and in order |
| HomePage.WithoutNoteIdempotent | src/pages/HomePage.tsx:98 | removing the same id twice is the same as removing it once |
| HomePage.DeleteNoteHandler | src/pages/HomePage.tsx:94-102 | a refused confirmation does nothing at all; otherwise one delete request, and the note leaves the list only if it succeeds |
| HomePage.ArchiveToggle | src/pages/HomePage.tsx:104-113 | the note leaves the list at once; unarchive iff currently archived, else archive; a refetch follows only on failure |
| HomePage.ArchiveToggleOptimistic | src/pages/HomePage.tsx:106-108 | the list after the toggle is the same whether or not the request succeeds, and never contains the note |
| HomePage.CreateCategoryHandler | src/pages/HomePage.tsx:115-122 | one create request; a refetch follows iff it succeeds |
| HomePage.DeleteCategoryHandler | src/pages/HomePage.tsx:124-132 | nothing unless confirmed; then exactly the delete request, followed by the refetch iff it succeeds |
| HomePage.RemoveCategoryHandler | src/pages/HomePage.tsx:134-144 | exactly the association removal, followed by the refetch iff it succeeds |
| HomePage.FilteredNotes | src/pages/HomePage.tsx:156-162 | an empty filter keeps every note; otherwise exactly the notes with a category whose id string is the filter, each as often as in the list, in the list's order |
| HomePage.FetchDataReplacesLists | src/pages/HomePage.tsx:30-36 | with an answer, the page after a fetch does not depend on the lists or loading flag held before, so a repeated fetch with the same answer changes nothing |
| HomePage.FilterByCategoryId | src/pages/HomePage.tsx:159 | filtering by the string of id k keeps exactly the notes that carry category k |
| JsText.IsBlank | src/hooks/useLogin.ts:31 | `!s.trim()` holds exactly when every character is white space |
| JsText.ParseIntToString | src/components/modals/NoteModal.tsx:34 | `parseInt` of an integer's `toString` gives back that integer |
| JsText.IntToStringInjective | src/pages/HomePage.tsx:159 | two ids have the same string iff they are equal |
| AuthProvider.InitialSession | src/context/AuthProvider.tsx:14-15 | the provider starts with no user and `loading` true |
| AuthProvider.TokenOfBearer | src/context/AuthProvider.tsx:36 | the header built from a token carries exactly that token |
| AuthProvider.BearerConforms | src/context/AuthProvider.tsx:59 | a b64token gives RFC 6750 Bearer credentials; the empty token does not |
| AuthProvider.Logout | src/context/AuthProvider.tsx:18-23 | clears the stored token, the header and the user; leaves `loading` alone |
| AuthProvider.LogoutIdempotent | src/context/AuthProvider.tsx:18-23 | logging out twice gives the same state as logging out once |
| AuthProvider.CheckAuth | src/context/AuthProvider.tsx:25-49 | no token: user cleared, no request, false; with a token, the header is `Bearer <token>` and `/auth/me` is asked; success stores the user and returns true, failure logs out and returns false; `loading` ends false and the result is true iff a user is held |
| AuthProvider.CheckAuthSessionConsistent | src/context/AuthProvider.tsx:30-48 | after a check, a held user always comes with a non-empty token and its Bearer header |
| AuthProvider.CheckAuthIdempotent | src/context/AuthProvider.tsx:25-49 | repeating the check with the same server answer changes nothing |
| AuthProvider.ChooseToken | src/context/AuthProvider.tsx:56 | `token` when truthy, else `accessToken` |
| AuthProvider.ChooseTokenSignsIn | src/context/AuthProvider.tsx:56-61 | the choice is falsy only when both fields are; with a good profile, login signs in exactly when the stored token is not the empty string, which happens only when `token` is falsy and `accessToken` is "" |
| AuthProvider.ClassifyError | src/context/AuthProvider.tsx:64-90 | 400, 401 and 500 give their fixed messages; other statuses give the server message or "Unknown error"; no response gives "No response from server"; a plain Error gives its message; anything else gives the generic message |
| AuthProvider.ClassifyErrorMessages | src/context/AuthProvider.tsx:64-90 | the thrown message is empty only for an `Error` with an empty message; 400, 401 and 500 never show the server's message; other statuses show a truthy server message verbatim |
| AuthProvider.Login | src/context/AuthProvider.tsx:51-94 | the POST comes first; a failed POST throws the classified message and leaves the session exactly as it was; a successful one stores the chosen token, sets its Bearer header, runs the check, navigates home and does not throw |
| AuthProvider.LoginSignsIn | src/context/AuthProvider.tsx:54-63 | a usable token and profile end signed in under that token, after the POST, the profile request and the navigation |
| AuthProvider.LoginCheckFailureLogsOut | src/context/AuthProvider.tsx:42-63 | a failed profile request after a successful POST does not make login throw; the session ends logged out |
| AuthProvider.LoginMissingToken | src/context/AuthProvider.tsx:56-59 | a response without either token field sends `Bearer undefined` |
| UseLogin.InitialForm | src/hooks/useLogin.ts:6-8 | empty credentials, not loading, no error |
| UseLogin.ClearError | src/hooks/useLogin.ts:24 | after the clear there is no error, or the falsy empty one |
| UseLogin.HandleChange | src/hooks/useLogin.ts:19-25 | only the named field changes, loading is kept, and an error is cleared |
| UseLogin.HandleChangeLaws | src/hooks/useLogin.ts:19-25 | edits of different fields commute; a later edit of a field overrides an earlier one |
| UseLogin.IsEmailShaped | src/hooks/useLogin.ts:35-36 | the position test accepts exactly what the email pattern matches |
| UseLogin.EmailShapeIffRegex | src/hooks/useLogin.ts:35 | position test and pattern agree in both directions |
| UseLogin.Validate | src/hooks/useLogin.ts:31-43 | passes iff no field is blank, the email has the shape and the password has at least 6 characters; otherwise gives the first failing check's message |
| UseLogin.HandleSubmit | src/hooks/useLogin.ts:27-57 | a failed check records its message and never calls login; otherwise login gets exactly the credentials; on failure the error is the thrown message, the password is cleared and the email kept; loading ends false |
| UseLogin.ValidationOrder | src/hooks/useLogin.ts:31-43 | a blank email, or a blank password, decides the outcome whatever the other field holds; a malformed email decides it whatever the password's length |
| UseLogin.ShortPasswordExample | src/hooks/useLogin.ts:40-43 | ("a@b.com", "short") is rejected as too short |
| NoteModal.IdStrings | src/components/modals/NoteModal.tsx:29 | every id string reads back as its category's id |
| NoteModal.InitialForm | src/components/modals/NoteModal.tsx:23-30 | empty when creating; when editing, the note's title and content and the `toString` of each category id, in order, each reading back as that id |
| NoteModal.SetTitle | src/components/modals/NoteModal.tsx:69-71 | only the title changes |
| NoteModal.SetContent | src/components/modals/NoteModal.tsx:84-86 | only the content changes |
| NoteModal.SelectOptions | src/components/modals/NoteModal.tsx:99-111 | the selection becomes the chosen categories' id strings, in order, each reading back as that category's id; title and content are kept |
| NoteModal.InitialSelectionValid | src/components/modals/NoteModal.tsx:28-30 | the opening selection reads back as numbers |
| NoteModal.ParseIds | src/components/modals/NoteModal.tsx:34 | each id is what `parseInt` reads from the string at the same position |
| NoteModal.Submit | src/components/modals/NoteModal.tsx:32-36 | the note id is null when creating and also when the id is 0; the buffer's title and content are passed on; the ids are the parsed selection |
| NoteModal.UnchangedSelectionRoundTrip | src/components/modals/NoteModal.tsx:29-34 | an untouched selection submits exactly the note's category ids, in order |
| CategoryManager.HandleSubmit | src/components/modals/CategoryManagerModal.tsx:21-26 | a blank name calls nothing and keeps the input; any other name is passed untrimmed and the input is emptied once the call resolves |
| NavBar.Lead | src/components/NavBar.tsx:28-29 | at most one character, the name's first; empty iff the name is empty |
| NavBar.Initials | src/components/NavBar.tsx:26-31 | empty without a user; with both names present, the upper-casing of the first name's first character followed by the last name's |
| NavBar.EmptyNameContributesNothing | src/components/NavBar.tsx:28-30 | an empty name adds nothing: the other name's first character alone is upper-cased; with both empty the initials are "", since upper-casing the empty string gives the empty string |
| NavBar.InitialsDependOnFirstCharacters | src/components/NavBar.tsx:28-30 | users whose names agree on their first characters get the same initials |
| Scenarios.UntouchedEditIssuesNoAssociation | src/components/modals/NoteModal.tsx:23-35 | opening a held note and saving it with the selection untouched issues the update, an empty batch and the refetch, and closes the modal |
| Scenarios.EditExampleBatch | src/pages/HomePage.tsx:60-76 | categories 10 and 20 reselected as 20 and 30: the batch is exactly add 30 and remove 10 |
| Scenarios.EditExample | src/pages/HomePage.tsx:55-76 | the same example through the whole save |
| Scenarios.CreateExample | src/pages/HomePage.tsx:79-84 | creating with 7 and 8: one create, then the two adds against the new id |
| Scenarios.CategorySubmitFlow | src/components/modals/CategoryManagerModal.tsx:21-26 | a blank name reaches no request; any other reaches the create request untrimmed, and the input is emptied |
| Scenarios.CategoryDeleteFlow | src/components/modals/CategoryManagerModal.tsx:65 | the delete button of an existing row, once confirmed, requests deletion of exactly that row's category |
| Scenarios.ShortPasswordNeverPosts | src/hooks/useLogin.ts:40-43 | ("a@b.com", "short") never calls login and shows "Password is too short" |
| Scenarios.RejectedLoginFlow | src/hooks/useLogin.ts:46-56 | a rejected login leaves the session as it was; the form shows the classified message with the password cleared |

## Left out

- Rendering, CSS and icons, and the purely presentational files: NotesGrid, NoteCard, NotesToolbar, LoginForm, LoginHeader, LoginPage, App, main, MainLayout and useAuth. They pass props only.
- The rest of NavBar (lines 33-64): DOM listeners, body overflow, resize and click-outside handling.
- `noteService`: its URL building is not modelled. Each service method is one `Call` value.
- axios, `localStorage`, `navigate` and `confirm()` are state fields, input booleans or emitted effects. A `localStorage` write that throws is not modelled.
- `console.error` logging.
- React scheduling: the transient `loading = true` inside `checkAuth` is not observable in the returned state. `useEffect` triggers are not modelled: the initial `checkAuth`, the `fetchData` on mount, and the redirect of a signed-in user in `useLogin` (lines 13-17). `openCreateModal` and `openEditModal` only set modal state.
- Concurrency: a batch is a set and its calls run in no order. The stale-fetch race is not modelled. `Refetch` records that `fetchData` was started; its outcome is a separate `FetchData` step.
- Numbers are unbounded integers. NaN, fractional ids and float precision above 2^53 are not modelled.
- NoteModal.Submit: requires every selected string to parse as a number, so NaN ids are not modelled. The select's options are always category ids, and `SelectOptions` and `InitialSelectionValid` show that the buffer keeps this property.
- AuthProvider.CheckAuth: a successful `/auth/me` is assumed to return a user. A 2xx response with an empty body would set the user to the empty string (falsy, so every consumer treats it as signed out) while returning true. That case is not modelled.
- AuthProvider.Login: a `null` or `undefined` success body throws a TypeError in the same `catch`. Pass that as `PostFailed(OtherError(message))`. Any other non-object body, such as the empty string of an empty response, reads both token fields as undefined, so it is `LoginResponse(Undefined, Undefined)`. A `message` field that is a non-string value is not modelled.
- Types.User: fields are always strings. The `?.` guards for missing names in NavBar are therefore not exercised.
- Unicode: `charAt`, `length` and `toUpperCase` work on UTF-16 code units. Dafny strings are sequences of Unicode scalar values. `toUpperCase` is the parameter `upper`.
