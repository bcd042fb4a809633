# Note store: access control, sharing and edit history

A Dafny model of the core of a multi-user note-taking API (a Django REST
Framework application). Users own notes, share them with other users, update
them, read their version history and delete them. The model covers:

- who may read, write, share and delete a note;
- what each request adds to or removes from the three tables (Note,
  SharedNote, NoteUpdateHistory);
- which rows survive a failed request.

Files:

- `wrappers.dfy`: `Option` and `Result`.
- `models.dfy` (module `Models`, from `notes/models.py`):
  - the table rows as datatypes;
  - the in-memory history instance as a class, `HistoryRow`, whose `Save`
    models the `save` override;
  - `Where`, the row filter behind both the history query and the CASCADE
    rules.
- `serializers.dfy` (module `Serializers`, from `notes/serializers.py`):
  - Python's `str.strip()`;
  - the title and content validators;
  - the title's 255-character column bound;
  - the refusal of NUL characters in title and content;
  - the request body, whose `owner` field is read-only and dropped.
- `views.dfy` (module `Views`, from `notes/views.py`): class `NoteStore`, which
  holds these tables:
  - the user table;
  - the notes map;
  - the SharedNote rows, a sequence because duplicates are allowed;
  - the history rows;
  - the next note id.

  Each view is a member taking the acting (authenticated) user's id and
  returning an HTTP status. The two read-only views are functions; create,
  update, share and delete are methods. `CanRead` is the access rule: the
  requester is the owner, or a SharedNote row names them. `Consistent` is
  the table invariant, which every view keeps. It says:
  - every foreign key points at an existing row;
  - every note id is positive and below the next id;
  - every title, and every copy of one in the history, fits 255 characters.
- `walkthrough.dfy` (module `Walkthrough`): client methods. They replay the
  requests of `notes/tests.py`, and three request sequences, using only the
  views' contracts: share a note and then read it (`ShareThenRead`), update
  it and then read its history (`UpdateThenHistory`), and share it and then
  delete it (`ShareThenDelete`).

Three behaviours of the code differ from what a reader would expect. The
model follows the code in each:

1. **History stores the new values, not the old ones.** The history columns
   are named `old_title` and `old_content` (notes/models.py:21-22), which
   suggests the values from before the update. In the code,
   `serializer.save()` (notes/views.py:73) updates the in-memory note first. The history row is then built from that same object
   (notes/views.py:76-80), and the `save` override copies its title and
   content again (notes/models.py:27-28). `Views.NoteStore.UpdateNote`
   therefore appends `HistoryRecord(id, newTitle, newContent)`, and
   `Walkthrough.UpdateThenHistory` shows the one row holding the updated
   values.
2. **Non-owners get 404, not 403, on share and delete.** GET and PUT answer
   403 to a user without access (notes/views.py:67, :70), so one might expect
   the same for a shared user who tries to delete. But both share and delete
   look the note up with `owner=request.user` (notes/views.py:94, :126), so
   any non-owner, shared or not, gets 404, as `Walkthrough.ShareThenDelete`
   shows.
3. **Partial sharing is kept.** Shares granted before the first unknown user
   id stay in the table (notes/views.py:95-101).

The title's 255-character bound comes from the model field
(notes/models.py:7). The serializer enforces it through the field's
`max_length` validator, so an over-long title gets 400 like a blank one.
The serializer's fields for `title` and `content` (notes/models.py:7-8) also
refuse any value holding a NUL character, so such a value gets 400 too.
A refused field reports every one of its validators that fails, not only the
first. The
validators receive each field after the framework's own preprocessing (see
"## Left out"), and "the value" below always means the value as they
receive it.
Ids are integers. Note ids start at 1 and are never reused.

## Model

| member | source | states |
|---|---|---|
| `Models.SaveAgainKeepsValues` | notes/models.py:24-29 | Saving a history row a second time, after its first save gave it a non-zero key, keeps the title and content copied by the first save and the key, whatever note object the second save sees. |
| `Models.CreateHistory` | notes/models.py:24-29 | Creating a history row that references a note stores that note object's current title and content, whatever old values were passed in. |
| `Models.HistoryRow.Save` | notes/models.py:24-29 | On the first save of a row whose `note_id` is set, `old_title`/`old_content` are overwritten from the related note. A row that already has a primary key keeps its stored values. Only the first save assigns the key. |
| `Models.HistoryRow.constructor` | notes/models.py:18-22 | A new history instance is unsaved and holds the note reference and values it was given. |
| `Models.Where` | notes/views.py:113 | A query filter keeps each matching row with its multiplicity, drops every other row, and never adds a row. |
| `Models.SharesFor` | notes/views.py:64 | `SharedNote.objects.filter(note=note, user=request.user)` returns only rows for that pair, each as often as it is stored. |
| `Models.HistoryOf` | notes/views.py:113 | `NoteUpdateHistory.objects.filter(note=note)` returns exactly that note's history rows, each as often as it is stored. |
| `Models.SharesWithout` | notes/models.py:14 | CASCADE on `SharedNote.note`: deleting a note removes every share of it and keeps every other share row. |
| `Models.HistoryWithout` | notes/models.py:19 | CASCADE on `NoteUpdateHistory.note`: deleting a note removes its whole history and keeps every other history row. |
| `Serializers.StripLeftSuffix` | notes/serializers.py:21 | The left half of `strip()`: it removes exactly a whitespace prefix and keeps the rest. |
| `Serializers.StripRightPrefix` | notes/serializers.py:21 | The right half of `strip()`: it removes exactly a whitespace suffix and keeps the rest. |
| `Serializers.Strip` | notes/serializers.py:21 | `value.strip()` is the slice of the value left after dropping the longest whitespace prefix and the longest whitespace suffix. If non-empty, it starts and ends with a non-whitespace character. |
| `Serializers.NonBlank` | notes/serializers.py:21 | `value.strip()` is truthy exactly when the string has a non-whitespace character. |
| `Serializers.ValidateTitle` | notes/serializers.py:20-23 | A title is refused exactly when it is empty or all whitespace. An accepted title is returned unchanged, with no trimming. |
| `Serializers.ValidateContent` | notes/serializers.py:25-28 | A content is refused exactly when it is empty or all whitespace. An accepted content is returned unchanged. |
| `Serializers.ValidateTitleField` | notes/models.py:7 | The title field is accepted exactly when it is at most 255 characters long, holds no NUL character and is not blank. A refusal reports every field validator that fails: TooLong exactly when the value is over 255 characters, NullCharacter exactly when it holds a NUL, both when both apply. Blank is reported exactly when those two pass and the value is blank, since `validate_title` only runs then. The accepted value is returned unchanged and fits the column. |
| `Serializers.ValidateContentField` | notes/models.py:8 | The content field is accepted exactly when it holds no NUL character and is not blank. A refusal reports NullCharacter exactly when the value holds a NUL, and Blank exactly when it holds none and is blank. It never reports TooLong. The accepted value is returned unchanged. |
| `Serializers.ValidateNote` | notes/serializers.py:13-28 | A body is accepted exactly when both fields are. Validated data is the title and content as the validators receive them, and the read-only owner is dropped. A refusal reports, for each failing field, exactly the reasons its field validation gives, and nothing for a field that passes. |
| `Views.CanRead` | notes/views.py:64 | The access test of GET, PUT (line 69, negated) and version history (line 112): the note exists, and the requester owns it or some SharedNote row names the note and the requester. |
| `Views.Consistent` | notes/models.py:5-22 | The table invariant: every foreign key points at an existing row, note ids are positive and below the next id, and titles fit 255 characters. It implies that the next id is free and that no note has id 0. |
| `Views.FirstUnknown` | notes/views.py:95-101 | This is the position where `share_note` stops. Every earlier id names a user, and the id at this position does not. |
| `Views.Grants` | notes/views.py:95-99 | `share_note` creates one SharedNote row per processed list entry, in list order. |
| `Views.GrantsKeepDuplicates` | notes/models.py:13-15 | With no uniqueness constraint, a user listed n times gets n share rows for the note, and nobody else gets one. |
| `Views.GrantsGiveAccessExactly` | notes/views.py:64 | After sharing, a user can read a note exactly when they could before, or the note is the shared one and the user was listed. Both directions are proved. |
| `Views.CascadeRevokesOnlyThatNote` | notes/models.py:13-15 | After the cascade, nobody can read the deleted note. Access to every other note is unchanged. |
| `Views.CascadeKeepsConsistent` | notes/models.py:13-22 | The cascade leaves no share or history row pointing at the deleted note. |
| `Views.NoteStore.constructor` | notes/models.py:5-22 | An empty set of tables over a given user table is consistent. |
| `Views.NoteStore.CreateNote` | notes/views.py:50-55 | Valid input adds exactly one note under a fresh id, owned by the requester whatever the body says, and answers 201. Invalid input answers 400 and changes nothing. Shares and history never change. |
| `Views.NoteStore.GetNote` | notes/views.py:61-67 | A missing note gives 404 for anyone. Otherwise the answer is 200 with the note iff the requester is the owner or has a share row, else 403. No state is touched. |
| `Views.NoteStore.UpdateNote` | notes/views.py:68-85 | The answer is 404 for a missing note. It is 403 without access, even with an invalid body. With access and an invalid body it is 400. Otherwise it is 200: title and content are replaced, the owner is kept, and exactly one history row with the new values is appended. Only the 200 case changes any table. |
| `Views.NoteStore.ShareNote` | notes/views.py:90-104 | The answer is 404 with no new rows unless the requester owns the note. Otherwise one row per list entry is added up to the first unknown user id. At that id the answer is 404 naming it, and earlier rows stay. If every id is known the answer is 200. |
| `Views.NoteStore.VersionHistory` | notes/views.py:109-119 | The access rule is the same as GET, and 404 for a missing note. On 200 the result is exactly the note's history rows with their multiplicities. No state is touched. |
| `Views.NoteStore.DeleteNote` | notes/views.py:124-130 | A non-owner, including a shared user, gets 404 for a missing or foreign note, and nothing changes. The owner gets 204, and the note goes with all its shares and history. |
| `Walkthrough.ShareThenRead` | notes/views.py:60-104 | User 2 gets 403 on user 1's note until it is shared. After the share, user 2 gets 200 and the note's current title and content. |
| `Walkthrough.UpdateThenHistory` | notes/views.py:68-119 | After the owner's update, the version history answers 200 with one row, and that row holds the new title and content. |
| `Walkthrough.ShareThenDelete` | notes/views.py:90-130 | After the owner shares the note, the shared user's delete gets 404. The owner's delete gets 204, and then the note is not found. |
| `Walkthrough.NoteCreation` | notes/tests.py:38-46 | Creating a valid note gives 201. Empty title and content give 400. |
| `Walkthrough.NoteRetrieval` | notes/tests.py:49-61 | Reading one's own note gives 200. Reading another user's unshared note gives 403. |
| `Walkthrough.NoteUpdate` | notes/tests.py:64-80 | Updating one's own note gives 200. Updating another user's unshared note gives 403. |
| `Walkthrough.NoteHistoryAndDelete` | notes/tests.py:83-100 | Version history of one's own note gives 200. Deleting it gives 204 and removes it. Deleting id 999 from an empty Note table gives 404. |
| `Walkthrough.StoreWithNote` | notes/tests.py:50-51 | The tests' one-note fixture: exactly one note, id 1, with no shares and no history. The tests insert it with `Note.objects.create`, which skips validation. The model creates it through the validating `CreateNote` view, which gives the same row for these strings. |

## Left out

- Signup and login (notes/views.py:15-45). Password hashing, `authenticate`
  and token issuance are library calls. The acting user is a given id that is
  in the user table.
- Unauthenticated requests. `IsAuthenticated` (notes/views.py:49, 59, 89, 108,
  123) refuses them before any view body runs. Every view in the model takes
  an authenticated user, and the mutating views require that user to be in
  the user table.
- The error middleware (notes/middleware.py) and its 500 answer. This
  includes the crash when the share body has no `users` list: the model takes
  the list as a parameter.
- Request parsing: missing or non-string `title`/`content`, and non-integer
  ids in the share body. In the code an absent `note_id` is looked up as
  `id=None`, matches no row and gives 404 (notes/views.py:91, 94, 103-104).
  The model's `ShareNote` always takes an id, and covers that case with any
  id that is not in the Note table.
- The framework's field-level preprocessing before `validate_title` runs:
  whitespace trimming and the "may not be blank" check. The model takes each
  field as the validators receive it.
- Serializers.ValidateTitleField and Serializers.ValidateContentField: the
  framework's CharField also refuses lone surrogate code points (U+D800 to
  U+DFFF). A Dafny `char` cannot hold one, so no modelled value contains one.
- Non-ASCII whitespace in `str.strip()`. Only the ASCII whitespace Python
  strips is modelled.
- URL routing and the catch-all 404 view. These only dispatch requests.
- The `created_at`, `updated_at` and `timestamp` columns. They hold
  wall-clock values and carry no logic.
- Response bodies and the text of error messages. Only the status, the note,
  the history rows, the unknown user id and the refusal reasons of each field
  are modelled.
- Transactions and concurrent requests. The model handles one request at a
  time.
- User deletion cascading to notes and shares. No view deletes users.
- Views.NoteStore.VersionHistory: states which rows are returned and how often
  each is, not their order. The query declares no ordering, so the database
  order is unspecified.
