/**
 * Clients of the note store: what the views' contracts alone let a caller
 * conclude about three request sequences (sharing a note and then reading
 * it, updating it and then reading its history, sharing it and then
 * deleting it) and about the requests of the test suite
 * (notes/tests.py). User 1 is the acting test user, user 2 the other one.
 */
module Walkthrough {
  import opened Wrappers
  import opened Models
  import opened Serializers
  import opened Views

  /** The body the tests create notes with is accepted. */
  lemma TestNoteAccepted()
    ensures Acceptable(NoteBody("Test Note", "This is a test note.", None))
  {
    var t, c := "Test Note", "This is a test note.";
    assert !IsWhitespace(t[0]) && !IsWhitespace(c[0]);
    assert forall k :: 0 <= k < |t| ==> t[k] != '\0';
    assert forall k :: 0 <= k < |c| ==> c[k] != '\0';
  }

  /** The body the update test sends is accepted. */
  lemma UpdatedNoteAccepted()
    ensures Acceptable(NoteBody("Updated Note", "This is the updated content of the note.", None))
  {
    var t, c := "Updated Note", "This is the updated content of the note.";
    assert !IsWhitespace(t[0]) && !IsWhitespace(c[0]);
    assert forall k :: 0 <= k < |t| ==> t[k] != '\0';
    assert forall k :: 0 <= k < |c| ==> c[k] != '\0';
  }

  /** The body of the update in the share/update/delete sequence is accepted. */
  lemma ShortNoteAccepted()
    ensures Acceptable(NoteBody("T2", "C2", None))
  {
    var t, c := "T2", "C2";
    assert !IsWhitespace(t[0]) && !IsWhitespace(c[0]);
  }

  /**
   * A store with users 1 and 2 and one note, id 1, owned by `owner`. The
   * tests insert this note with the ORM, which skips validation; here it is
   * created through the CreateNote view, which gives the same row for these
   * strings.
   */
  method StoreWithNote(owner: UserId) returns (store: NoteStore)
    requires owner == 1 || owner == 2
    ensures fresh(store) && store.Valid()
    ensures store.users == {1, 2} && store.notes == map[1 := Note(owner, "Test Note", "This is a test note.")]
    ensures store.shares == [] && store.history == []
  {
    store := new NoteStore({1, 2});
    TestNoteAccepted();
    var created := store.CreateNote(owner, NoteBody("Test Note", "This is a test note.", None));
  }

  /**
   * User 2 is refused user 1's note until user 1 shares it, and then reads
   * its current title and content.
   */
  method ShareThenRead() returns (codes: seq<int>, seen: Option<Note>)
    ensures codes == [403, 200, 200]
    ensures seen == Some(Note(1, "Test Note", "This is a test note."))
  {
    var store := StoreWithNote(1);
    var refused := store.GetNote(2, 1);
    var shared, missing := store.ShareNote(1, 1, [2]);
    assert FirstUnknown({1, 2}, [2]) == 1;
    assert Share(1, 2) in store.shares;
    var read := store.GetNote(2, 1);
    codes := [refused.status.Code(), shared.Code(), read.status.Code()];
    seen := read.note;
  }

  /**
   * After the owner's update of note 1 the one history row holds the NEW
   * title and content, not the ones the note had before.
   */
  method UpdateThenHistory() returns (codes: seq<int>, records: seq<HistoryRecord>)
    ensures codes == [200, 200]
    ensures records == [HistoryRecord(1, "T2", "C2")]
  {
    var store := StoreWithNote(1);
    ShortNoteAccepted();
    var updated := store.UpdateNote(1, 1, NoteBody("T2", "C2", None));
    var versions := store.VersionHistory(1, 1);
    var rec := HistoryRecord(1, "T2", "C2");
    assert store.history == [rec];
    assert multiset(versions.records) == multiset{rec};
    assert |versions.records| == 1;
    assert versions.records[0] in multiset(versions.records);
    codes := [updated.Code(), versions.status.Code()];
    records := versions.records;
  }

  /**
   * Once note 1 is shared with user 2, user 2 can read it but its delete gets
   * 404, not 403; the owner's delete gets 204, after which the note is not
   * found.
   */
  method ShareThenDelete() returns (codes: seq<int>)
    ensures codes == [200, 404, 204, 404]
  {
    var store := StoreWithNote(1);
    var shared, missing := store.ShareNote(1, 1, [2]);
    assert FirstUnknown({1, 2}, [2]) == 1;
    var sharedDelete := store.DeleteNote(2, 1);
    var ownerDelete := store.DeleteNote(1, 1);
    var gone := store.GetNote(1, 1);
    codes := [shared.Code(), sharedDelete.Code(), ownerDelete.Code(), gone.status.Code()];
  }

  /** test_note_creation and test_note_creation_empty_fields. */
  method NoteCreation() returns (valid: int, empty: int)
    ensures valid == 201 && empty == 400
  {
    var store := new NoteStore({1, 2});
    TestNoteAccepted();
    var s1 := store.CreateNote(1, NoteBody("Test Note", "This is a test note.", None));
    var s2 := store.CreateNote(1, NoteBody("", "", None));
    valid, empty := s1.Code(), s2.Code();
  }

  /** test_note_retrieval and test_note_retrieval_different_user. */
  method NoteRetrieval() returns (own: int, others: int)
    ensures own == 200 && others == 403
  {
    var mine := StoreWithNote(1);
    var theirs := StoreWithNote(2);
    own, others := mine.GetNote(1, 1).status.Code(), theirs.GetNote(1, 1).status.Code();
  }

  /** test_note_update and test_note_update_unauthorized. */
  method NoteUpdate() returns (own: int, others: int)
    ensures own == 200 && others == 403
  {
    var body := NoteBody("Updated Note", "This is the updated content of the note.", None);
    UpdatedNoteAccepted();
    var mine := StoreWithNote(1);
    var s1 := mine.UpdateNote(1, 1, body);
    var theirs := StoreWithNote(2);
    var s2 := theirs.UpdateNote(1, 1, body);
    own, others := s1.Code(), s2.Code();
  }

  /** test_note_version_history, test_note_delete and test_note_delete_invalid_id. */
  method NoteHistoryAndDelete() returns (history: int, deleted: int, gone: bool, invalid: int)
    ensures history == 200 && deleted == 204 && gone && invalid == 404
  {
    var store := StoreWithNote(1);
    history := store.VersionHistory(1, 1).status.Code();
    var s := store.DeleteNote(1, 1);
    deleted, gone := s.Code(), 1 !in store.notes;
    var empty := new NoteStore({1});
    var t := empty.DeleteNote(1, 999);
    invalid := t.Code();
  }
}
