/**
 * The note views (notes/views.py) over the three tables, one request at a
 * time. The acting user is an authenticated user id; every view answers with
 * an HTTP status and, where the source returns one, a payload.
 */
module Views {
  import opened Wrappers
  import opened Models
  import opened Serializers

  datatype Status = OK | Created | NoContent | BadRequest | Forbidden | NotFound
  {
    /** The HTTP status code the view answers with. */
    function Code(): int
    {
      match this
      case OK => 200
      case Created => 201
      case NoContent => 204
      case BadRequest => 400
      case Forbidden => 403
      case NotFound => 404
    }
  }

  /** The answer of GET /notes/{id}/: the note on 200, nothing otherwise. */
  datatype NoteReply = NoteReply(status: Status, note: Option<Note>)

  /** The answer of GET /notes/version-history/{id}/: the history rows on 200, nothing otherwise. */
  datatype HistoryReply = HistoryReply(status: Status, records: seq<HistoryRecord>)

  /**
   * Read and write access to a note, as the GET, PUT and history views test it:
   * the note exists and the requester is its owner or
   * `SharedNote.objects.filter(note=note, user=request.user).exists()`.
   */
  function CanRead(notes: map<NoteId, Note>, shares: seq<Share>, u: UserId, id: NoteId): (b: bool)
    ensures b <==> id in notes && (notes[id].owner == u || Share(id, u) in shares)
  {
    var matching := SharesFor(shares, id, u);
    assert matching != [] ==> matching[0] in matching;
    id in notes && (notes[id].owner == u || matching != [])
  }

  /** The SharedNote rows `share_note` creates for `ids`, one per entry and in list order. */
  function Grants(note: NoteId, ids: seq<UserId>): (r: seq<Share>)
    ensures |r| == |ids|
    ensures forall i :: 0 <= i < |ids| ==> r[i] == Share(note, ids[i])
  {
    if ids == [] then [] else [Share(note, ids[0])] + Grants(note, ids[1..])
  }

  /** Granting one more id appends exactly its row. */
  lemma {:induction false} GrantsSnoc(note: NoteId, ids: seq<UserId>, v: UserId)
    ensures Grants(note, ids + [v]) == Grants(note, ids) + [Share(note, v)]
  {
    if ids != [] {
      assert (ids + [v])[1..] == ids[1..] + [v];
      GrantsSnoc(note, ids[1..], v);
    }
  }

  /** SharedNote has no uniqueness constraint: a user listed n times gets n rows for the note, and nobody else gets any. */
  lemma {:induction false} GrantsKeepDuplicates(note: NoteId, ids: seq<UserId>, s: Share)
    ensures multiset(Grants(note, ids))[s] == if s.note == note then multiset(ids)[s.user] else 0
  {
    if ids != [] {
      var rest := Grants(note, ids[1..]);
      GrantsKeepDuplicates(note, ids[1..], s);
      assert multiset(Grants(note, ids)) == multiset{Share(note, ids[0])} + multiset(rest);
      assert ids == [ids[0]] + ids[1..];
      assert multiset(ids) == multiset{ids[0]} + multiset(ids[1..]);
    }
  }

  /** The position of the first id in `ids` that names no user, or |ids| when they all do. */
  function FirstUnknown(users: set<UserId>, ids: seq<UserId>): (k: nat)
    ensures k <= |ids|
    ensures forall j :: 0 <= j < k ==> ids[j] in users
    ensures k < |ids| ==> ids[k] !in users
  {
    if ids == [] || ids[0] !in users then 0 else 1 + FirstUnknown(users, ids[1..])
  }

  /** Sharing a note grants access to exactly the listed users on exactly that note, and revokes nothing. */
  lemma {:induction false} GrantsGiveAccessExactly(notes: map<NoteId, Note>, shares: seq<Share>, note: NoteId,
                                                    ids: seq<UserId>, v: UserId, id: NoteId)
    ensures CanRead(notes, shares + Grants(note, ids), v, id)
        <==> CanRead(notes, shares, v, id) || (id in notes && id == note && v in ids)
  {
    var g := Grants(note, ids);
    if Share(id, v) in g {
      var i :| 0 <= i < |g| && g[i] == Share(id, v);
      assert ids[i] == v;
    }
    if id == note && v in ids {
      var i :| 0 <= i < |ids| && ids[i] == v;
      assert g[i] == Share(id, v);
    }
  }

  /** After the cascade of deleting note `id`, nobody can reach it, and access to every other note is as before. */
  lemma {:induction false} CascadeRevokesOnlyThatNote(notes: map<NoteId, Note>, shares: seq<Share>, id: NoteId,
                                                       v: UserId, m: NoteId)
    ensures CanRead(notes - {id}, SharesWithout(shares, id), v, m) <==> m != id && CanRead(notes, shares, v, m)
  {
    var s := Share(m, v);
    var r := SharesWithout(shares, id);
    assert multiset(r)[s] == if m == id then 0 else multiset(shares)[s];
    assert s in r <==> s in multiset(r);
    assert s in shares <==> s in multiset(shares);
  }

  /**
   * The integrity of the tables: ids are positive and below the next id,
   * every foreign key points at an existing row, and every title fits the
   * 255-character column (the history's copy included).
   */
  ghost function Consistent(users: set<UserId>, notes: map<NoteId, Note>, shares: seq<Share>,
                            history: seq<HistoryRecord>, nextId: NoteId): (b: bool)
    ensures b ==> nextId !in notes && 0 !in notes
  {
    && 0 < nextId
    && (forall id :: id in notes ==> 0 < id < nextId && notes[id].owner in users)
    && (forall id :: id in notes ==> |notes[id].title| <= TitleMaxLength)
    && (forall s :: s in shares ==> s.note in notes && s.user in users)
    && (forall h :: h in history ==> h.note in notes && |h.oldTitle| <= TitleMaxLength)
  }

  /** Deleting a note with its CASCADE leaves no SharedNote or history row pointing at it. */
  lemma {:induction false} CascadeKeepsConsistent(users: set<UserId>, notes: map<NoteId, Note>, shares: seq<Share>,
                                                   history: seq<HistoryRecord>, nextId: NoteId, id: NoteId)
    requires Consistent(users, notes, shares, history, nextId)
    ensures Consistent(users, notes - {id}, SharesWithout(shares, id), HistoryWithout(history, id), nextId)
  {
  }

  /**
   * The note store: the user table (signup is out of scope), the Note,
   * SharedNote and NoteUpdateHistory tables, and the next primary key the
   * Note table hands out.
   */
  class NoteStore {
    var users: set<UserId>
    var notes: map<NoteId, Note>
    var shares: seq<Share>
    var history: seq<HistoryRecord>
    var nextId: NoteId

    /** The tables are consistent. */
    ghost predicate Valid()
      reads this
    {
      Consistent(users, notes, shares, history, nextId)
    }

    /** A store with the given users and no notes. */
    constructor (users: set<UserId>)
      ensures Valid()
      ensures this.users == users && notes == map[] && shares == [] && history == [] && nextId == 1
    {
      this.users := users;
      notes := map[];
      shares := [];
      history := [];
      nextId := 1;
    }

    /**
     * POST /notes/create/: a valid body adds one note owned by the requester
     * (never by the body's owner field) under a fresh id; an invalid body
     * changes nothing.
     */
    method CreateNote(u: UserId, body: NoteBody) returns (status: Status)
      requires Valid() && u in users
      modifies this
      ensures Valid()
      ensures users == old(users) && shares == old(shares) && history == old(history)
      ensures Acceptable(body) ==>
        && status == Created && old(nextId) !in old(notes) && old(nextId) > 0
        && notes == old(notes)[old(nextId) := Note(u, body.title, body.content)] && nextId == old(nextId) + 1
      ensures !Acceptable(body) ==> status == BadRequest && notes == old(notes) && nextId == old(nextId)
    {
      var v := ValidateNote(body);
      if v.Failure? {
        return BadRequest;
      }
      assert |v.value.title| <= TitleMaxLength;
      var created := Note(u, v.value.title, v.value.content);
      ghost var before := notes;
      notes := notes[nextId := created];
      assert forall id :: id in notes ==> id in before || id == nextId;
      nextId := nextId + 1;
      return Created;
    }

    /** GET /notes/{id}/: 404 for a missing note, 200 with the note for its owner or a shared user, 403 otherwise. */
    function GetNote(u: UserId, id: NoteId): (r: NoteReply)
      reads this
      ensures r.status == NotFound <==> id !in notes
      ensures r.status == OK <==> CanRead(notes, shares, u, id)
      ensures r.status == Forbidden <==> id in notes && !CanRead(notes, shares, u, id)
      ensures r.status == OK ==> r.note == Some(notes[id])
      ensures r.status != OK ==> r.note == None
    {
      if id !in notes then NoteReply(NotFound, None)
      else if CanRead(notes, shares, u, id) then NoteReply(OK, Some(notes[id]))
      else NoteReply(Forbidden, None)
    }

    /**
     * PUT /notes/{id}/: 404 for a missing note; 403 for a requester without
     * access, whatever the body; 400 for an invalid body; otherwise the title
     * and content are replaced, the owner kept, and one history row appended
     * that holds the NEW title and content. Only the 200 case changes anything.
     */
    method UpdateNote(u: UserId, id: NoteId, body: NoteBody) returns (status: Status)
      requires Valid() && u in users
      modifies this
      ensures Valid()
      ensures users == old(users) && shares == old(shares) && nextId == old(nextId)
      ensures id !in old(notes) ==> status == NotFound
      ensures id in old(notes) && !CanRead(old(notes), old(shares), u, id) ==> status == Forbidden
      ensures CanRead(old(notes), old(shares), u, id) && !Acceptable(body) ==> status == BadRequest
      ensures status != OK ==> notes == old(notes) && history == old(history)
      ensures status == OK <==> CanRead(old(notes), old(shares), u, id) && Acceptable(body)
      ensures status == OK ==>
        && notes == old(notes)[id := Note(old(notes)[id].owner, body.title, body.content)]
        && history == old(history) + [HistoryRecord(id, body.title, body.content)]
    {
      if id !in notes {
        return NotFound;
      }
      var note := notes[id];
      if note.owner != u && Share(id, u) !in shares {
        return Forbidden;
      }
      var v := ValidateNote(body);
      if v.Failure? {
        return BadRequest;
      }
      // serializer.save(): the note object now holds the new values
      note := Note(note.owner, v.value.title, v.value.content);
      var record := CreateHistory(id, note, note.title, note.content, |history| + 1);
      assert |note.title| <= TitleMaxLength;
      ghost var before := notes;
      notes := notes[id := note];
      assert notes.Keys == before.Keys;
      history := history + [record];
      return OK;
    }

    /**
     * POST /notes/share/: 404 unless the requester owns the note. Then the
     * ids are taken in list order, one SharedNote row per entry; at the
     * first id that names no user the view answers 404 with that id and the
     * rows already created stay. Otherwise 200.
     */
    method ShareNote(u: UserId, noteId: NoteId, ids: seq<UserId>) returns (status: Status, missing: Option<UserId>)
      requires Valid() && u in users
      modifies this
      ensures Valid()
      ensures users == old(users) && notes == old(notes) && history == old(history) && nextId == old(nextId)
      ensures !(noteId in old(notes) && old(notes)[noteId].owner == u) ==>
        status == NotFound && missing == None && shares == old(shares)
      ensures noteId in old(notes) && old(notes)[noteId].owner == u ==>
        var k := FirstUnknown(old(users), ids);
        && shares == old(shares) + Grants(noteId, ids[..k])
        && (k < |ids| ==> status == NotFound && missing == Some(ids[k]))
        && (k == |ids| ==> status == OK && missing == None)
    {
      if noteId !in notes || notes[noteId].owner != u {
        return NotFound, None;
      }
      var i := 0;
      while i < |ids|
        invariant 0 <= i <= |ids|
        invariant forall j :: 0 <= j < i ==> ids[j] in users
        invariant users == old(users) && notes == old(notes) && history == old(history) && nextId == old(nextId)
        invariant shares == old(shares) + Grants(noteId, ids[..i])
        invariant Valid()
      {
        if ids[i] !in users {
          return NotFound, Some(ids[i]);
        }
        assert ids[..i + 1] == ids[..i] + [ids[i]];
        GrantsSnoc(noteId, ids[..i], ids[i]);
        shares := shares + [Share(noteId, ids[i])];
        i := i + 1;
      }
      assert ids[..i] == ids;
      return OK, None;
    }

    /** GET /notes/version-history/{id}/: the same access rule as GET; on 200 exactly the history rows of that note. */
    function VersionHistory(u: UserId, id: NoteId): (r: HistoryReply)
      reads this
      ensures r.status == NotFound <==> id !in notes
      ensures r.status == OK <==> CanRead(notes, shares, u, id)
      ensures r.status == Forbidden <==> id in notes && !CanRead(notes, shares, u, id)
      ensures r.status == OK ==> forall h :: multiset(r.records)[h] == if h.note == id then multiset(history)[h] else 0
      ensures r.status != OK ==> r.records == []
    {
      if id !in notes then HistoryReply(NotFound, [])
      else if CanRead(notes, shares, u, id) then HistoryReply(OK, HistoryOf(history, id))
      else HistoryReply(Forbidden, [])
    }

    /**
     * DELETE /notes/delete/{id}/: 404, changing nothing, unless the
     * requester owns the note (a shared user gets 404 too); otherwise 204,
     * and the note goes together with its SharedNote and history rows.
     */
    method DeleteNote(u: UserId, id: NoteId) returns (status: Status)
      requires Valid() && u in users
      modifies this
      ensures Valid()
      ensures users == old(users) && nextId == old(nextId)
      ensures !(id in old(notes) && old(notes)[id].owner == u) ==>
        status == NotFound && notes == old(notes) && shares == old(shares) && history == old(history)
      ensures id in old(notes) && old(notes)[id].owner == u ==>
        && status == NoContent
        && notes == old(notes) - {id}
        && shares == SharesWithout(old(shares), id)
        && history == HistoryWithout(old(history), id)
    {
      if id in notes && notes[id].owner == u {
        CascadeKeepsConsistent(users, notes, shares, history, nextId, id);
        notes, shares, history := notes - {id}, SharesWithout(shares, id), HistoryWithout(history, id);
        status := NoContent;
      } else {
        status := NotFound;
      }
    }
  }
}
