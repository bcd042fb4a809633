/**
 * The three tables of the note store (notes/models.py): Note, SharedNote and
 * NoteUpdateHistory, the ORM instance of a history row with its `save`
 * override, and the row filter that both queries and CASCADE deletion use.
 */
module Models {
  import opened Wrappers

  type UserId = int
  type NoteId = int

  /** `Note.title` is a CharField with max_length=255, and so is `NoteUpdateHistory.old_title`. */
  const TitleMaxLength: nat := 255

  /** A row of the Note table: exactly one owner (a single foreign key), a title and a content. */
  datatype Note = Note(owner: UserId, title: string, content: string)

  /** A row of the SharedNote table. No uniqueness constraint: the same pair may occur twice. */
  datatype Share = Share(note: NoteId, user: UserId)

  /** A persisted row of the NoteUpdateHistory table. */
  datatype HistoryRecord = HistoryRecord(note: NoteId, oldTitle: string, oldContent: string)

  /** Python truthiness of an optional integer key: `None` and `0` are both false. */
  predicate IsSet(key: Option<int>)
  {
    key.Some? && key.value != 0
  }

  /**
   * The in-memory NoteUpdateHistory instance. `pk` is None until the first
   * save; `note` is the `note_id` foreign key.
   */
  class HistoryRow {
    var pk: Option<int>
    var note: Option<NoteId>
    var oldTitle: string
    var oldContent: string

    /** `NoteUpdateHistory(note=..., old_title=..., old_content=...)`: not yet saved. */
    constructor (note: Option<NoteId>, oldTitle: string, oldContent: string)
      ensures this.pk == None && this.note == note
      ensures this.oldTitle == oldTitle && this.oldContent == oldContent
    {
      this.pk := None;
      this.note := note;
      this.oldTitle := oldTitle;
      this.oldContent := oldContent;
    }

    /**
     * The `save` override. On the first save of a row that references a
     * note, whatever old_title/old_content were passed in are replaced by the
     * CURRENT title and content of the referenced note object `related`;
     * a row that already has a primary key keeps its stored values. Saving
     * an unsaved row gives it the primary key `freshPk`.
     */
    method Save(related: Note, freshPk: int)
      modifies this
      ensures note == old(note)
      ensures !IsSet(old(pk)) && IsSet(note) ==> oldTitle == related.title && oldContent == related.content
      ensures IsSet(old(pk)) || !IsSet(note) ==> oldTitle == old(oldTitle) && oldContent == old(oldContent)
      ensures pk == if old(pk) == None then Some(freshPk) else old(pk)
    {
      if !IsSet(pk) {
        if IsSet(note) {
          oldTitle := related.title;
          oldContent := related.content;
        }
      }
      if pk == None {
        pk := Some(freshPk);
      }
    }

    /** The table row this instance holds once it has been saved. */
    function Record(): (r: HistoryRecord)
      reads this
      requires note.Some?
    {
      HistoryRecord(note.value, oldTitle, oldContent)
    }
  }

  /**
   * `NoteUpdateHistory.objects.create(note=..., old_title=..., old_content=...)`:
   * build the instance and save it once. For a row that references a note,
   * the stored values are the referenced object's current title and content,
   * not the ones passed in.
   */
  method CreateHistory(note: NoteId, current: Note, oldTitle: string, oldContent: string, freshPk: int)
    returns (r: HistoryRecord)
    ensures r.note == note
    ensures note != 0 ==> r.oldTitle == current.title && r.oldContent == current.content
    ensures note == 0 ==> r.oldTitle == oldTitle && r.oldContent == oldContent
  {
    var row := new HistoryRow(Some(note), oldTitle, oldContent);
    row.Save(current, freshPk);
    r := row.Record();
  }

  /**
   * A history row saved a second time: once its first save has given it a
   * key, the `save` override no longer copies from the related note, so the
   * row keeps the title and content of its first save, whatever note object
   * the later save sees, and keeps its key.
   */
  method SaveAgainKeepsValues(note: NoteId, first: Note, second: Note, oldTitle: string, oldContent: string,
                              firstPk: int, secondPk: int)
    returns (r: HistoryRecord, pk: Option<int>)
    requires note != 0 && firstPk != 0
    ensures r == HistoryRecord(note, first.title, first.content)
    ensures pk == Some(firstPk)
  {
    var row := new HistoryRow(Some(note), oldTitle, oldContent);
    row.Save(first, firstPk);
    row.Save(second, secondPk);
    r, pk := row.Record(), row.pk;
  }

  /**
   * The rows of `rows` that satisfy `keep`, in table order: a
   * `QuerySet.filter`. Each row keeps its multiplicity when it is kept and
   * disappears otherwise.
   */
  function Where<T(==,!new)>(rows: seq<T>, keep: T -> bool): (r: seq<T>)
    ensures |r| <= |rows|
    ensures forall x :: x in r ==> x in rows && keep(x)
    ensures forall x :: multiset(r)[x] == if keep(x) then multiset(rows)[x] else 0
  {
    if rows == [] then []
    else
      assert rows == [rows[0]] + rows[1..];
      (if keep(rows[0]) then [rows[0]] else []) + Where(rows[1..], keep)
  }

  /** `NoteUpdateHistory.objects.filter(note=id)`: every history row of the note, with its multiplicity. */
  function HistoryOf(history: seq<HistoryRecord>, id: NoteId): (r: seq<HistoryRecord>)
    ensures forall h :: multiset(r)[h] == if h.note == id then multiset(history)[h] else 0
  {
    Where(history, (h: HistoryRecord) => h.note == id)
  }

  /**
   * `SharedNote.objects.filter(note=id, user=u)`: the share rows for that
   * pair, with their multiplicity.
   */
  function SharesFor(shares: seq<Share>, id: NoteId, u: UserId): (r: seq<Share>)
    ensures forall s :: s in r ==> s == Share(id, u)
    ensures multiset(r)[Share(id, u)] == multiset(shares)[Share(id, u)]
  {
    Where(shares, (s: Share) => s.note == id && s.user == u)
  }

  /** The SharedNote table after the CASCADE of deleting note `id`: its rows go, every other row stays. */
  function SharesWithout(shares: seq<Share>, id: NoteId): (r: seq<Share>)
    ensures forall s :: s in r ==> s in shares && s.note != id
    ensures forall s :: multiset(r)[s] == if s.note == id then 0 else multiset(shares)[s]
  {
    Where(shares, (s: Share) => s.note != id)
  }

  /** The NoteUpdateHistory table after the CASCADE of deleting note `id`. */
  function HistoryWithout(history: seq<HistoryRecord>, id: NoteId): (r: seq<HistoryRecord>)
    ensures forall h :: h in r ==> h in history && h.note != id
    ensures forall h :: multiset(r)[h] == if h.note == id then 0 else multiset(history)[h]
  {
    Where(history, (h: HistoryRecord) => h.note != id)
  }
}
