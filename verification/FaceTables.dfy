/** The tables the face engine reads, and the abstract picture of its in-memory reference graph. */
module FaceTables {

  datatype Option<+T> = None | Some(value: T)

  type Vector = seq<real>

  /** One photo_faces row joined with its media row.  `embedding` is what decodeVector makes of
      the stored bytes; `referenceEligible` is a nullable column. */
  datatype FaceRow = FaceRow(
    person: int, embedding: Option<Vector>, model: string, favorite: bool, ignored: bool,
    referenceEligible: Option<bool>, adminOnly: bool)

  /** photo_faces, photo_face_references (face id to person id) and photo_face_state.revision. */
  datatype Tables = Tables(faces: map<int, FaceRow>, references: map<int, int>, revision: int)

  /** What the graph remembers about one reference face. */
  datatype Entry = Entry(person: int, vector: Vector, favorite: bool)

  /** A face and its vector in the lists of a person. */
  datatype Filing = Filing(person: int, id: int, vector: Vector)

  /** The graph without its list orders: the entry of every face, and what is filed under whom. */
  datatype View = View(entries: map<int, Entry>, filings: set<Filing>)

  predicate Usable(f: FaceRow, model: string) {
    && f.model == model
    && !f.ignored
    && (f.favorite || f.referenceEligible.None? || f.referenceEligible.value)
    && f.embedding.Some?
  }

  function EntryOf(f: FaceRow): Entry
    requires f.embedding.Some?
  {
    Entry(f.person, f.embedding.value, f.favorite)
  }

  /** The rows of the full rebuild's query. */
  function Entries(t: Tables, model: string): map<int, Entry> {
    map id | id in t.references && id in t.faces && Usable(t.faces[id], model) && !t.faces[id].adminOnly
      :: EntryOf(t.faces[id])
  }

  /** The rows of the incremental query for one person.  It filters on the person of the
      reference row and does not look at the privacy of the photo. */
  function PersonRows(t: Tables, model: string, p: int): map<int, Entry> {
    map id | id in t.references && t.references[id] == p && id in t.faces && Usable(t.faces[id], model)
      :: EntryOf(t.faces[id]).(person := p)
  }

  function Slice(e: map<int, Entry>, p: int): map<int, Entry> {
    map id | id in e && e[id].person == p :: e[id]
  }

  function Filings(e: map<int, Entry>): set<Filing> {
    set id | id in e :: Filing(e[id].person, id, e[id].vector)
  }

  /** The graph a full rebuild produces. */
  function Rebuilt(e: map<int, Entry>): View {
    View(e, Filings(e))
  }

  /** A row of the reference table whose face can serve as a reference: of the model, not ignored, chosen or not ruled
      out, and with an embedding. */
  ghost predicate CurrentReference(t: Tables, model: string, id: int) {
    && id in t.references && id in t.faces
    && var f := t.faces[id];
    f.model == model && !f.ignored && (f.favorite || f.referenceEligible != Some(false)) && f.embedding != None
  }

  lemma RowsAreCurrent(t: Tables, model: string, id: int)
    ensures id in Entries(t, model) <==> CurrentReference(t, model, id) && !t.faces[id].adminOnly
    ensures forall p :: id in PersonRows(t, model, p) <==> CurrentReference(t, model, id) && t.references[id] == p
  {}

  /** Reference rows carry the person of their face and belong to public photos. */
  ghost predicate Sound(t: Tables, model: string) {
    forall id | id in t.references && id in t.faces && Usable(t.faces[id], model) ::
      t.references[id] == t.faces[id].person && !t.faces[id].adminOnly
  }

  /** The two queries agree on every person exactly when the reference table is sound. */
  lemma QueriesAgree(t: Tables, model: string)
    ensures (forall p :: PersonRows(t, model, p) == Slice(Entries(t, model), p)) <==> Sound(t, model)
  {
    var e := Entries(t, model);
    if Sound(t, model) {
      forall p ensures PersonRows(t, model, p) == Slice(e, p) {
        var rows, slice := PersonRows(t, model, p), Slice(e, p);
        forall id ensures id in rows <==> id in slice
                  ensures id in rows ==> rows[id] == slice[id] {
          assert id in rows <==> id in e && e[id].person == p;
        }
        assert rows == slice;
      }
    } else {
      var id :| id in t.references && id in t.faces && Usable(t.faces[id], model)
                && !(t.references[id] == t.faces[id].person && !t.faces[id].adminOnly);
      var p := t.references[id];
      assert id in PersonRows(t, model, p) && id !in Slice(e, p);
    }
  }
}
