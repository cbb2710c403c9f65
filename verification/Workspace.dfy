/** The tables of a workspace: open documents, open notebooks, and the index from cells to notebooks. */
module Workspace {
  import opened Unicode
  import opened PositionCodec
  import opened TextDocument
  import opened Convergence
  import opened Wrappers

  datatype Result<T> = Success(value: T) | KeyError

  datatype Cell = Cell(document: string, kind: int, metadata: int)

  datatype Notebook = Notebook(version: int, metadata: int, cells: seq<Cell>)

  datatype DocumentItem = DocumentItem(uri: string, version: int, text: Text)

  /** A splice of the cell list, with the text documents it opens and closes. */
  datatype Structure = Structure(start: nat, deleteCount: nat, cells: seq<Cell>,
                                 didOpen: seq<DocumentItem>, didClose: seq<string>)

  datatype NotebookEvent =
    | Open(uri: string, notebook: Notebook, documents: seq<DocumentItem>)
    | Change(uri: string, version: int, metadata: Option<int>, data: seq<Cell>, structure: Option<Structure>)
    | Close(uri: string, closed: seq<string>)
    | OpenText(document: DocumentItem)
    | CloseText(uri: string)

  /** What the tables say: which documents are open, the notebooks, and the notebook of each cell. */
  datatype Tables = Tables(documents: set<string>, notebooks: map<string, Notebook>, cellIn: map<string, string>)

  const EMPTY := Tables({}, map[], map[])

  /* The effect of each operation on the tables */

  function Put(t: Tables, uri: string, notebook: string): Tables {
    t.(documents := t.documents + {uri}, cellIn := if notebook != "" then t.cellIn[uri := notebook] else t.cellIn)
  }

  function Remove(t: Tables, uri: string): Tables {
    t.(documents := t.documents - {uri}, cellIn := t.cellIn - {uri})
  }

  function PutAll(t: Tables, items: seq<DocumentItem>, notebook: string): Tables {
    if items == [] then t
    else Put(PutAll(t, items[..|items| - 1], notebook), items[|items| - 1].uri, notebook)
  }

  function RemoveAll(t: Tables, uris: seq<string>): Tables {
    if uris == [] then t else Remove(RemoveAll(t, uris[..|uris| - 1]), uris[|uris| - 1])
  }

  /** New kinds and metadata for cells that are in the notebook; of two cells with one document, the last
      is the one found. */
  function WithData(cells: seq<Cell>, data: seq<Cell>): (r: seq<Cell>)
    ensures |r| == |cells| && forall i :: 0 <= i < |r| ==> r[i].document == cells[i].document
  {
    if data == [] then cells
    else
      var done := WithData(cells, data[..|data| - 1]);
      var k := LastIndex(done, data[|data| - 1].document);
      if k < |done| then done[k := data[|data| - 1]] else done
  }

  function LastIndex(cells: seq<Cell>, document: string): (k: nat)
    ensures k <= |cells|
    ensures k < |cells| ==> cells[k].document == document
    ensures forall i :: 0 <= i < |cells| && (k < i || k == |cells|) ==> cells[i].document != document
  {
    if cells == [] then 0
    else if cells[|cells| - 1].document == document then |cells| - 1
    else
      var k := LastIndex(cells[..|cells| - 1], document);
      if k == |cells| - 1 then |cells| else k
  }

  function SpliceCells(cells: seq<Cell>, s: Structure): seq<Cell> {
    cells[..Cap(s.start, cells)] + s.cells + cells[Cap(s.start + s.deleteCount, cells)..]
  }

  function ChangedNotebook(nb: Notebook, version: int, metadata: Option<int>, data: seq<Cell>,
                           structure: Option<Structure>): Notebook
  {
    var cells := WithData(nb.cells, data);
    // Falsy metadata is ignored.
    Notebook(version, if metadata.Some? && metadata.value != 0 then metadata.value else nb.metadata,
             if structure.Some? then SpliceCells(cells, structure.value) else cells)
  }

  function Step(t: Tables, e: NotebookEvent): Tables {
    match e
    case Open(uri, nb, documents) => PutAll(t.(notebooks := t.notebooks[uri := nb]), documents, uri)
    case Change(uri, version, metadata, data, structure) =>
      if uri !in t.notebooks then t
      else
        var t' := t.(notebooks := t.notebooks[uri := ChangedNotebook(t.notebooks[uri], version, metadata, data, structure)]);
        if structure.None? then t'
        else RemoveAll(PutAll(t', structure.value.didOpen, uri), structure.value.didClose)
    case Close(uri, closed) => RemoveAll(t.(notebooks := t.notebooks - {uri}), closed)
    case OpenText(d) => Put(t, d.uri, "")
    case CloseText(uri) => Remove(t, uri)
  }

  function Run(t: Tables, events: seq<NotebookEvent>): Tables {
    if events == [] then t else Step(Run(t, events[..|events| - 1]), events[|events| - 1])
  }

  /* What the operations do, cell by cell and name by name */

  /** The last that came for this document. */
  ghost predicate LastNamed(data: seq<Cell>, document: string, k: nat) {
    k < |data| && data[k].document == document && forall l :: k < l < |data| ==> data[l].document != document
  }

  /** `c` is what cell `i` becomes when new kinds and metadata come for cells: the last that came for its document,
      unless a later cell of the notebook has that document. */
  ghost predicate CellAfter(cells: seq<Cell>, data: seq<Cell>, i: nat, c: Cell)
    requires i < |cells|
  {
    var mine := cells[i].document;
    if (exists d :: d in data && d.document == mine) && (forall j :: i < j < |cells| ==> cells[j].document != mine)
    then exists k: nat :: LastNamed(data, mine, k) && c == data[k]
    else c == cells[i]
  }

  lemma {:induction false} WithDataIs(cells: seq<Cell>, data: seq<Cell>, i: nat)
    requires i < |cells|
    ensures CellAfter(cells, data, i, WithData(cells, data)[i])
  {
    if data != [] {
      var init, last := data[..|data| - 1], data[|data| - 1];
      WithDataIs(cells, init, i);
      NamedOnceMore(cells, init, last, i, WithData(cells, init), LastIndex(WithData(cells, init), last.document));
      assert data == init + [last];
    }
  }

  /** One more that came. */
  lemma {:induction false} NamedOnceMore(cells: seq<Cell>, init: seq<Cell>, last: Cell, i: nat, done: seq<Cell>, k: nat)
    requires i < |cells| == |done| && CellAfter(cells, init, i, done[i])
    requires forall j :: 0 <= j < |cells| ==> done[j].document == cells[j].document
    requires k <= |done| && (k < |done| ==> done[k].document == last.document)
    requires forall j :: 0 <= j < |done| && (k < j || k == |done|) ==> done[j].document != last.document
    ensures CellAfter(cells, init + [last], i, if k < |done| then done[k := last][i] else done[i])
  {
    var data, mine := init + [last], cells[i].document;
    assert data[|init|] == last && forall d :: d in data <==> d in init || d == last;
    assert last.document == mine ==> LastNamed(data, mine, |init|);
    forall l: nat | LastNamed(init, mine, l) && last.document != mine ensures LastNamed(data, mine, l) && data[l] == init[l] {
    }
  }

  /** A change of a notebook: the version is the event's, metadata is the event's unless it has none or falsy one, and
      the cells that the structure does not delete stay in order, with the new cells where it starts. */
  lemma {:induction false} ChangedCells(nb: Notebook, version: int, metadata: Option<int>, data: seq<Cell>, structure: Option<Structure>)
    ensures var r := ChangedNotebook(nb, version, metadata, data, structure);
            && r.version == version
            && r.metadata == (if metadata == None || metadata == Some(0) then nb.metadata else metadata.value)
            && (structure.None? ==>
                  |r.cells| == |nb.cells| && forall i :: 0 <= i < |r.cells| ==> CellAfter(nb.cells, data, i, r.cells[i]))
            && (structure.Some? ==>
                  var s, n := structure.value, |nb.cells|;
                  var from := if s.start < n then s.start else n;
                  var to := if s.start + s.deleteCount < n then s.start + s.deleteCount else n;
                  && |r.cells| == from + |s.cells| + (n - to)
                  && (forall i :: 0 <= i < from ==> CellAfter(nb.cells, data, i, r.cells[i]))
                  && (forall i :: from <= i < from + |s.cells| ==> r.cells[i] == s.cells[i - from])
                  && (forall i :: from + |s.cells| <= i < |r.cells| ==> CellAfter(nb.cells, data, i - from - |s.cells| + to, r.cells[i])))
  {
    hide CellAfter, SpliceCells, WithData;
    var cells := WithData(nb.cells, data);
    forall i | 0 <= i < |nb.cells| ensures CellAfter(nb.cells, data, i, cells[i]) {
      WithDataIs(nb.cells, data, i);
    }
    if structure.Some? {
      var s := structure.value;
      assert ChangedNotebook(nb, version, metadata, data, structure).cells == SpliceCells(cells, s);
      SpliceAt(cells, s, Cap(s.start, cells), Cap(s.start + s.deleteCount, cells));
    }
  }

  lemma {:induction false} SpliceAt(cells: seq<Cell>, s: Structure, from: nat, to: nat)
    requires from == Cap(s.start, cells) && to == Cap(s.start + s.deleteCount, cells)
    ensures var r := SpliceCells(cells, s);
            && |r| == from + |s.cells| + (|cells| - to)
            && (forall i :: 0 <= i < from ==> r[i] == cells[i])
            && (forall i :: from <= i < from + |s.cells| ==> r[i] == s.cells[i - from])
            && (forall i :: from + |s.cells| <= i < |r| ==> r[i] == cells[i - from - |s.cells| + to])
  {}

  /** The text documents that an event opens and closes. */
  ghost function Opened(t: Tables, e: NotebookEvent): set<string> {
    match e
    case Open(_, _, documents) => Uris(documents)
    case Change(uri, _, _, _, Some(s)) => if uri in t.notebooks then Uris(s.didOpen) else {}
    case OpenText(d) => {d.uri}
    case _ => {}
  }

  ghost function Closed(t: Tables, e: NotebookEvent): set<string> {
    match e
    case Change(uri, _, _, _, Some(s)) => if uri in t.notebooks then Elements(s.didClose) else {}
    case Close(_, closed) => Elements(closed)
    case CloseText(uri) => {uri}
    case _ => {}
  }

  /** Each event, name by name: documents that are opened are open, and index cells of the notebook they came with;
      documents that are closed are neither; a notebook is put, changed or removed under its own name only. */
  lemma {:induction false} StepTables(t: Tables, e: NotebookEvent)
    ensures var n, opened_, closed := Step(t, e), Opened(t, e), Closed(t, e);
            var of := if e.Open? || e.Change? then e.uri else "";
            && n.documents == t.documents + opened_ - closed
            && (forall c :: c in n.cellIn <==> c !in closed && (c in t.cellIn || (c in opened_ && of != "")))
            && (forall c :: c in n.cellIn ==> n.cellIn[c] == if c in opened_ && of != "" then of else t.cellIn[c])
            && match e
               case Open(uri, nb, _) => n.notebooks == t.notebooks[uri := nb]
               case Change(uri, version, metadata, data, structure) =>
                 n.notebooks.Keys == t.notebooks.Keys
                 && forall u :: u in t.notebooks ==>
                      n.notebooks[u] == if u == uri then ChangedNotebook(t.notebooks[u], version, metadata, data, structure)
                                        else t.notebooks[u]
               case Close(uri, _) => n.notebooks == t.notebooks - {uri}
               case _ => n.notebooks == t.notebooks
  {
    hide ChangedNotebook, Uris, Elements, PutAll, RemoveAll;
    match e
    case Open(uri, nb, documents) => PutAllTables(t.(notebooks := t.notebooks[uri := nb]), documents, uri);
    case Change(uri, version, metadata, data, structure) =>
      if uri in t.notebooks && structure.Some? {
        var t' := t.(notebooks := t.notebooks[uri := ChangedNotebook(t.notebooks[uri], version, metadata, data, structure)]);
        PutAllTables(t', structure.value.didOpen, uri);
        RemoveAllTables(PutAll(t', structure.value.didOpen, uri), structure.value.didClose);
      }
    case Close(uri, closed) => RemoveAllTables(t.(notebooks := t.notebooks - {uri}), closed);
    case _ =>
  }

  /* Any client */

  /** Whatever a client sends, every indexed cell has a text document. */
  lemma {:induction false} CellsHaveDocuments(events: seq<NotebookEvent>)
    ensures Run(EMPTY, events).cellIn.Keys <= Run(EMPTY, events).documents
  {
    if events != [] {
      CellsHaveDocuments(events[..|events| - 1]);
      StepKeepsDocuments(Run(EMPTY, events[..|events| - 1]), events[|events| - 1]);
    }
  }

  lemma {:induction false} StepKeepsDocuments(t: Tables, e: NotebookEvent)
    requires t.cellIn.Keys <= t.documents
    ensures Step(t, e).cellIn.Keys <= Step(t, e).documents
  {
    match e
    case Open(uri, nb, documents) => PutAllTables(t.(notebooks := t.notebooks[uri := nb]), documents, uri);
    case Change(uri, version, metadata, data, structure) =>
      if uri in t.notebooks && structure.Some? {
        var t' := t.(notebooks := t.notebooks[uri := ChangedNotebook(t.notebooks[uri], version, metadata, data, structure)]);
        PutAllTables(t', structure.value.didOpen, uri);
        RemoveAllTables(PutAll(t', structure.value.didOpen, uri), structure.value.didClose);
      }
    case Close(uri, closed) => RemoveAllTables(t.(notebooks := t.notebooks - {uri}), closed);
    case _ =>
  }

  ghost function Uris(items: seq<DocumentItem>): set<string> {
    set d | d in items :: d.uri
  }

  ghost function Elements(uris: seq<string>): set<string> {
    set u | u in uris
  }

  function Assigned(cellIn: map<string, string>, cells: set<string>, notebook: string): map<string, string> {
    map c | c in cellIn.Keys + cells :: if c in cells then notebook else cellIn[c]
  }

  lemma {:induction false} AssignedNext(cellIn: map<string, string>, cells: set<string>, c: string, notebook: string)
    ensures Assigned(cellIn, cells, notebook)[c := notebook] == Assigned(cellIn, cells + {c}, notebook)
  {}

  /** Putting documents, all at once. */
  lemma {:induction false} PutAllTables(t: Tables, items: seq<DocumentItem>, notebook: string)
    ensures PutAll(t, items, notebook) == t.(
              documents := t.documents + Uris(items),
              cellIn := if notebook == "" then t.cellIn else Assigned(t.cellIn, Uris(items), notebook))
  {
    if items == [] {
      assert Assigned(t.cellIn, Uris(items), notebook) == t.cellIn;
    } else {
      var init, d := items[..|items| - 1], items[|items| - 1];
      PutAllTables(t, init, notebook);
      assert items == init + [d];
      assert Uris(items) == Uris(init) + {d.uri};
      AssignedNext(t.cellIn, Uris(init), d.uri, notebook);
    }
  }

  lemma {:induction false} RemoveAllTables(t: Tables, uris: seq<string>)
    ensures RemoveAll(t, uris) == t.(documents := t.documents - Elements(uris), cellIn := t.cellIn - Elements(uris))
  {
    if uris != [] {
      var init, u := uris[..|uris| - 1], uris[|uris| - 1];
      RemoveAllTables(t, init);
      assert uris == init + [u];
      assert Elements(uris) == Elements(init) + {u};
    }
  }

  /* Conforming clients */

  ghost function Documents(cells: seq<Cell>): set<string> {
    set c | c in cells :: c.document
  }

  /** The index agrees with the notebooks in both directions, and every cell has a text document. */
  ghost predicate Indexed(t: Tables) {
    && (forall c :: c in t.cellIn ==> t.cellIn[c] in t.notebooks && c in Documents(t.notebooks[t.cellIn[c]].cells))
    && (forall n, c :: n in t.notebooks && c in Documents(t.notebooks[n].cells) ==> c in t.cellIn && t.cellIn[c] == n)
    && t.cellIn.Keys <= t.documents
  }

  /** The documents of the cells that a splice leaves, and of those that it brings. */
  ghost function DocumentsAfter(cells: seq<Cell>, s: Structure): set<string> {
    (set i | 0 <= i < |cells| && (i < s.start || s.start + s.deleteCount <= i) :: cells[i].document) + Documents(s.cells)
  }

  /** What the protocol asks of a client (LSP 3.17, "Notebook Document Synchronization"): documents are
      opened for exactly the cells that are new and closed for exactly those that are gone; open documents
      are not opened again, and cells are opened and closed only with their notebook. */
  ghost predicate Conforms(t: Tables, e: NotebookEvent) {
    match e
    case Open(uri, nb, documents) =>
      && uri != "" && uri !in t.notebooks
      && Uris(documents) == Documents(nb.cells) && Uris(documents) !! t.documents
    case Change(uri, version, metadata, data, structure) =>
      && uri != "" && uri in t.notebooks
      && (structure.Some? ==>
            var before := Documents(t.notebooks[uri].cells);
            var after := DocumentsAfter(t.notebooks[uri].cells, structure.value);
            && Uris(structure.value.didOpen) == after - before && (after - before) !! t.documents
            && Elements(structure.value.didClose) == before - after)
    case Close(uri, closed) => uri in t.notebooks && Elements(closed) == Documents(t.notebooks[uri].cells)
    case OpenText(d) => d.uri !in t.documents
    case CloseText(uri) => uri !in t.cellIn
  }

  ghost predicate ConformingEvents(events: seq<NotebookEvent>) {
    events == [] ||
    (ConformingEvents(events[..|events| - 1]) && Conforms(Run(EMPTY, events[..|events| - 1]), events[|events| - 1]))
  }

  lemma {:induction false} SameDocuments(cells: seq<Cell>, data: seq<Cell>)
    ensures Documents(WithData(cells, data)) == Documents(cells)
  {
    var r := WithData(cells, data);
    forall d | d in Documents(r) ensures d in Documents(cells) {
      var i :| 0 <= i < |r| && r[i].document == d;
      assert cells[i] in cells;
    }
    forall d | d in Documents(cells) ensures d in Documents(r) {
      var i :| 0 <= i < |cells| && cells[i].document == d;
      assert r[i] in r;
    }
  }

  lemma {:induction false} SplicedDocuments(cells: seq<Cell>, s: Structure)
    ensures Documents(SpliceCells(cells, s)) == DocumentsAfter(cells, s)
  {
    var r, from, to := SpliceCells(cells, s), Cap(s.start, cells), Cap(s.start + s.deleteCount, cells);
    SpliceAt(cells, s, from, to);
    hide SpliceCells;
    forall i | 0 <= i < |r| ensures r[i].document in DocumentsAfter(cells, s) {
      if i >= from + |s.cells| {
        assert cells[i - from - |s.cells| + to] == r[i];
      }
    }
    forall i | 0 <= i < |cells| && (i < s.start || s.start + s.deleteCount <= i) ensures cells[i] in r {
      assert cells[i] == if i < s.start then r[i] else r[from + |s.cells| + (i - to)];
    }
    forall i | 0 <= i < |s.cells| ensures s.cells[i] in r {
      assert s.cells[i] == r[from + i];
    }
  }

  /** Neither the documents nor their places depend on what else a cell holds. */
  lemma {:induction false} SameAfter(a: seq<Cell>, b: seq<Cell>, s: Structure)
    requires |a| == |b| && forall i :: 0 <= i < |a| ==> a[i].document == b[i].document
    ensures DocumentsAfter(a, s) == DocumentsAfter(b, s)
  {}

  /** Replacing a notebook's cells, with the difference opened and closed. */
  lemma {:induction false} Reindexed(t: Tables, uri: string, nb: Notebook, opened_: set<string>, closed: set<string>)
    requires Indexed(t)
    requires var before := if uri in t.notebooks then Documents(t.notebooks[uri].cells) else {};
             opened_ == Documents(nb.cells) - before && closed == before - Documents(nb.cells)
    requires opened_ !! t.documents
    ensures Indexed(Tables(t.documents + opened_ - closed, t.notebooks[uri := nb],
                           Assigned(t.cellIn, opened_, uri) - closed))
  {
    var t' := Tables(t.documents + opened_ - closed, t.notebooks[uri := nb], Assigned(t.cellIn, opened_, uri) - closed);
    forall c | c in t'.cellIn
      ensures t'.cellIn[c] in t'.notebooks && c in Documents(t'.notebooks[t'.cellIn[c]].cells)
    {
      if c !in opened_ {
        assert t'.cellIn[c] == t.cellIn[c];
      }
    }
    forall n, c | n in t'.notebooks && c in Documents(t'.notebooks[n].cells)
      ensures c in t'.cellIn && t'.cellIn[c] == n
    {
      if n == uri {
        assert c in opened_ || (uri in t.notebooks && c in Documents(t.notebooks[uri].cells));
      } else {
        assert c in t.cellIn && t.cellIn[c] == n;
      }
    }
  }

  lemma {:induction false} OpenIndexed(t: Tables, uri: string, nb: Notebook, documents: seq<DocumentItem>)
    requires Indexed(t) && Conforms(t, Open(uri, nb, documents))
    ensures Indexed(Step(t, Open(uri, nb, documents)))
  {
    PutAllTables(t.(notebooks := t.notebooks[uri := nb]), documents, uri);
    Reindexed(t, uri, nb, Uris(documents), {});
    assert Assigned(t.cellIn, Uris(documents), uri) - {} == Assigned(t.cellIn, Uris(documents), uri);
    assert t.documents + Uris(documents) - {} == t.documents + Uris(documents);
  }

  lemma {:induction false} CloseIndexed(t: Tables, uri: string, closed: seq<string>)
    requires Indexed(t) && Conforms(t, Close(uri, closed))
    ensures Indexed(Step(t, Close(uri, closed)))
  {
    RemoveAllTables(t.(notebooks := t.notebooks - {uri}), closed);
    hide RemoveAll, Documents, Elements;
    Unindexed(t, uri, Elements(closed));
  }

  /** A notebook goes with its cells. */
  lemma {:induction false} Unindexed(t: Tables, uri: string, closed: set<string>)
    requires Indexed(t) && uri in t.notebooks && closed == Documents(t.notebooks[uri].cells)
    ensures Indexed(Tables(t.documents - closed, t.notebooks - {uri}, t.cellIn - closed))
  {
    hide Documents;
    var t' := Tables(t.documents - closed, t.notebooks - {uri}, t.cellIn - closed);
    forall c | c in t'.cellIn
      ensures t'.cellIn[c] in t'.notebooks && c in Documents(t'.notebooks[t'.cellIn[c]].cells)
    {
      assert c in t.cellIn && t'.cellIn[c] == t.cellIn[c];
    }
    forall n, c | n in t'.notebooks && c in Documents(t'.notebooks[n].cells)
      ensures c in t'.cellIn && t'.cellIn[c] == n
    {
      assert n in t.notebooks && c in t.cellIn && t.cellIn[c] == n;
    }
  }

  lemma {:induction false} ChangeIndexed(t: Tables, e: NotebookEvent)
    requires Indexed(t) && Conforms(t, e) && e.Change?
    ensures Indexed(Step(t, e))
  {
    var uri := e.uri;
    var nb := ChangedNotebook(t.notebooks[uri], e.version, e.metadata, e.data, e.structure);
    SameDocuments(t.notebooks[uri].cells, e.data);
    if e.structure.Some? {
      var s, t1 := e.structure.value, t.(notebooks := t.notebooks[uri := nb]);
      SplicedDocuments(WithData(t.notebooks[uri].cells, e.data), s);
      SameAfter(WithData(t.notebooks[uri].cells, e.data), t.notebooks[uri].cells, s);
      PutAllTables(t1, s.didOpen, uri);
      RemoveAllTables(PutAll(t1, s.didOpen, uri), s.didClose);
      Reindexed(t, uri, nb, Uris(s.didOpen), Elements(s.didClose));
    } else {
      Reindexed(t, uri, nb, {}, {});
      assert Assigned(t.cellIn, {}, uri) - {} == t.cellIn;
      assert t.documents + {} - {} == t.documents;
    }
  }

  lemma {:induction false} StepIndexed(t: Tables, e: NotebookEvent)
    requires Indexed(t) && Conforms(t, e)
    ensures Indexed(Step(t, e))
  {
    match e
    case Open(uri, nb, documents) => OpenIndexed(t, uri, nb, documents);
    case Change(_, _, _, _, _) => ChangeIndexed(t, e);
    case Close(uri, closed) => CloseIndexed(t, uri, closed);
    case OpenText(_) =>
    case CloseText(_) =>
  }

  /** In every run of a conforming client, the cells mapped to a notebook are exactly the documents of its
      cell list, every mapped notebook is open, and every cell has a text document. */
  lemma {:induction false} IndexAgrees(events: seq<NotebookEvent>)
    requires ConformingEvents(events)
    ensures Indexed(Run(EMPTY, events))
  {
    if events != [] {
      IndexAgrees(events[..|events| - 1]);
      StepIndexed(Run(EMPTY, events[..|events| - 1]), events[|events| - 1]);
    }
  }

  /* The object */

  /** Changes to the text of one document, as a notification carries them. */
  datatype TextChange = TextChange(uri: string, version: int, edits: seq<Edit>)

  function EditsFor(texts: seq<TextChange>, uri: string): seq<Edit> {
    if texts == [] then []
    else EditsFor(texts[..|texts| - 1], uri) + if texts[|texts| - 1].uri == uri then texts[|texts| - 1].edits else []
  }

  /** The version a document has after them, if it had version `v`. */
  function VersionAfter(texts: seq<TextChange>, uri: string, v: int): int {
    if texts == [] then v
    else
      var t := texts[|texts| - 1];
      if t.uri == uri && t.edits != [] then t.version else VersionAfter(texts[..|texts| - 1], uri, v)
  }

  /** The edits of a document, in the order they came. */
  lemma {:induction false} EditsInOrder(a: seq<TextChange>, t: TextChange, b: seq<TextChange>, uri: string)
    ensures EditsFor(a + [t] + b, uri) == EditsFor(a, uri) + (if t.uri == uri then t.edits else []) + EditsFor(b, uri)
    ensures EditsFor([], uri) == []
    decreases |b|
  {
    if b == [] {
      assert a + [t] + b == a + [t] && (a + [t])[..|a|] == a;
    } else {
      var init := b[..|b| - 1];
      assert (a + [t] + b)[..|a| + |b|] == a + [t] + init;
      EditsInOrder(a, t, init, uri);
    }
  }

  /** The version a document has afterwards: that of the last change with edits for it. */
  lemma {:induction false} LastVersion(a: seq<TextChange>, t: TextChange, b: seq<TextChange>, uri: string, v: int)
    requires forall x :: x in b ==> x.uri != uri || x.edits == []
    ensures t.uri == uri && t.edits != [] ==> VersionAfter(a + [t] + b, uri, v) == t.version
    ensures VersionAfter(b, uri, v) == v
    decreases |b|
  {
    if b == [] {
      assert a + [t] + b == a + [t];
    } else {
      var init := b[..|b| - 1];
      assert (a + [t] + b)[..|a| + |b|] == a + [t] + init && b[|b| - 1] in b;
      assert forall x :: x in init ==> x in b;
      LastVersion(a, t, init, uri, v);
    }
  }

  /** The first change of a document that is not there; without edits a change asks for none. */
  function FirstMissing(texts: seq<TextChange>, documents: set<string>): (k: nat)
    ensures k <= |texts|
  {
    if texts == [] || (texts[0].edits != [] && texts[0].uri !in documents) then 0
    else 1 + FirstMissing(texts[1..], documents)
  }

  lemma {:induction false} MissingAt(texts: seq<TextChange>, documents: set<string>, k: nat)
    requires k <= |texts| && forall j :: 0 <= j < k ==> texts[j].edits == [] || texts[j].uri in documents
    requires k == |texts| || (texts[k].edits != [] && texts[k].uri !in documents)
    ensures FirstMissing(texts, documents) == k
  {
    if k > 0 {
      MissingAt(texts[1..], documents, k - 1);
    }
  }

  /** All before it can be made, and it cannot. */
  lemma {:induction false} FirstMissingIs(texts: seq<TextChange>, documents: set<string>)
    ensures var k := FirstMissing(texts, documents);
            && (forall j :: 0 <= j < k ==> texts[j].edits == [] || texts[j].uri in documents)
            && (k < |texts| ==> texts[k].edits != [] && texts[k].uri !in documents)
  {
    if texts != [] && (texts[0].edits == [] || texts[0].uri in documents) {
      FirstMissingIs(texts[1..], documents);
    }
  }

  lemma {:induction false} OneMoreText(texts: seq<TextChange>, i: nat, kind: SyncKind, enc: Encoding, source: Text, uri: string, v: int)
    requires i < |texts|
    ensures ServerRun(kind, enc, source, EditsFor(texts[..i + 1], uri))
         == if texts[i].uri == uri then ServerRun(kind, enc, ServerRun(kind, enc, source, EditsFor(texts[..i], uri)), texts[i].edits)
            else ServerRun(kind, enc, source, EditsFor(texts[..i], uri))
    ensures VersionAfter(texts[..i + 1], uri, v)
         == if texts[i].uri == uri && texts[i].edits != [] then texts[i].version else VersionAfter(texts[..i], uri, v)
  {
    assert texts[..i + 1][..i] == texts[..i];
    ServerRunAppend(kind, enc, source, EditsFor(texts[..i], uri), texts[i].edits);
    assert EditsFor(texts[..i], uri) + [] == EditsFor(texts[..i], uri);
  }

  lemma {:induction false} ServerRunAppend(kind: SyncKind, enc: Encoding, source: Text, a: seq<Edit>, b: seq<Edit>)
    ensures ServerRun(kind, enc, source, a + b) == ServerRun(kind, enc, ServerRun(kind, enc, source, a), b)
    decreases |a|
  {
    if a == [] {
      assert a + b == b;
    } else {
      assert (a + b)[1..] == a[1..] + b && (a + b)[0] == a[0];
      ServerRunAppend(kind, enc, Applied(kind, enc, source, a[0]), a[1..], b);
    }
  }

  lemma {:induction false} ServerRunSnoc(kind: SyncKind, enc: Encoding, source: Text, a: seq<Edit>, e: Edit)
    ensures ServerRun(kind, enc, source, a + [e]) == Applied(kind, enc, ServerRun(kind, enc, source, a), e)
  {
    ServerRunAppend(kind, enc, source, a, [e]);
    assert [e][1..] == [];
    assert ServerRun(kind, enc, ServerRun(kind, enc, source, a), [e])
        == ServerRun(kind, enc, Applied(kind, enc, ServerRun(kind, enc, source, a), e), []);
  }

  lemma {:induction false} PutAllSteps(t: Tables, items: seq<DocumentItem>, notebook: string)
    ensures PutAll(t, items[..0], notebook) == t
    ensures forall i :: 0 <= i < |items| ==>
              && items[i].uri in Uris(items)
              && PutAll(t, items[..i + 1], notebook) == Put(PutAll(t, items[..i], notebook), items[i].uri, notebook)
  {
    forall i | 0 <= i < |items|
      ensures PutAll(t, items[..i + 1], notebook) == Put(PutAll(t, items[..i], notebook), items[i].uri, notebook)
    {
      assert items[..i + 1][..i] == items[..i];
    }
  }

  /** No later item has the same URI. */
  ghost predicate LastOf(items: seq<DocumentItem>, k: nat) {
    k < |items| && forall j :: k < j < |items| ==> items[j].uri != items[k].uri
  }

  lemma {:induction false} LastOfPrefix(items: seq<DocumentItem>, i: nat)
    requires i < |items|
    ensures forall k :: 0 <= k < i && LastOf(items[..i + 1], k) ==> LastOf(items[..i], k) && items[k].uri != items[i].uri
  {
    forall k | 0 <= k < i && LastOf(items[..i + 1], k) ensures LastOf(items[..i], k) && items[k].uri != items[i].uri {
      assert items[..i + 1][i].uri != items[..i + 1][k].uri;
      assert forall j :: k < j < i ==> items[..i][j] == items[..i + 1][j];
    }
  }

  class Workspace {
    const syncKind: SyncKind
    const encoding: Encoding
    var textDocuments: map<string, TextDocument>
    var notebookDocuments: map<string, Notebook>
    var cellInNotebook: map<string, string>

    /** Every open document is an object of its own, under its own name. */
    ghost predicate Valid()
      reads this
    {
      forall u :: u in textDocuments ==>
        textDocuments[u].uri == u && textDocuments[u].encoding == encoding && textDocuments[u].syncKind == syncKind
    }

    function View(): Tables
      reads this
    {
      Tables(textDocuments.Keys, notebookDocuments, cellInNotebook)
    }

    constructor (syncKind: SyncKind, encoding: Encoding)
      ensures Valid() && View() == EMPTY
      ensures this.syncKind == syncKind && this.encoding == encoding
    {
      this.syncKind, this.encoding := syncKind, encoding;
      textDocuments, notebookDocuments, cellInNotebook := map[], map[], map[];
    }

    method GetNotebookDocument(notebookUri: Option<string>, cellUri: Option<string>) returns (r: Option<Notebook>)
      ensures notebookUri.Some? ==>
                r == if notebookUri.value in notebookDocuments then Some(notebookDocuments[notebookUri.value]) else None
      ensures notebookUri.None? && cellUri.Some? ==>
                r == if cellUri.value in cellInNotebook && cellInNotebook[cellUri.value] in notebookDocuments
                     then Some(notebookDocuments[cellInNotebook[cellUri.value]]) else None
      ensures notebookUri.None? && cellUri.None? ==> r.None?
      ensures notebookUri.None? && cellUri.Some? && Indexed(View()) ==>
                (r.Some? <==> exists n :: n in notebookDocuments && cellUri.value in Documents(notebookDocuments[n].cells))
      ensures notebookUri.None? && cellUri.Some? && Indexed(View()) && r.Some? ==>
                cellUri.value in Documents(r.value.cells)
    {
      r := None;
      var uri := notebookUri;
      if uri.None? && cellUri.Some? && cellUri.value in cellInNotebook {
        uri := Some(cellInNotebook[cellUri.value]);
      }
      if uri.Some? && uri.value in notebookDocuments {
        r := Some(notebookDocuments[uri.value]);
      }
    }

    method PutTextDocument(item: DocumentItem, notebookUri: string)
      requires Valid()
      modifies this
      ensures Valid() && View() == Put(old(View()), item.uri, notebookUri)
      ensures textDocuments == old(textDocuments)[item.uri := textDocuments[item.uri]]
      ensures var d := textDocuments[item.uri]; fresh(d) && d.source == item.text && d.version == item.version
    {
      var d := new TextDocument(item.uri, item.text, item.version, syncKind, encoding);
      textDocuments := textDocuments[item.uri := d];
      if notebookUri != "" {
        cellInNotebook := cellInNotebook[item.uri := notebookUri];
      }
    }

    method RemoveTextDocument(uri: string)
      requires Valid()
      modifies this
      ensures Valid() && View() == Remove(old(View()), uri)
      ensures textDocuments == old(textDocuments) - {uri}
    {
      textDocuments := textDocuments - {uri};
      cellInNotebook := cellInNotebook - {uri};
    }

    /** The document is open with the text and version it was opened with. */
    ghost predicate Holds(item: DocumentItem)
      reads this, textDocuments.Values
    {
      && item.uri in textDocuments
      && textDocuments[item.uri].source == item.text && textDocuments[item.uri].version == item.version
    }

    method PutTextDocuments(items: seq<DocumentItem>, notebookUri: string)
      requires Valid()
      modifies this
      ensures Valid() && View() == PutAll(old(View()), items, notebookUri)
      ensures forall u :: u in textDocuments ==> fresh(textDocuments[u]) || (u in old(textDocuments) && textDocuments[u] == old(textDocuments)[u])
      ensures forall u :: u in old(textDocuments) && u !in Uris(items) ==> u in textDocuments && textDocuments[u] == old(textDocuments)[u]
      ensures forall i :: 0 <= i < |items| && LastOf(items, i) ==> Holds(items[i])
    {
      PutAllSteps(View(), items, notebookUri);
      hide Put, PutAll, Uris, LastOf;
      for i := 0 to |items|
        invariant forall k :: 0 <= k < i && LastOf(items[..i], k) ==> Holds(items[k])
        invariant Valid() && View() == PutAll(old(View()), items[..i], notebookUri)
        invariant forall u :: u in textDocuments ==> fresh(textDocuments[u]) || (u in old(textDocuments) && textDocuments[u] == old(textDocuments)[u])
        invariant forall u :: u in old(textDocuments) && u !in Uris(items) ==> u in textDocuments && textDocuments[u] == old(textDocuments)[u]
      {
        LastOfPrefix(items, i);
        PutTextDocument(items[i], notebookUri);
      }
      assert items[..|items|] == items;
    }

    method RemoveTextDocuments(uris: seq<string>)
      requires Valid()
      modifies this
      ensures Valid() && View() == RemoveAll(old(View()), uris)
      ensures textDocuments == old(textDocuments) - Elements(uris)
    {
      for i := 0 to |uris|
        invariant Valid() && View() == RemoveAll(old(View()), uris[..i])
        invariant textDocuments == old(textDocuments) - Elements(uris[..i])
      {
        assert uris[..i + 1][..i] == uris[..i];
        assert Elements(uris[..i + 1]) == Elements(uris[..i]) + {uris[i]};
        RemoveTextDocument(uris[i]);
      }
      assert uris[..|uris|] == uris;
    }

    method PutNotebookDocument(uri: string, notebook: Notebook, documents: seq<DocumentItem>)
      requires Valid()
      modifies this
      ensures Valid() && View() == Step(old(View()), Open(uri, notebook, documents))
      ensures forall i :: 0 <= i < |documents| && LastOf(documents, i) ==> Holds(documents[i])
      ensures forall u :: u in old(textDocuments) && u !in Uris(documents) ==> u in textDocuments && textDocuments[u] == old(textDocuments)[u]
    {
      notebookDocuments := notebookDocuments[uri := notebook];
      PutTextDocuments(documents, uri);
    }

    method RemoveNotebookDocument(uri: string, documents: seq<string>)
      requires Valid()
      modifies this
      ensures Valid() && View() == Step(old(View()), Close(uri, documents))
      ensures textDocuments == old(textDocuments) - Elements(documents)
    {
      notebookDocuments := notebookDocuments - {uri};
      RemoveTextDocuments(documents);
    }

    /** `didChange`: the changes of one notification, in order; unknown documents raise `KeyError`. */
    method DidChange(uri: string, version: int, edits: seq<Edit>) returns (r: Result<()>)
      requires Valid()
      modifies if uri in textDocuments then {textDocuments[uri]} else {}
      ensures Valid()
      ensures r.KeyError? <==> edits != [] && uri !in textDocuments
      ensures uri in textDocuments ==>
                && textDocuments[uri].source == ServerRun(syncKind, encoding, old(textDocuments[uri].source), edits)
                && textDocuments[uri].version == if edits == [] then old(textDocuments[uri].version) else version
    {
      assert uri in textDocuments ==>
        textDocuments[uri].source == ServerRun(syncKind, encoding, textDocuments[uri].source, edits[..0]);
      hide ServerRun, Applied;
      for i := 0 to |edits|
        invariant Valid()
        invariant i > 0 ==> uri in textDocuments
        invariant uri in textDocuments ==>
                    && textDocuments[uri].source
                       == ServerRun(syncKind, encoding, old(textDocuments[uri].source), edits[..i])
                    && textDocuments[uri].version == if i == 0 then old(textDocuments[uri].version) else version
      {
        r := UpdateTextDocument(uri, version, edits[i]);
        if r.KeyError? {
          return;
        }
        ServerRunSnoc(syncKind, encoding, old(textDocuments[uri].source), edits[..i], edits[i]);
        assert edits[..i + 1] == edits[..i] + [edits[i]];
      }
      assert edits[..|edits|] == edits;
      r := Success(());
    }

    /** The edit's positions are made into objects on arrival. */
    method UpdateTextDocument(uri: string, version: int, edit: Edit) returns (r: Result<()>)
      requires Valid()
      modifies if uri in textDocuments then {textDocuments[uri]} else {}
      ensures Valid()
      ensures r.KeyError? <==> uri !in textDocuments
      ensures uri in textDocuments ==>
                && textDocuments[uri].source == Applied(syncKind, encoding, old(textDocuments[uri].source), edit)
                && textDocuments[uri].version == version
    {
      if uri !in textDocuments {
        return KeyError;
      }
      var change: ChangeEvent;
      match edit {
        case Whole(text) => change := WholeDocument(text);
        case Replace(span, text) =>
          var start := new Position(span.start.line, span.start.character);
          var end := new Position(span.end.line, span.end.character);
          change := Partial(start, end, text);
      }
      assert EditOf(change) == edit;
      textDocuments[uri].ApplyChange(change);
      textDocuments[uri].version := version;
      r := Success(());
    }

    /** The text changes of one cell, and what they mean for every document. */
    method UpdateText(t: TextChange) returns (r: Result<()>)
      requires Valid()
      modifies textDocuments.Values
      ensures Valid()
      ensures r.KeyError? <==> t.edits != [] && t.uri !in textDocuments
      ensures forall u :: u in textDocuments ==>
                textDocuments[u].source == if u == t.uri then ServerRun(syncKind, encoding, old(textDocuments[u].source), t.edits)
                                           else old(textDocuments[u].source)
      ensures forall u :: u in textDocuments ==>
                textDocuments[u].version == if u == t.uri && t.edits != [] then t.version else old(textDocuments[u].version)
    {
      hide ServerRun;
      r := DidChange(t.uri, t.version, t.edits);
    }

    /** Text changes of a notebook's cells, each to its own document. */
    method UpdateTexts(texts: seq<TextChange>) returns (r: Result<()>)
      requires Valid()
      modifies textDocuments.Values
      ensures Valid()
      ensures r.KeyError? <==> FirstMissing(texts, textDocuments.Keys) < |texts|
      ensures forall u :: u in textDocuments ==>
                var done := texts[..FirstMissing(texts, textDocuments.Keys)];
                && textDocuments[u].source == ServerRun(syncKind, encoding, old(textDocuments[u].source), EditsFor(done, u))
                && textDocuments[u].version == VersionAfter(done, u, old(textDocuments[u].version))
    {
      assert texts[..0] == [] && texts[..|texts|] == texts;
      assert forall u, source: Text :: ServerRun(syncKind, encoding, source, EditsFor([], u)) == source;
      assert forall u, v: int :: VersionAfter([], u, v) == v;
      hide ServerRun, EditsFor, VersionAfter, FirstMissing;
      for i := 0 to |texts|
        invariant Valid()
        invariant forall j :: 0 <= j < i ==> texts[j].edits == [] || texts[j].uri in textDocuments
        invariant forall u :: u in textDocuments ==>
                    && textDocuments[u].source
                       == ServerRun(syncKind, encoding, old(textDocuments[u].source), EditsFor(texts[..i], u))
                    && textDocuments[u].version == VersionAfter(texts[..i], u, old(textDocuments[u].version))
      {
        var t := texts[i];
        r := UpdateText(t);
        if r.KeyError? {
          MissingAt(texts, textDocuments.Keys, i);
          return;
        }
        forall u | u in textDocuments
          ensures textDocuments[u].source
               == ServerRun(syncKind, encoding, old(textDocuments[u].source), EditsFor(texts[..i + 1], u))
          ensures textDocuments[u].version == VersionAfter(texts[..i + 1], u, old(textDocuments[u].version))
        {
          OneMoreText(texts, i, syncKind, encoding, old(textDocuments[u].source), u, old(textDocuments[u].version));
        }
      }
      MissingAt(texts, textDocuments.Keys, |texts|);
      r := Success(());
    }

    /** The documents that a change of the cell list opens and closes. */
    method OpenAndClose(uri: string, structure: Structure)
      requires Valid()
      modifies this
      ensures Valid() && View() == RemoveAll(PutAll(old(View()), structure.didOpen, uri), structure.didClose)
      ensures forall u :: u in textDocuments ==> fresh(textDocuments[u]) || textDocuments[u] in old(textDocuments).Values
      ensures forall u :: u in textDocuments && u in old(textDocuments) && u !in Uris(structure.didOpen) ==>
                textDocuments[u] == old(textDocuments)[u]
      ensures forall i :: 0 <= i < |structure.didOpen| && LastOf(structure.didOpen, i) && structure.didOpen[i].uri in textDocuments ==>
                Holds(structure.didOpen[i])
    {
      hide PutAll, RemoveAll, Uris, LastOf;
      PutTextDocuments(structure.didOpen, uri);
      RemoveTextDocuments(structure.didClose);
    }

    method UpdateNotebookDocument(uri: string, version: int, metadata: Option<int>, data: seq<Cell>,
                                  structure: Option<Structure>, texts: seq<TextChange>) returns (r: Result<()>)
      requires Valid()
      modifies this, textDocuments.Values
      ensures Valid() && View() == Step(old(View()), Change(uri, version, metadata, data, structure))
      ensures uri !in old(notebookDocuments) ==> r.KeyError?
      ensures uri in old(notebookDocuments) ==> (r.KeyError? <==> FirstMissing(texts, textDocuments.Keys) < |texts|)
      ensures uri in old(notebookDocuments) ==>
                var done := texts[..FirstMissing(texts, textDocuments.Keys)];
                forall u :: u in textDocuments && u in old(textDocuments)
                            && (structure.Some? ==> u !in Uris(structure.value.didOpen)) ==>
                  && textDocuments[u].source
                     == ServerRun(syncKind, encoding, old(textDocuments[u].source), EditsFor(done, u))
                  && textDocuments[u].version == VersionAfter(done, u, old(textDocuments[u].version))
      ensures uri in old(notebookDocuments) && structure.Some? ==>
                var done := texts[..FirstMissing(texts, textDocuments.Keys)];
                forall i :: 0 <= i < |structure.value.didOpen| && LastOf(structure.value.didOpen, i)
                            && structure.value.didOpen[i].uri in textDocuments ==>
                  var d := structure.value.didOpen[i];
                  && textDocuments[d.uri].source == ServerRun(syncKind, encoding, d.text, EditsFor(done, d.uri))
                  && textDocuments[d.uri].version == VersionAfter(done, d.uri, d.version)
    {
      hide FirstMissing, ServerRun, EditsFor, VersionAfter, ChangedNotebook, PutAll, RemoveAll, Uris, LastOf;
      if uri !in notebookDocuments {
        return KeyError;
      }
      notebookDocuments := notebookDocuments[uri := ChangedNotebook(notebookDocuments[uri], version, metadata, data, structure)];
      if structure.Some? {
        OpenAndClose(uri, structure.value);
      }
      r := UpdateTexts(texts);
    }
  }
}
