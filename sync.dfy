/** `handleSync` of api/index.js: every file of the Drive listing that is
    new or changed is downloaded, its text extracted, filed under a
    category, cut into chunks and embedded, and the store is saved. The
    Drive listing, the downloads and the embedding provider are inputs; a
    call that throws is a `None`. */
module Sync {
  import opened Wrappers
  import opened JsText
  import opened Store
  import opened Indexing
  import Processes

  /** One entry of the Drive listing (`listFiles()`). */
  datatype DriveFile = DriveFile(
    id: string,
    name: string,
    mimeType: string,
    modifiedTime: string,
    webViewLink: string,
    size: Option<string>)

  /** What `downloadFileContent` resolves to. */
  datatype Download = Download(content: Content, exportedMimeType: string)

  /** The outside world as the sync sees it. `download` and `embed` return
      `None` where the call throws; `now` is the time stamp written during
      the run. */
  datatype SyncEnv = SyncEnv(
    download: DriveFile -> Option<Download>,
    decoders: Decoders,
    embed: seq<string> -> Option<seq<Vector>>,
    now: Timestamp)

  /** The JSON response: `{ success, filesFound, filesProcessed }`, or the
      status-500 error when the listing itself fails. */
  datatype SyncResponse = Synced(filesFound: nat, filesProcessed: nat) | ListingFailed

  /** The part of the store the sync reads and writes. */
  datatype SyncState = SyncState(
    documents: seq<Document>,
    chunks: seq<Chunk>,
    nextId: map<Collection, int>)

  predicate CountersOk(st: SyncState) {
    forall c: Collection :: c in st.nextId
  }

  /** `parseInt(file.size || '0')`, where `parseInt('0')` is 0
      (`FileSizeDefault`): `NaN`, stored as `null`, when the size does not
      start with a numeral. */
  function FileSize(file: DriveFile): Number {
    if file.size.None? || file.size.value == "" then Num(0) else Processes.ParseInt(file.size.value)
  }

  /** Reading an absent or empty size as 0 is `parseInt('0')`. */
  lemma FileSizeDefault(file: DriveFile)
    ensures FileSize(file)
      == Processes.ParseInt(if file.size.None? || file.size.value == "" then "0" else file.size.value)
  {
    Processes.ParseIntOfDecimal(0);
  }

  /** A decimal size is its value; a size starting with anything but a
      digit, a sign or white space is `NaN`. */
  lemma FileSizeValue(file: DriveFile, n: nat)
    ensures file.size == Some(DecimalString(n)) ==> FileSize(file) == Num(n)
    ensures file.size.Some? && file.size.value != [] && Processes.DigitValue(file.size.value[0]) >= 10
        && file.size.value[0] != '-' && file.size.value[0] != '+' && !IsSpace(file.size.value[0])
        ==> FileSize(file) == NaN
  {
    Processes.ParseIntOfDecimal(n);
    if file.size.Some? && file.size.value != [] {
      var c := file.size.value[0];
      if Processes.DigitValue(c) >= 10 && c != '-' && c != '+' && !IsSpace(c) {
        Processes.ParseIntNaN(file.size.value);
      }
    }
  }

  /** `store.documents.find((d) => d.drive_file_id === id)`, as an index. */
  function FindDoc(docs: seq<Document>, fid: string): (r: Option<nat>)
    ensures r.Some? ==> r.value < |docs| && docs[r.value].drive_file_id == fid
    ensures r.Some? ==> forall j :: 0 <= j < r.value ==> docs[j].drive_file_id != fid
    ensures r.None? <==> forall j :: 0 <= j < |docs| ==> docs[j].drive_file_id != fid
  {
    if docs == [] then None
    else if docs[0].drive_file_id == fid then Some(0)
    else match FindDoc(docs[1..], fid)
      case None => None
      case Some(i) => Some(i + 1)
  }

  /** The fields `Object.assign` overwrites on a changed document. */
  function Refreshed(d: Document, file: DriveFile, category: string, text: string, env: SyncEnv): (r: Document)
    ensures r.id == d.id && r.drive_file_id == d.drive_file_id && r.created_at == d.created_at
    ensures r.last_modified == file.modifiedTime && r.content_text == text
  {
    d.(title := file.name, category := category, mime_type := file.mimeType,
       drive_url := file.webViewLink, content_text := text, file_size := FileSize(file),
       last_modified := file.modifiedTime, synced_at := env.now)
  }

  /** The record pushed for a file seen for the first time. */
  function NewDocument(id: int, file: DriveFile, category: string, text: string, env: SyncEnv): Document {
    Document(id, file.id, file.name, category, file.mimeType, file.webViewLink, text,
             FileSize(file), file.modifiedTime, env.now, env.now)
  }

  /** `store.chunks.filter((c) => c.document_id !== id)` */
  function WithoutDocument(cs: seq<Chunk>, id: int): (r: seq<Chunk>)
    ensures forall c :: c in r <==> c in cs && c.document_id != id
    ensures |r| <= |cs|
  {
    if cs == [] then []
    else (if cs[0].document_id != id then [cs[0]] else []) + WithoutDocument(cs[1..], id)
  }

  /** The chunks of one document, in store order. */
  function ChunksFor(cs: seq<Chunk>, id: int): (r: seq<Chunk>)
    ensures forall c :: c in r <==> c in cs && c.document_id == id
  {
    if cs == [] then []
    else (if cs[0].document_id == id then [cs[0]] else []) + ChunksFor(cs[1..], id)
  }

  /** `embeddings[j]`, `undefined` past the end of the provider's answer. */
  function EmbeddingAt(es: seq<Vector>, j: nat): Option<Vector> {
    if j < |es| then Some(es[j]) else None
  }

  /** The chunk record pushed for piece `j` of document `docId`, with id `id`. */
  function NewChunk(id: int, docId: int, j: nat, piece: string, es: seq<Vector>): Chunk {
    Chunk(id, docId, j, piece, EmbeddingAt(es, j), |Split(piece)|)
  }

  /** The first `n` chunk records, numbered from the counter value `first`. */
  function NewChunks(first: int, docId: int, pieces: seq<string>, es: seq<Vector>, n: nat): (r: seq<Chunk>)
    requires n <= |pieces|
    ensures |r| == n
    ensures forall j :: 0 <= j < n ==> r[j] == NewChunk(first + j, docId, j, pieces[j], es)
  {
    seq(n, j requires 0 <= j < n => NewChunk(first + j, docId, j, pieces[j], es))
  }

  /** The stored document for the file is unchanged since the listing. */
  predicate UpToDate(st: SyncState, file: DriveFile) {
    var ex := FindDoc(st.documents, file.id);
    ex.Some? && st.documents[ex.value].last_modified == file.modifiedTime
  }

  /** The text the loop body goes on to index: the download's extracted
      text when the download succeeds and the text passes the length test,
      otherwise `None` (the file is skipped). */
  function FetchText(file: DriveFile, env: SyncEnv): (r: Option<string>)
    ensures r.Some? ==> UsableText(r)
  {
    match env.download(file)
    case None => None
    case Some(dl) =>
      var text := ExtractText(dl.content, dl.exportedMimeType, env.decoders);
      if UsableText(text) then text else None
  }

  /** The document step: an existing document is refreshed in place and
      its chunks dropped; otherwise a new document is pushed with the next
      document id. */
  function Recorded(st: SyncState, file: DriveFile, text: string, env: SyncEnv): (r: SyncState)
    requires CountersOk(st)
    ensures CountersOk(r)
  {
    var ex := FindDoc(st.documents, file.id);
    var category := InferCategory(file.name);
    if ex.Some? then
      var d := st.documents[ex.value];
      st.(documents := st.documents[ex.value := Refreshed(d, file, category, text, env)],
          chunks := WithoutDocument(st.chunks, d.id))
    else
      var id := st.nextId[Documents];
      st.(documents := st.documents + [NewDocument(id, file, category, text, env)],
          nextId := st.nextId[Documents := id + 1])
  }

  /** The id of the document the file's chunks belong to. */
  function DocIdFor(st: SyncState, file: DriveFile): int
    requires CountersOk(st)
  {
    var ex := FindDoc(st.documents, file.id);
    if ex.Some? then st.documents[ex.value].id else st.nextId[Documents]
  }

  /** The chunk step: one record per piece, appended with fresh chunk ids. */
  function Attach(st: SyncState, docId: int, pieces: seq<string>, es: seq<Vector>): (r: SyncState)
    requires CountersOk(st)
    ensures CountersOk(r)
  {
    var first := st.nextId[Chunks];
    st.(chunks := st.chunks + NewChunks(first, docId, pieces, es, |pieces|),
        nextId := st.nextId[Chunks := first + |pieces|])
  }

  /** The sync of one file as the loop body does it: the new state and
      whether `processed` was incremented. */
  function SyncFile(st: SyncState, file: DriveFile, env: SyncEnv): (r: (SyncState, bool))
    requires CountersOk(st)
    ensures CountersOk(r.0)
  {
    if UpToDate(st, file) then (st, false)
    else match FetchText(file, env)
      case None => (st, false)
      case Some(text) => Indexed(st, file, text, env)
  }

  /** Indexing a usable text: the document step, then the chunk step when
      the embedding provider answers. */
  function Indexed(st: SyncState, file: DriveFile, text: string, env: SyncEnv): (r: (SyncState, bool))
    requires CountersOk(st)
    ensures CountersOk(r.0)
  {
    var mid := Recorded(st, file, text, env);
    var pieces := ChunkSpec(text, 500, 100);
    match env.embed(pieces)
    case None => (mid, false)
    case Some(es) => (Attach(mid, DocIdFor(st, file), pieces, es), true)
  }

  /** One turn of the loop: sync the file and count it if processed. */
  function Step(prev: (SyncState, nat), file: DriveFile, env: SyncEnv): (r: (SyncState, nat))
    requires CountersOk(prev.0)
    ensures CountersOk(r.0)
  {
    var step := SyncFile(prev.0, file, env);
    (step.0, prev.1 + if step.1 then 1 else 0)
  }

  /** The loop over the listing: the state after the files in order, and
      `processed`. */
  function SyncRun(st: SyncState, files: seq<DriveFile>, env: SyncEnv): (r: (SyncState, nat))
    requires CountersOk(st)
    ensures CountersOk(r.0)
    ensures r.1 <= |files|
    decreases |files|
  {
    if files == [] then (st, 0)
    else Step(SyncRun(st, files[..|files| - 1], env), files[|files| - 1], env)
  }

  /** One more file extends the run by one step. */
  lemma SyncRunStep(st: SyncState, files: seq<DriveFile>, i: nat, env: SyncEnv)
    requires CountersOk(st) && i < |files|
    ensures SyncRun(st, files[..i + 1], env) == Step(SyncRun(st, files[..i], env), files[i], env)
  {
    assert files[..i + 1][..i] == files[..i];
  }

  function StateOf(store: Store): SyncState
    reads store
  {
    SyncState(store.documents, store.chunks, store.nextId)
  }

  lemma {:induction false} FindDocUpdate(docs: seq<Document>, i: nat, d: Document, fid: string)
    requires i < |docs| && d.drive_file_id == docs[i].drive_file_id
    ensures FindDoc(docs[i := d], fid) == FindDoc(docs, fid)
  {
    if docs[0].drive_file_id != fid {
      if i == 0 {
        assert docs[i := d][1..] == docs[1..];
      } else {
        assert docs[i := d][1..] == docs[1..][i - 1 := d];
        FindDocUpdate(docs[1..], i - 1, d, fid);
      }
    }
  }

  lemma {:induction false} FindDocAppend(docs: seq<Document>, d: Document, fid: string)
    ensures FindDoc(docs + [d], fid) ==
      if FindDoc(docs, fid).Some? then FindDoc(docs, fid)
      else if d.drive_file_id == fid then Some(|docs|) else None
  {
    if docs == [] {
      assert [] + [d] == [d];
      assert [d][1..] == [];
    } else if docs[0].drive_file_id != fid {
      assert (docs + [d])[1..] == docs[1..] + [d];
      FindDocAppend(docs[1..], d, fid);
    }
  }

  /** The document step on the store object, returning `docEntry.id`. */
  method RecordDocument(store: Store, file: DriveFile, text: string, env: SyncEnv) returns (docId: int)
    requires store.Valid()
    modifies store`documents, store`chunks, store`nextId
    ensures store.Valid()
    ensures StateOf(store) == Recorded(old(StateOf(store)), file, text, env)
    ensures docId == DocIdFor(old(StateOf(store)), file)
  {
    ghost var st := StateOf(store);
    var ex := FindDoc(store.documents, file.id);
    var category := InferCategory(file.name);
    if ex.Some? {
      var existing := store.documents[ex.value];
      var refreshed := Refreshed(existing, file, category, text, env);
      store.documents := store.documents[ex.value := refreshed];
      store.chunks := WithoutDocument(store.chunks, existing.id);
      FindDocUpdate(st.documents, ex.value, refreshed, file.id);
    } else {
      var id := store.NextId(Documents);
      var created := NewDocument(id, file, category, text, env);
      store.documents := store.documents + [created];
      FindDocAppend(st.documents, created, file.id);
    }
    var entry := FindDoc(store.documents, file.id);
    docId := store.documents[entry.value].id;
  }

  /** The chunk loop on the store object. */
  method PushChunks(store: Store, docId: int, textChunks: seq<string>, embeddings: seq<Vector>)
    requires store.Valid()
    modifies store`chunks, store`nextId
    ensures store.Valid()
    ensures StateOf(store) == Attach(old(StateOf(store)), docId, textChunks, embeddings)
  {
    ghost var base := store.chunks;
    ghost var counters := store.nextId;
    ghost var first := store.nextId[Chunks];
    var j := 0;
    while j < |textChunks|
      invariant 0 <= j <= |textChunks|
      invariant store.Valid()
      invariant store.chunks == base + NewChunks(first, docId, textChunks, embeddings, j)
      invariant store.nextId == counters[Chunks := first + j]
    {
      var id := store.NextId(Chunks);
      store.chunks := store.chunks
        + [Chunk(id, docId, j, textChunks[j], EmbeddingAt(embeddings, j), |Split(textChunks[j])|)];
      assert NewChunks(first, docId, textChunks, embeddings, j + 1)
        == NewChunks(first, docId, textChunks, embeddings, j)
          + [NewChunk(first + j, docId, j, textChunks[j], embeddings)];
      j := j + 1;
    }
  }

  /** The body of the per-file `try` block, on the store object. */
  method ProcessFile(store: Store, file: DriveFile, env: SyncEnv) returns (processed: bool)
    requires store.Valid()
    modifies store`documents, store`chunks, store`nextId
    ensures store.Valid()
    ensures StateOf(store) == SyncFile(old(StateOf(store)), file, env).0
    ensures processed == SyncFile(old(StateOf(store)), file, env).1
  {
    ghost var st := StateOf(store);
    var ex := FindDoc(store.documents, file.id);
    if ex.Some? && store.documents[ex.value].last_modified == file.modifiedTime {
      assert UpToDate(st, file);
      return false;
    }
    assert !UpToDate(st, file);
    var dl := env.download(file);
    if dl.None? {
      assert FetchText(file, env).None?;
      return false;
    }
    var text := ExtractText(dl.value.content, dl.value.exportedMimeType, env.decoders);
    if text.None? || text.value == [] || |Trim(text.value)| < 10 {
      assert FetchText(file, env).None?;
      return false;
    }
    assert FetchText(file, env) == text;
    processed := IndexText(store, file, text.value, env);
  }

  /** The rest of the loop body once the text is usable: record the
      document, chunk the text, embed the chunks and push them. */
  method IndexText(store: Store, file: DriveFile, text: string, env: SyncEnv) returns (processed: bool)
    requires store.Valid()
    modifies store`documents, store`chunks, store`nextId
    ensures store.Valid()
    ensures StateOf(store) == Indexed(old(StateOf(store)), file, text, env).0
    ensures processed == Indexed(old(StateOf(store)), file, text, env).1
  {
    ghost var st := StateOf(store);
    var docId := RecordDocument(store, file, text, env);
    ghost var mid := StateOf(store);
    var textChunks := ChunkText(text, 500, 100);
    var embeddings := env.embed(textChunks);
    if embeddings.None? {
      return false;
    }
    PushChunks(store, docId, textChunks, embeddings.value);
    processed := true;
  }

  /** `handleSync`: the loop over the listing, then the save and the
      response. A listing that throws answers with status 500 and leaves
      the store as it was. */
  method HandleSync(store: Store, listing: Option<seq<DriveFile>>, env: SyncEnv) returns (r: SyncResponse)
    requires store.Valid()
    modifies store`documents, store`chunks, store`nextId
    ensures store.Valid()
    ensures listing.None? ==> r == ListingFailed && StateOf(store) == old(StateOf(store))
    ensures listing.Some? ==>
      && StateOf(store) == SyncRun(old(StateOf(store)), listing.value, env).0
      && r == Synced(|listing.value|, SyncRun(old(StateOf(store)), listing.value, env).1)
  {
    if listing.None? {
      return ListingFailed;
    }
    var files := listing.value;
    ghost var st0 := StateOf(store);
    var processed := 0;
    var i := 0;
    while i < |files|
      invariant 0 <= i <= |files|
      invariant store.Valid()
      invariant (StateOf(store), processed) == SyncRun(st0, files[..i], env)
    {
      SyncRunStep(st0, files, i, env);
      var p := ProcessFile(store, files[i], env);
      if p {
        processed := processed + 1;
      }
      i := i + 1;
    }
    assert files[..i] == files;
    r := Synced(|files|, processed);
  }

  // ---------------------------------------------------------------------------
  // Properties of the sync

  /** No two documents come from the same Drive file. */
  predicate DistinctDriveIds(docs: seq<Document>) {
    forall i, j :: 0 <= i < j < |docs| ==> docs[i].drive_file_id != docs[j].drive_file_id
  }

  /** A file whose stored document carries the listed `modifiedTime` is
      skipped before anything is downloaded: the result does not depend on
      the outside world at all. */
  lemma UnchangedFileSkipped(st: SyncState, file: DriveFile, env: SyncEnv)
    requires CountersOk(st) && UpToDate(st, file)
    ensures SyncFile(st, file, env) == (st, false)
  {
  }

  /** A sync over files that are all up to date changes nothing and
      processes nothing, whatever the downloads or the provider would do. */
  lemma {:induction false} UpToDateRunIsNoop(st: SyncState, files: seq<DriveFile>, env: SyncEnv)
    requires CountersOk(st)
    requires forall k :: 0 <= k < |files| ==> UpToDate(st, files[k])
    ensures SyncRun(st, files, env) == (st, 0)
    decreases |files|
  {
    if files != [] {
      var init := files[..|files| - 1];
      assert forall k :: 0 <= k < |init| ==> init[k] == files[k];
      UpToDateRunIsNoop(st, init, env);
      UnchangedFileSkipped(st, files[|files| - 1], env);
    }
  }

  lemma RecordedKeepsDistinct(st: SyncState, file: DriveFile, text: string, env: SyncEnv)
    requires CountersOk(st) && DistinctDriveIds(st.documents)
    ensures DistinctDriveIds(Recorded(st, file, text, env).documents)
  {
    var r := Recorded(st, file, text, env);
    if FindDoc(st.documents, file.id).None? {
      forall i, j | 0 <= i < j < |r.documents|
        ensures r.documents[i].drive_file_id != r.documents[j].drive_file_id
      {
        assert r.documents[i] == st.documents[i];
        if j < |st.documents| {
          assert r.documents[j] == st.documents[j];
        }
      }
    }
  }

  /** Sync never creates a second document for a Drive file: it pushes a
      document only when the lookup by `drive_file_id` fails. */
  lemma SyncFileKeepsDistinct(st: SyncState, file: DriveFile, env: SyncEnv)
    requires CountersOk(st) && DistinctDriveIds(st.documents)
    ensures DistinctDriveIds(SyncFile(st, file, env).0.documents)
  {
    if !UpToDate(st, file) && FetchText(file, env).Some? {
      RecordedKeepsDistinct(st, file, FetchText(file, env).value, env);
    }
  }

  lemma {:induction false} SyncRunKeepsDistinct(st: SyncState, files: seq<DriveFile>, env: SyncEnv)
    requires CountersOk(st) && DistinctDriveIds(st.documents)
    ensures DistinctDriveIds(SyncRun(st, files, env).0.documents)
    decreases |files|
  {
    if files != [] {
      SyncRunKeepsDistinct(st, files[..|files| - 1], env);
      SyncFileKeepsDistinct(SyncRun(st, files[..|files| - 1], env).0, files[|files| - 1], env);
    }
  }

  /** A changed file that already has a document is updated in place: the
      same position, `id` and `created_at`, the new text and
      `last_modified`, and every other document as it was. */
  lemma ReprocessedInPlace(st: SyncState, file: DriveFile, env: SyncEnv)
    requires CountersOk(st)
    requires FindDoc(st.documents, file.id).Some? && !UpToDate(st, file)
    requires FetchText(file, env).Some?
    ensures var i := FindDoc(st.documents, file.id).value;
      var r := SyncFile(st, file, env).0;
      && |r.documents| == |st.documents|
      && r.documents[i].id == st.documents[i].id
      && r.documents[i].created_at == st.documents[i].created_at
      && r.documents[i].drive_file_id == file.id
      && r.documents[i].last_modified == file.modifiedTime
      && r.documents[i].content_text == FetchText(file, env).value
      && (forall k :: 0 <= k < |r.documents| && k != i ==> r.documents[k] == st.documents[k])
  {
  }

  lemma ChunksForAppend(a: seq<Chunk>, b: seq<Chunk>, id: int)
    ensures ChunksFor(a + b, id) == ChunksFor(a, id) + ChunksFor(b, id)
  {
    if a == [] {
      assert a + b == b;
    } else {
      assert (a + b)[1..] == a[1..] + b;
      ChunksForAppend(a[1..], b, id);
    }
  }

  lemma {:induction false} ChunksForNone(cs: seq<Chunk>, id: int)
    requires forall c :: c in cs ==> c.document_id != id
    ensures ChunksFor(cs, id) == []
  {
    if cs != [] {
      assert cs[0] in cs;
      ChunksForNone(cs[1..], id);
    }
  }

  /** A list of the document's own chunks is its own selection. */
  lemma {:induction false} ChunksForOwn(cs: seq<Chunk>, id: int)
    requires forall j :: 0 <= j < |cs| ==> cs[j].document_id == id
    ensures ChunksFor(cs, id) == cs
  {
    if cs != [] {
      ChunksForOwn(cs[1..], id);
      assert [cs[0]] + cs[1..] == cs;
    }
  }

  /** Reprocessing a document replaces its chunks: afterwards the chunks of
      that document are exactly the pieces of its new text, numbered
      `chunk_index` 0, 1, ... in order, with fresh ids from the counter. */
  lemma ReprocessedChunks(st: SyncState, file: DriveFile, env: SyncEnv)
    requires CountersOk(st)
    requires FindDoc(st.documents, file.id).Some?
    requires SyncFile(st, file, env).1
    ensures var d := st.documents[FindDoc(st.documents, file.id).value];
      var r := SyncFile(st, file, env).0;
      var pieces := ChunkSpec(FetchText(file, env).value, 500, 100);
      && |ChunksFor(r.chunks, d.id)| == |pieces|
      && (forall j :: 0 <= j < |pieces| ==>
            && ChunksFor(r.chunks, d.id)[j].chunk_index == j
            && ChunksFor(r.chunks, d.id)[j].content == pieces[j]
            && ChunksFor(r.chunks, d.id)[j].id == st.nextId[Chunks] + j)
      && r.nextId[Chunks] == st.nextId[Chunks] + |pieces|
  {
    var d := st.documents[FindDoc(st.documents, file.id).value];
    var text := FetchText(file, env).value;
    var pieces := ChunkSpec(text, 500, 100);
    var es := env.embed(pieces).value;
    ReplacedChunks(st.chunks, d.id, st.nextId[Chunks], pieces, es);
  }

  /** Dropping a document's chunks and appending new records for it leaves
      exactly the new records as its chunks. */
  lemma ReplacedChunks(cs: seq<Chunk>, docId: int, first: int, pieces: seq<string>, es: seq<Vector>)
    ensures var added := NewChunks(first, docId, pieces, es, |pieces|);
      ChunksFor(WithoutDocument(cs, docId) + added, docId) == added
  {
    var added := NewChunks(first, docId, pieces, es, |pieces|);
    ChunksForAppend(WithoutDocument(cs, docId), added, docId);
    ChunksForNone(WithoutDocument(cs, docId), docId);
    ChunksForOwn(added, docId);
  }

  /** The sync is not atomic. When the embedding provider throws for a
      changed document, the document has already been rewritten with the
      new `modifiedTime` and its old chunks dropped: it is left without any
      chunk, `processed` does not count it, and the next sync skips it as
      up to date, so it stays without chunks. */
  lemma EmbedFailureStrandsDocument(st: SyncState, file: DriveFile, env: SyncEnv, later: SyncEnv)
    requires CountersOk(st)
    requires FindDoc(st.documents, file.id).Some? && !UpToDate(st, file)
    requires FetchText(file, env).Some?
    requires env.embed(ChunkSpec(FetchText(file, env).value, 500, 100)).None?
    ensures var d := st.documents[FindDoc(st.documents, file.id).value];
      var r := SyncFile(st, file, env);
      && !r.1
      && r.0.documents != st.documents
      && ChunksFor(r.0.chunks, d.id) == []
      && UpToDate(r.0, file)
      && SyncFile(r.0, file, later) == (r.0, false)
  {
    var i := FindDoc(st.documents, file.id).value;
    var d := st.documents[i];
    ChunksForNone(WithoutDocument(st.chunks, d.id), d.id);
    var r := SyncFile(st, file, env).0;
    FindDocUpdate(st.documents, i, r.documents[i], file.id);
    assert r.documents[i].last_modified != st.documents[i].last_modified;
  }

  /** The same for a file seen for the first time: the new document has
      been pushed with the new `modifiedTime` but gets no chunk, and every
      later sync skips it. */
  lemma EmbedFailureStrandsNewDocument(st: SyncState, file: DriveFile, env: SyncEnv, later: SyncEnv)
    requires CountersOk(st)
    requires FindDoc(st.documents, file.id).None?
    requires forall c :: c in st.chunks ==> c.document_id != st.nextId[Documents]
    requires FetchText(file, env).Some?
    requires env.embed(ChunkSpec(FetchText(file, env).value, 500, 100)).None?
    ensures var r := SyncFile(st, file, env);
      && !r.1
      && |r.0.documents| == |st.documents| + 1
      && r.0.documents[|st.documents|].drive_file_id == file.id
      && ChunksFor(r.0.chunks, r.0.documents[|st.documents|].id) == []
      && UpToDate(r.0, file)
      && SyncFile(r.0, file, later) == (r.0, false)
  {
    var r := SyncFile(st, file, env).0;
    FindDocAppend(st.documents, r.documents[|st.documents|], file.id);
    ChunksForNone(st.chunks, st.nextId[Documents]);
  }

  /** Only the document step touches the documents. */
  lemma SyncFileDocuments(st: SyncState, file: DriveFile, env: SyncEnv)
    requires CountersOk(st)
    ensures SyncFile(st, file, env).0.documents ==
      if !UpToDate(st, file) && FetchText(file, env).Some?
      then Recorded(st, file, FetchText(file, env).value, env).documents
      else st.documents
  {
  }

  lemma RecordedUpToDate(st: SyncState, file: DriveFile, text: string, env: SyncEnv)
    requires CountersOk(st)
    ensures UpToDate(Recorded(st, file, text, env), file)
  {
    var r := Recorded(st, file, text, env);
    var ex := FindDoc(st.documents, file.id);
    if ex.Some? {
      FindDocUpdate(st.documents, ex.value, r.documents[ex.value], file.id);
    } else {
      FindDocAppend(st.documents, r.documents[|st.documents|], file.id);
    }
  }

  lemma RecordedKeepsOthers(st: SyncState, file: DriveFile, text: string, env: SyncEnv, other: DriveFile)
    requires CountersOk(st) && other.id != file.id
    ensures FindDoc(Recorded(st, file, text, env).documents, other.id) == FindDoc(st.documents, other.id)
    ensures UpToDate(Recorded(st, file, text, env), other) == UpToDate(st, other)
  {
    var r := Recorded(st, file, text, env);
    var ex := FindDoc(st.documents, file.id);
    if ex.Some? {
      FindDocUpdate(st.documents, ex.value, r.documents[ex.value], other.id);
    } else {
      FindDocAppend(st.documents, r.documents[|st.documents|], other.id);
    }
  }

  /** A file whose text was usable is up to date after its sync, whether
      or not the embedding succeeded. */
  lemma UsableFileBecomesUpToDate(st: SyncState, file: DriveFile, env: SyncEnv)
    requires CountersOk(st) && !UpToDate(st, file)
    requires FetchText(file, env).Some?
    ensures UpToDate(SyncFile(st, file, env).0, file)
  {
    SyncFileDocuments(st, file, env);
    RecordedUpToDate(st, file, FetchText(file, env).value, env);
  }

  /** Syncing one file leaves whether any other file has a document, and
      whether it is up to date, as it was. */
  lemma OtherFilesUnaffected(st: SyncState, file: DriveFile, other: DriveFile, env: SyncEnv)
    requires CountersOk(st) && other.id != file.id
    ensures FindDoc(SyncFile(st, file, env).0.documents, other.id) == FindDoc(st.documents, other.id)
    ensures UpToDate(SyncFile(st, file, env).0, other) == UpToDate(st, other)
  {
    SyncFileDocuments(st, file, env);
    if !UpToDate(st, file) && FetchText(file, env).Some? {
      RecordedKeepsOthers(st, file, FetchText(file, env).value, env, other);
    }
  }
}
