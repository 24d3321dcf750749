/**
  The indexing side (embeddings.py): loading the chunk records written by the
  chunking stage, dropping the records of non-informative sections, and
  (re)building the persisted vector collection.

  The JSON file is modelled after parsing, as a list of records with a
  `chunk_id`, a `content` and a metadata map. The embedding model is the
  parameter `embed`, and the creation timestamp (taken from the clock when the
  module is loaded) is the parameter `createdAt`.
*/
module Index {
  import opened Options
  import opened Text
  import opened Seqs
  import opened Docs

  /** Markers of the sections that carry no medical content. */
  const ExcludedSections: seq<string> := ["DOCUMENT TITLE", "DOCUMENT SCOPE"]

  /** One item of the chunk file: `{"chunk_id": ..., "content": ..., "metadata": {...}}`. */
  datatype ChunkRecord = ChunkRecord(chunkId: Value, content: string, metadata: Metadata)

  /** `item["metadata"].get("section", "")` when `.upper()` can be applied to it: the
      title, the empty string when the key is missing, and `None` for a non-text value
      (on which Python raises and the whole load fails). */
  function SectionText(m: Metadata): (r: Option<string>)
    ensures SectionKey !in m ==> r == Some("")
    ensures SectionKey in m && m[SectionKey].Str? ==> r == Some(m[SectionKey].s)
    ensures r.None? <==> SectionKey in m && !m[SectionKey].Str?
  {
    if SectionKey !in m then Some("")
    else if m[SectionKey].Str? then Some(m[SectionKey].s)
    else None
  }

  /** `any(x in section for x in EXCLUDED_SECTIONS)` on the upper-cased title. */
  predicate IsExcluded(upper: string) {
    exists i :: 0 <= i < |ExcludedSections| && Contains(upper, ExcludedSections[i])
  }

  /** A record whose (text) section title names no excluded section in any letter case. */
  predicate Informative(r: ChunkRecord) {
    match SectionText(r.metadata)
    case Some(t) => !IsExcluded(Upper(t))
    case None => false
  }

  /** Every record has a section the loader can upper-case. */
  predicate Loadable(records: seq<ChunkRecord>) {
    forall i :: 0 <= i < |records| ==> SectionText(records[i].metadata).Some?
  }

  /** The records the loader keeps, in their original order. */
  function KeepInformative(records: seq<ChunkRecord>): seq<ChunkRecord> {
    Filter(records, Informative)
  }

  const CopiedKeys: set<string> := {DocumentIdKey, SourceKey, SectionKey, DomainKey, LanguageKey}

  /** The document built for a kept record: its content, its `chunk_id`, and five
      metadata entries copied with `.get` (so a missing entry becomes `None`). */
  function ToDocument(r: ChunkRecord): (d: Document)
    ensures d.content == r.content
    ensures d.metadata.Keys == CopiedKeys + {ChunkIdKey}
    ensures d.metadata[ChunkIdKey] == r.chunkId
    ensures forall k :: k in CopiedKeys ==> d.metadata[k] == Get(r.metadata, k)
  {
    Document(r.content, map[
      ChunkIdKey := r.chunkId,
      DocumentIdKey := Get(r.metadata, DocumentIdKey),
      SourceKey := Get(r.metadata, SourceKey),
      SectionKey := Get(r.metadata, SectionKey),
      DomainKey := Get(r.metadata, DomainKey),
      LanguageKey := Get(r.metadata, LanguageKey)])
  }

  function ToDocuments(records: seq<ChunkRecord>): (ds: seq<Document>)
    ensures |ds| == |records|
    ensures forall i :: 0 <= i < |ds| ==> ds[i] == ToDocument(records[i])
  {
    seq(|records|, i requires 0 <= i < |records| => ToDocument(records[i]))
  }

  /** `load_chunks_from_json` after parsing: `None` when some record's section cannot be
      upper-cased; otherwise one document per informative record, in order. */
  function LoadChunks(records: seq<ChunkRecord>): (r: Option<seq<Document>>)
    ensures r.None? <==> !Loadable(records)
    ensures r.Some? ==> |r.value| <= |records|
  {
    if Loadable(records) then Some(ToDocuments(KeepInformative(records))) else None
  }

  /** The loader as the loop of embeddings.py: walk the records, stop with an error at
      the first section that cannot be upper-cased, skip excluded sections. */
  method LoadChunksLoop(records: seq<ChunkRecord>) returns (r: Option<seq<Document>>)
    ensures r == LoadChunks(records)
  {
    var documents: seq<Document> := [];
    for n := 0 to |records|
      invariant Loadable(records[..n])
      invariant documents == ToDocuments(KeepInformative(records[..n]))
    {
      var section := SectionText(records[n].metadata);
      if section.None? {
        NotLoadable(records, n);
        return None;
      }
      LoadStep(records, n);
      if !IsExcluded(Upper(section.value)) {
        documents := documents + [ToDocument(records[n])];
      }
    }
    assert records[..|records|] == records;
    return Some(documents);
  }

  /** One more record: it is checked, and appended when informative. */
  lemma LoadStep(records: seq<ChunkRecord>, n: nat)
    requires n < |records| && Loadable(records[..n]) && SectionText(records[n].metadata).Some?
    ensures Loadable(records[..n + 1])
    ensures Informative(records[n]) <==> !IsExcluded(Upper(SectionText(records[n].metadata).value))
    ensures ToDocuments(KeepInformative(records[..n + 1])) ==
      ToDocuments(KeepInformative(records[..n])) + (if Informative(records[n]) then [ToDocument(records[n])] else [])
  {
    LoadableStep(records, n);
    KeepInformativeStep(records, n);
    ToDocumentsAppend(KeepInformative(records[..n]), if Informative(records[n]) then [records[n]] else []);
  }

  lemma LoadableStep(records: seq<ChunkRecord>, n: nat)
    requires n < |records| && Loadable(records[..n]) && SectionText(records[n].metadata).Some?
    ensures Loadable(records[..n + 1])
  {
    var a, b := records[..n], records[..n + 1];
    forall i | 0 <= i < |b| ensures SectionText(b[i].metadata).Some? {
      if i < n { assert b[i] == a[i]; }
    }
  }

  lemma ToDocumentsAppend(a: seq<ChunkRecord>, b: seq<ChunkRecord>)
    ensures ToDocuments(a + b) == ToDocuments(a) + ToDocuments(b)
  {
  }

  lemma NotLoadable(records: seq<ChunkRecord>, n: nat)
    requires n < |records| && SectionText(records[n].metadata).None?
    ensures LoadChunks(records) == None
  {
  }

  lemma KeepInformativeStep(records: seq<ChunkRecord>, n: nat)
    requires n < |records|
    ensures KeepInformative(records[..n + 1]) ==
      KeepInformative(records[..n]) + (if Informative(records[n]) then [records[n]] else [])
  {
    FilterPrefixStep(records, n, Informative);
  }

  // ---------------------------------------------------------------------------
  // Properties of the section filter
  // ---------------------------------------------------------------------------

  /** No loaded document belongs to an excluded section: its `section` entry is either
      `None` (no title at all) or a title whose upper-cased form names no excluded
      section. */
  lemma LoadedSectionsInformative(records: seq<ChunkRecord>)
    requires Loadable(records)
    ensures LoadChunks(records).Some?
    ensures var docs := LoadChunks(records).value;
      forall i :: 0 <= i < |docs| ==>
        (docs[i].metadata[SectionKey] == Null || (docs[i].metadata[SectionKey].Str? && !IsExcluded(Upper(docs[i].metadata[SectionKey].s))))
  {
    var kept := KeepInformative(records);
    var docs := ToDocuments(kept);
    forall i | 0 <= i < |docs|
      ensures docs[i].metadata[SectionKey] == Null || (docs[i].metadata[SectionKey].Str? && !IsExcluded(Upper(docs[i].metadata[SectionKey].s)))
    {
      assert Informative(kept[i]);
      assert docs[i].metadata[SectionKey] == Get(kept[i].metadata, SectionKey);
    }
  }

  /** The loaded documents are the kept records, in input order, each with its content
      and `chunk_id` copied verbatim. */
  lemma LoadedFromRecords(records: seq<ChunkRecord>)
    requires Loadable(records)
    ensures var kept := KeepInformative(records);
      && IsSubseq(kept, records)
      && LoadChunks(records) == Some(ToDocuments(kept))
      && (forall i :: 0 <= i < |kept| ==>
            ToDocuments(kept)[i].content == kept[i].content
            && ToDocuments(kept)[i].metadata[ChunkIdKey] == kept[i].chunkId)
  {
  }

  /** A record without a `section` entry is kept: its default title "" names no excluded
      section. */
  lemma MissingSectionKept(r: ChunkRecord)
    requires SectionKey !in r.metadata
    ensures Informative(r)
  {
    assert Upper("") == "";
    forall i | 0 <= i < |ExcludedSections| ensures !Contains("", ExcludedSections[i]) {
      assert |ExcludedSections[i]| > 0;
    }
  }

  /** The filter ignores letter case: a record is kept exactly when its copy with the
      section title lower-cased (or upper-cased) is kept. */
  lemma InformativeIgnoresCase(r: ChunkRecord, t: string)
    requires SectionKey in r.metadata && r.metadata[SectionKey].Str?
    ensures var s := r.metadata[SectionKey].s;
      && Informative(r) == Informative(r.(metadata := r.metadata[SectionKey := Str(Lower(s))]))
      && Informative(r) == Informative(r.(metadata := r.metadata[SectionKey := Str(Upper(s))]))
  {
    var s := r.metadata[SectionKey].s;
    UpperOfLower(s);
    UpperOfUpper(s);
  }

  lemma UpperOfLower(s: string)
    ensures Upper(Lower(s)) == Upper(s)
  {
  }

  lemma UpperOfUpper(s: string)
    ensures Upper(Upper(s)) == Upper(s)
  {
  }

  /** Filtering twice keeps the same records as filtering once. */
  lemma KeepInformativeIdempotent(records: seq<ChunkRecord>)
    ensures KeepInformative(KeepInformative(records)) == KeepInformative(records)
  {
    FilterIdempotent(records, Informative);
  }

  // ---------------------------------------------------------------------------
  // The persisted vector collection
  // ---------------------------------------------------------------------------

  const CollectionName: string := "breast_cancer_docs"
  const DistanceSpace: string := "cosine"
  const Version: string := "3.0-medical-json"

  datatype Entry = Entry(doc: Document, embedding: seq<real>)

  /** A persisted collection with its metadata (`hnsw:space`, `version`, `created_at`). */
  datatype Collection = Collection(name: string, space: string, version: string, createdAt: string, entries: seq<Entry>)

  /** `Chroma.from_documents` into a fresh directory: one entry per chunk, in order. */
  function Build(chunks: seq<Document>, embed: string -> seq<real>, createdAt: string): (c: Collection)
    ensures c.name == CollectionName && c.space == DistanceSpace && c.version == Version && c.createdAt == createdAt
    ensures |c.entries| == |chunks|
    ensures forall i :: 0 <= i < |chunks| ==> c.entries[i] == Entry(chunks[i], embed(chunks[i].content))
  {
    Collection(CollectionName, DistanceSpace, Version, createdAt,
      seq(|chunks|, i requires 0 <= i < |chunks| => Entry(chunks[i], embed(chunks[i].content))))
  }

  /** `create_vector_store`: the persisted collection afterwards and the returned one.
      An empty chunk list is refused before the old directory is removed; otherwise
      the old collection is deleted and a new one built from the chunks alone. */
  function CreateVectorStore(persisted: Option<Collection>, chunks: seq<Document>, embed: string -> seq<real>, createdAt: string)
    : (r: (Option<Collection>, Option<Collection>))
    ensures |chunks| == 0 ==> r.0 == persisted && r.1 == None
    ensures |chunks| > 0 ==> r.1.Some? && r.0 == r.1
    ensures |chunks| > 0 ==> (|r.1.value.entries| == |chunks|
      && forall i :: 0 <= i < |chunks| ==> r.1.value.entries[i].doc == chunks[i])
  {
    if |chunks| == 0 then (persisted, None)
    else
      var c := Build(chunks, embed, createdAt);
      (Some(c), Some(c))
  }

  /** A rebuild does not depend on what was persisted before: nothing of the old
      collection survives. */
  lemma RebuildForgetsOld(p1: Option<Collection>, p2: Option<Collection>, chunks: seq<Document>, embed: string -> seq<real>, createdAt: string)
    requires |chunks| > 0
    ensures CreateVectorStore(p1, chunks, embed, createdAt) == CreateVectorStore(p2, chunks, embed, createdAt)
  {
  }

  /** Every entry of a rebuilt collection is one of the new chunks, so old entries are
      not kept alongside them. */
  lemma RebuildHoldsOnlyNewChunks(persisted: Option<Collection>, chunks: seq<Document>, embed: string -> seq<real>, createdAt: string)
    requires |chunks| > 0
    ensures var c := CreateVectorStore(persisted, chunks, embed, createdAt).0.value;
      forall e :: e in c.entries ==> e.doc in chunks
  {
  }

  /** Rebuilding twice from the same chunks leaves the same collection as rebuilding once. */
  lemma RebuildIdempotent(persisted: Option<Collection>, chunks: seq<Document>, embed: string -> seq<real>, createdAt: string)
    ensures var once := CreateVectorStore(persisted, chunks, embed, createdAt).0;
      CreateVectorStore(once, chunks, embed, createdAt).0 == once
  {
  }
}
