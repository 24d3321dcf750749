/**
  The document record every stage passes along: a text plus a metadata
  dictionary, as in LangChain's `Document(page_content, metadata)`, and the
  metadata keys the pipeline reads or writes.
*/
module Docs {

  /** A metadata value as it appears in the chunk collection: a string, an integer
      (`chunk_id`, `total_pages`) or JSON `null` / Python `None`. */
  datatype Value = Str(s: string) | Int(i: int) | Null

  type Metadata = map<string, Value>

  datatype Document = Document(content: string, metadata: Metadata)

  const SectionKey: string := "section"
  const SourceKey: string := "source"
  const ChunkIdKey: string := "chunk_id"
  const DocumentIdKey: string := "document_id"
  const DomainKey: string := "domain"
  const LanguageKey: string := "language"

  /** Python's `metadata.get(key)`: the value, or `None` when the key is absent. */
  function Get(m: Metadata, key: string): (v: Value)
    ensures key !in m ==> v == Null
    ensures key in m ==> v == m[key]
  {
    if key in m then m[key] else Null
  }
}
