/**
  The chunking pipeline (`chunk_documents` in chunks.py): every document is cut
  into sections, a section of more than `MaxSectionTokens` whitespace-separated
  words is handed to the semantic splitter, and every resulting chunk is stamped
  with the next `chunk_id`, counting from zero across all documents.

  The semantic splitter wraps a library text splitter whose behaviour is not
  part of this model: it is the parameter `split`, and nothing is assumed about
  what it returns.
*/
module Chunking {
  import opened Text
  import opened Docs
  import opened Sections
  import opened Seqs

  /** Word-count threshold above which a section is split again. */
  const MaxSectionTokens: nat := 400

  /** A section longer than the threshold (counted in `str.split()` words). */
  predicate IsLong(section: Document) {
    |Words(section.content)| > MaxSectionTokens
  }

  /** The chunks one section contributes before numbering. */
  function Route(section: Document, split: Document -> seq<Document>): (sub: seq<Document>)
    ensures !IsLong(section) ==> sub == [section]
    ensures IsLong(section) ==> sub == split(section)
  {
    if IsLong(section) then split(section) else [section]
  }

  /** The chunks of a list of sections, in order, before numbering. */
  function SectionPieces(sections: seq<Document>, split: Document -> seq<Document>): seq<Document>
    decreases |sections|
  {
    if |sections| == 0 then []
    else SectionPieces(sections[..|sections| - 1], split) + Route(sections[|sections| - 1], split)
  }

  /** The chunks of a list of documents, in order, before numbering. */
  function DocumentPieces(docs: seq<Document>, split: Document -> seq<Document>): seq<Document>
    decreases |docs|
  {
    if |docs| == 0 then []
    else DocumentPieces(docs[..|docs| - 1], split) + SectionPieces(SplitBySections(docs[|docs| - 1]), split)
  }

  /** A chunk with its `chunk_id` set; every other metadata entry is kept. */
  function WithChunkId(c: Document, id: nat): (r: Document)
    ensures r.content == c.content
    ensures ChunkIdKey in r.metadata && r.metadata[ChunkIdKey] == Int(id)
    ensures forall key :: key in c.metadata && key != ChunkIdKey ==> key in r.metadata && r.metadata[key] == c.metadata[key]
    ensures r.metadata.Keys == c.metadata.Keys + {ChunkIdKey}
  {
    Document(c.content, c.metadata[ChunkIdKey := Int(id)])
  }

  /** `chunks` is `pieces`, the i-th one numbered i. */
  ghost predicate NumberedFrom(chunks: seq<Document>, pieces: seq<Document>) {
    |chunks| == |pieces| && forall i :: 0 <= i < |chunks| ==> chunks[i] == WithChunkId(pieces[i], i)
  }

  /** `chunk_documents`: the loop of chunks.py with its running `chunk_id`. The result is
      the sequence of all section pieces, in production order, the i-th one carrying
      `chunk_id` i and otherwise its own content and metadata. */
  method ChunkDocuments(docs: seq<Document>, split: Document -> seq<Document>) returns (chunks: seq<Document>)
    ensures |chunks| == |DocumentPieces(docs, split)|
    ensures forall i :: 0 <= i < |chunks| ==> chunks[i] == WithChunkId(DocumentPieces(docs, split)[i], i)
  {
    chunks := [];
    var chunkId := 0;
    ghost var done: seq<Document> := [];
    for d := 0 to |docs|
      invariant done == DocumentPieces(docs[..d], split)
      invariant chunkId == |chunks|
      invariant NumberedFrom(chunks, done)
    {
      var sections := SplitBySections(docs[d]);
      ghost var before := done;
      for j := 0 to |sections|
        invariant done == before + SectionPieces(sections[..j], split)
        invariant chunkId == |chunks|
        invariant NumberedFrom(chunks, done)
      {
        var sub := Route(sections[j], split);
        ghost var start := done;
        for m := 0 to |sub|
          invariant done == start + sub[..m]
          invariant chunkId == |chunks|
          invariant NumberedFrom(chunks, done)
        {
          AppendNumbered(chunks, done, sub[m]);
          chunks := chunks + [WithChunkId(sub[m], chunkId)];
          done := done + [sub[m]];
          chunkId := chunkId + 1;
          TakeNext(sub, m);
          AppendAssoc(start, sub[..m], [sub[m]]);
        }
        assert sub[..|sub|] == sub;
        SectionPiecesStep(sections, j, split);
        AppendAssoc(before, SectionPieces(sections[..j], split), sub);
      }
      assert sections[..|sections|] == sections;
      DocumentPiecesStep(docs, d, split);
    }
    assert docs[..|docs|] == docs;
  }

  lemma AppendNumbered(chunks: seq<Document>, done: seq<Document>, c: Document)
    requires NumberedFrom(chunks, done)
    ensures NumberedFrom(chunks + [WithChunkId(c, |done|)], done + [c])
  {
  }

  lemma SectionPiecesStep(sections: seq<Document>, j: nat, split: Document -> seq<Document>)
    requires j < |sections|
    ensures SectionPieces(sections[..j + 1], split) == SectionPieces(sections[..j], split) + Route(sections[j], split)
  {
    assert sections[..j + 1][..j] == sections[..j];
  }

  lemma DocumentPiecesStep(docs: seq<Document>, d: nat, split: Document -> seq<Document>)
    requires d < |docs|
    ensures DocumentPieces(docs[..d + 1], split) == DocumentPieces(docs[..d], split) + SectionPieces(SplitBySections(docs[d]), split)
  {
    assert docs[..d + 1][..d] == docs[..d];
  }

  /** The sections of all documents, in order, without routing. */
  function AllSections(docs: seq<Document>): seq<Document>
    decreases |docs|
  {
    if |docs| == 0 then [] else AllSections(docs[..|docs| - 1]) + SplitBySections(docs[|docs| - 1])
  }

  /** When no section is long, the splitter is never consulted: each section becomes
      exactly one chunk with its content unchanged. */
  lemma {:induction false} ShortSectionsKept(docs: seq<Document>, split: Document -> seq<Document>)
    requires forall i :: 0 <= i < |AllSections(docs)| ==> !IsLong(AllSections(docs)[i])
    ensures DocumentPieces(docs, split) == AllSections(docs)
    decreases |docs|
  {
    if |docs| > 0 {
      var front := docs[..|docs| - 1];
      var last := SplitBySections(docs[|docs| - 1]);
      assert AllSections(docs) == AllSections(front) + last;
      ShortPrefixAndLast(AllSections(front), last);
      ShortSectionsKept(front, split);
      ShortSectionPiecesKept(last, split);
    }
  }

  lemma ShortPrefixAndLast(a: seq<Document>, b: seq<Document>)
    requires forall i :: 0 <= i < |a + b| ==> !IsLong((a + b)[i])
    ensures forall i :: 0 <= i < |a| ==> !IsLong(a[i])
    ensures forall i :: 0 <= i < |b| ==> !IsLong(b[i])
  {
    assert forall i :: 0 <= i < |a| ==> a[i] == (a + b)[i];
    assert forall i :: 0 <= i < |b| ==> b[i] == (a + b)[|a| + i];
  }

  lemma {:induction false} ShortSectionPiecesKept(sections: seq<Document>, split: Document -> seq<Document>)
    requires forall i :: 0 <= i < |sections| ==> !IsLong(sections[i])
    ensures SectionPieces(sections, split) == sections
    decreases |sections|
  {
    if |sections| > 0 {
      var n := |sections| - 1;
      var front := sections[..n];
      assert forall i :: 0 <= i < |front| ==> front[i] == sections[i];
      ShortSectionPiecesKept(front, split);
      assert Route(sections[n], split) == [sections[n]];
      FrontAndLast(sections);
    }
  }
}
