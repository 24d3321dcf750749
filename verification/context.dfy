/**
  Building the prompt context and the source list from the retrieved chunks:
  the loop shared by `rag_pipeline` (rag_chatbot.py) and `rag_query` (app.py).
  Each chunk becomes a numbered part `[Source i: <source>]` followed by at most
  `MaxCharsPerDoc` characters of its text; the parts are joined with a
  horizontal rule; each distinct source value is listed once, in order of
  first appearance. The two front ends differ only in the source shown for a
  chunk without a `source` entry, which is therefore a parameter.
*/
module Context {
  import opened Options
  import opened Text
  import opened Seqs
  import opened Docs

  /** Characters of each chunk that go into the context. */
  const MaxCharsPerDoc: nat := 1200

  /** The separator between two parts of the context. */
  const PartSeparator: string := "\n\n---\n\n"

  /** The language model, when one could be configured: it receives the context and the
      question and returns the answer text. */
  datatype Llm = NoLlm | Model(ask: (string, string) -> string)

  /** `doc.metadata.get("source", default)`: a present entry is used as it is, even
      when it is not a string. */
  function SourceOf(doc: Document, default: string): (v: Value)
    ensures SourceKey in doc.metadata ==> v == doc.metadata[SourceKey]
    ensures SourceKey !in doc.metadata ==> v == Str(default)
  {
    if SourceKey in doc.metadata then doc.metadata[SourceKey] else Str(default)
  }

  /** Python's `str(i)` for any integer. */
  function IntToString(i: int): (r: string)
    ensures |r| > 0
  {
    if i >= 0 then NatToString(i) else "-" + NatToString(-i)
  }

  /** Printing an integer and parsing it back gives the integer. */
  lemma ParseIntOfIntToString(i: int)
    ensures ParseInt(IntToString(i)) == Some(i)
  {
    if i >= 0 {
      ParseIntOfNatToString(i);
    } else {
      var d := NatToString(-i);
      DigitsValueOfNat(-i);
      assert ("-" + d)[1..] == d;
    }
  }

  /** How an f-string shows a metadata value. */
  function Show(v: Value): string {
    match v
    case Str(s) => s
    case Int(i) => IntToString(i)
    case Null => "None"
  }

  /** The header of the part for the chunk at (0-based) position `i`. */
  function Header(i: nat, source: Value): string {
    "[Source " + NatToString(i + 1) + ": " + Show(source) + "]\n"
  }

  /** The context part of one chunk. */
  function Part(i: nat, doc: Document, default: string): string {
    Header(i, SourceOf(doc, default)) + Take(doc.content, MaxCharsPerDoc)
  }

  function Parts(docs: seq<Document>, default: string): (ps: seq<string>)
    ensures |ps| == |docs|
    ensures forall i :: 0 <= i < |docs| ==> ps[i] == Part(i, docs[i], default)
  {
    seq(|docs|, i requires 0 <= i < |docs| => Part(i, docs[i], default))
  }

  /** The context handed to the language model. */
  function BuildContext(docs: seq<Document>, default: string): string {
    Join(Parts(docs, default), PartSeparator)
  }

  /** The source of every chunk, in retrieval order, repetitions included. */
  function AllSources(docs: seq<Document>, default: string): (vs: seq<Value>)
    ensures |vs| == |docs|
    ensures forall i :: 0 <= i < |docs| ==> vs[i] == SourceOf(docs[i], default)
  {
    seq(|docs|, i requires 0 <= i < |docs| => SourceOf(docs[i], default))
  }

  /** The source list returned with an answer. */
  function Sources(docs: seq<Document>, default: string): seq<Value> {
    Dedup(AllSources(docs, default))
  }

  /** The loop of the two front ends: one part per chunk, and each source appended
      unless it was already listed. It computes the functional definitions above. */
  method Collect(docs: seq<Document>, default: string) returns (context: string, sources: seq<Value>)
    ensures context == BuildContext(docs, default)
    ensures sources == Sources(docs, default)
  {
    var parts: seq<string> := [];
    sources := [];
    for i := 0 to |docs|
      invariant parts == Parts(docs[..i], default)
      invariant sources == Dedup(AllSources(docs[..i], default))
    {
      var source := SourceOf(docs[i], default);
      var content := Take(docs[i].content, MaxCharsPerDoc);
      CollectStep(docs, i, default);
      parts := parts + [Header(i, source) + content];
      if source !in sources {
        sources := sources + [source];
      }
    }
    assert docs[..|docs|] == docs;
    context := Join(parts, PartSeparator);
  }

  lemma CollectStep(docs: seq<Document>, i: nat, default: string)
    requires i < |docs|
    ensures Parts(docs[..i + 1], default) == Parts(docs[..i], default) + [Part(i, docs[i], default)]
    ensures var r := Dedup(AllSources(docs[..i], default));
      var v := SourceOf(docs[i], default);
      Dedup(AllSources(docs[..i + 1], default)) == if v in r then r else r + [v]
  {
    var a := AllSources(docs[..i + 1], default);
    assert a[..i] == AllSources(docs[..i], default);
  }

  // ---------------------------------------------------------------------------
  // What the context and the source list contain
  // ---------------------------------------------------------------------------

  /** The part of chunk `i` names it by its 1-based position and its source, and carries
      a prefix of the chunk's text of at most `MaxCharsPerDoc` characters, the whole
      text when it is short enough. */
  lemma PartShape(i: nat, doc: Document, default: string)
    ensures var p := Part(i, doc, default);
      var body := p[|Header(i, SourceOf(doc, default))|..];
      && StartsWith(p, "[Source " + NatToString(i + 1) + ": ")
      && ParseInt(p[8..8 + |NatToString(i + 1)|]) == Some(i + 1)
      && |body| <= MaxCharsPerDoc
      && StartsWith(doc.content, body)
      && (|doc.content| <= MaxCharsPerDoc ==> body == doc.content)
  {
    var h := Header(i, SourceOf(doc, default));
    var d := NatToString(i + 1);
    HeaderShape(i, SourceOf(doc, default));
    var p := Part(i, doc, default);
    assert p[..|h|] == h;
    assert p[8..8 + |d|] == h[8..8 + |d|];
    ParseIntOfNatToString(i + 1);
  }

  lemma HeaderShape(i: nat, source: Value)
    ensures var h, d := Header(i, source), NatToString(i + 1);
      && StartsWith(h, "[Source " + d + ": ")
      && 8 + |d| <= |h| && h[8..8 + |d|] == d
  {
    var d := NatToString(i + 1);
    var pre := "[Source " + d + ": ";
    var h := Header(i, source);
    assert h == pre + (Show(source) + "]\n");
    assert pre[8..8 + |d|] == d;
  }

  /** Every source listed appears on some chunk, every chunk's source is listed, no
      source is listed twice (so there are at most as many sources as chunks), and the
      list keeps the order of first appearance. */
  lemma SourcesFaithful(docs: seq<Document>, default: string)
    ensures var s := Sources(docs, default);
      && NoDup(s)
      && |s| <= |docs|
      && (forall v :: v in s <==> exists i :: 0 <= i < |docs| && SourceOf(docs[i], default) == v)
      && InFirstOccurrenceOrder(s, AllSources(docs, default))
  {
    var all := AllSources(docs, default);
    var s := Sources(docs, default);
    DedupOrder(all);
    forall v | v in s ensures exists i :: 0 <= i < |docs| && SourceOf(docs[i], default) == v {
      var j :| 0 <= j < |all| && all[j] == v;
    }
  }

  /** The default label is listed when some chunk has no `source` entry. */
  lemma DefaultSourceListed(docs: seq<Document>, default: string, i: nat)
    requires i < |docs| && SourceKey !in docs[i].metadata
    ensures Str(default) in Sources(docs, default)
  {
    assert AllSources(docs, default)[i] == Str(default);
  }

  /** Chunks that all come from the same source give a one-element source list. */
  lemma SingleSource(docs: seq<Document>, default: string, v: Value)
    requires |docs| > 0
    requires forall i :: 0 <= i < |docs| ==> SourceOf(docs[i], default) == v
    ensures Sources(docs, default) == [v]
  {
    DedupConstant(AllSources(docs, default), v);
  }

  /** The source list is empty exactly when nothing was retrieved. */
  lemma SourcesEmptyIffNoDocs(docs: seq<Document>, default: string)
    ensures Sources(docs, default) == [] <==> |docs| == 0
  {
    if |docs| > 0 {
      assert AllSources(docs, default)[0] in Sources(docs, default);
    }
  }

  /** The context depends on each chunk only through its source and its first
      `MaxCharsPerDoc` characters: text beyond that never reaches the model. */
  lemma ContextSeesOnlyPrefix(d1: seq<Document>, d2: seq<Document>, default: string)
    requires |d1| == |d2|
    requires forall i :: 0 <= i < |d1| ==> SourceOf(d1[i], default) == SourceOf(d2[i], default)
    requires forall i :: 0 <= i < |d1| ==> Take(d1[i].content, MaxCharsPerDoc) == Take(d2[i].content, MaxCharsPerDoc)
    ensures BuildContext(d1, default) == BuildContext(d2, default)
  {
    var p1, p2 := Parts(d1, default), Parts(d2, default);
    assert forall i :: 0 <= i < |p1| ==> p1[i] == p2[i];
    assert p1 == p2;
  }
}
