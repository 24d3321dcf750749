/**
  The web front end (app.py): `rag_query`, which answers one question with a
  fixed number of chunks, and the `/api/ask` endpoint, which validates the
  request before calling it.

  The process-wide vector store is `None` when loading it failed; here it is
  the optional retrieval function `store`. The language model is the optional
  `llm` shared with the terminal chatbot. Flask, the HTML pages and the
  statistics endpoints are not modelled.
*/
module WebApp {
  import opened Options
  import opened Text
  import opened Seqs
  import opened Docs
  import opened Context

  /** Chunks retrieved per question. */
  const DefaultK: nat := 3

  /** The source shown for a chunk without a `source` entry. */
  const DefaultSource: string := "Medical document"

  const NotInitialized: string := "\U{274C} System not initialized. Please contact the administrator."
  const NothingFound: string := "I couldn't find relevant information in my medical knowledge base."
  const SimulationHeader: string := "**[Simulation Mode]**\n\nI found relevant information:\n\n"
  const SimulationNote: string := "*Note: Simulation mode active. For complete answers, configure a Groq API key.*"
  const EmptyQuestion: string := "Empty question"

  /** Characters of a chunk shown in a simulation bullet, and how many chunks are shown. */
  const PreviewChars: nat := 300
  const PreviewCount: nat := 2

  /** The `{"answer": ..., "sources": ...}` dictionary of `rag_query`. */
  datatype Reply = Reply(answer: string, sources: seq<Value>)

  /** The JSON body `/api/ask` returns. */
  datatype Response = Failure(error: string) | Success(answer: string, sources: seq<Value>)

  /** One simulation bullet: the chunk's first characters, stripped, then an ellipsis. */
  function Bullet(doc: Document): string {
    "\U{2022} " + Strip(Take(doc.content, PreviewChars)) + "...\n\n"
  }

  function Bullets(docs: seq<Document>): string
    decreases |docs|
  {
    if |docs| == 0 then "" else Bullets(docs[..|docs| - 1]) + Bullet(docs[|docs| - 1])
  }

  /** The simulation-mode answer: a header, a bullet for each of the first two chunks,
      and a note. */
  function SimulationAnswer(docs: seq<Document>): string {
    SimulationHeader + Bullets(Take(docs, PreviewCount)) + SimulationNote
  }

  /** What `rag_query` returns. */
  function QueryReply(store: Option<(string, nat) -> seq<Document>>, llm: Llm, question: string): (r: Reply)
    ensures store.None? ==> r == Reply(NotInitialized, [])
    ensures store.Some? && |store.value(question, DefaultK)| == 0 ==> r == Reply(NothingFound, [])
    ensures store.Some? && |store.value(question, DefaultK)| > 0 ==>
      r.sources == Sources(store.value(question, DefaultK), DefaultSource)
  {
    if store.None? then Reply(NotInitialized, [])
    else
      var docs := store.value(question, DefaultK);
      if |docs| == 0 then Reply(NothingFound, [])
      else if llm.NoLlm? then Reply(SimulationAnswer(docs), Sources(docs, DefaultSource))
      else Reply(llm.ask(BuildContext(docs, DefaultSource), question), Sources(docs, DefaultSource))
  }

  /** `rag_query` as written: the shared context loop, then the model or the simulation
      loop over the first two chunks. */
  method RagQuery(store: Option<(string, nat) -> seq<Document>>, llm: Llm, question: string) returns (r: Reply)
    ensures r == QueryReply(store, llm, question)
  {
    if store.None? {
      return Reply(NotInitialized, []);
    }
    var docs := store.value(question, DefaultK);
    if |docs| == 0 {
      return Reply(NothingFound, []);
    }
    var context, sources := Collect(docs, DefaultSource);
    var answer;
    if llm.NoLlm? {
      answer := Simulate(docs);
    } else {
      answer := llm.ask(context, question);
    }
    return Reply(answer, sources);
  }

  method Simulate(docs: seq<Document>) returns (answer: string)
    ensures answer == SimulationAnswer(docs)
  {
    var shown := Take(docs, PreviewCount);
    var bullets := "";
    for i := 0 to |shown|
      invariant bullets == Bullets(shown[..i])
    {
      assert shown[..i + 1][..i] == shown[..i];
      bullets := bullets + Bullet(shown[i]);
    }
    assert shown[..|shown|] == shown;
    answer := SimulationHeader + bullets + SimulationNote;
  }

  /** `/api/ask`: the `question` field (missing means "") is stripped; a blank question is
      refused before the store is consulted, anything else is answered by `rag_query`. */
  function ApiAsk(store: Option<(string, nat) -> seq<Document>>, llm: Llm, question: Option<string>): (resp: Response)
    ensures resp.Failure? <==> question.None? || AllSpace(question.value)
    ensures resp.Failure? ==> resp.error == EmptyQuestion
    ensures resp.Success? ==> var r := QueryReply(store, llm, Strip(question.value));
      resp.answer == r.answer && resp.sources == r.sources
  {
    var q := Strip(match question case Some(s) => s case None => "");
    if q == [] then Failure(EmptyQuestion)
    else
      var r := QueryReply(store, llm, q);
      Success(r.answer, r.sources)
  }

  // ---------------------------------------------------------------------------
  // Properties of the endpoint
  // ---------------------------------------------------------------------------

  /** Surrounding whitespace does not change the response. */
  lemma ApiAskIgnoresSurroundingSpace(store: Option<(string, nat) -> seq<Document>>, llm: Llm, q: string)
    ensures ApiAsk(store, llm, Some(q)) == ApiAsk(store, llm, Some(Strip(q)))
  {
    StripIdempotent(q);
  }

  /** A blank question is refused whatever the state of the store and the model. */
  lemma BlankQuestionRefused(s1: Option<(string, nat) -> seq<Document>>, l1: Llm,
                             s2: Option<(string, nat) -> seq<Document>>, l2: Llm, q: string)
    requires AllSpace(q)
    ensures ApiAsk(s1, l1, Some(q)) == ApiAsk(s2, l2, Some(q)) == Failure(EmptyQuestion)
  {
  }

  /** A successful response lists each source once, each one taken from a retrieved chunk,
      and lists none exactly when nothing could be retrieved. */
  lemma SuccessSourcesFaithful(store: (string, nat) -> seq<Document>, llm: Llm, q: string)
    requires !AllSpace(q)
    ensures var resp := ApiAsk(Some(store), llm, Some(q));
      var docs := store(Strip(q), DefaultK);
      && resp.Success?
      && NoDup(resp.sources)
      && (forall v :: v in resp.sources <==> exists i :: 0 <= i < |docs| && SourceOf(docs[i], DefaultSource) == v)
      && (resp.sources == [] <==> |docs| == 0)
  {
    var docs := store(Strip(q), DefaultK);
    SourcesFaithful(docs, DefaultSource);
    SourcesEmptyIffNoDocs(docs, DefaultSource);
  }

  /** The simulation answer shows only the first two chunks: later chunks change the
      sources but not the text. */
  lemma SimulationShowsFirstTwo(docs: seq<Document>, more: seq<Document>)
    requires |docs| >= PreviewCount
    ensures SimulationAnswer(docs + more) == SimulationAnswer(docs)
  {
    assert Take(docs + more, PreviewCount) == Take(docs, PreviewCount);
  }

  /** Each bullet holds at most `PreviewChars` characters of its chunk, a piece of the
      chunk's first `PreviewChars` characters (surrounding whitespace removed). */
  lemma BulletShape(doc: Document)
    ensures var body := Strip(Take(doc.content, PreviewChars));
      && Bullet(doc) == "\U{2022} " + body + "...\n\n"
      && |body| <= PreviewChars
      && Contains(Take(doc.content, PreviewChars), body)
  {
    var t := Take(doc.content, PreviewChars);
    var a := StripIsMiddle(t);
    assert OccursAt(t, Strip(t), a);
  }
}
