# Breast-cancer medical RAG chatbot — a Dafny model of its text and list logic

The system turns oncology PDFs into retrieval chunks and indexes them in a vector
store. It answers questions from the chunks it retrieves, through a terminal
chatbot and a small web API. This project models the deterministic logic around
the machine-learning libraries:

- **Cleaning** (`cleaning.dfy`, module `Cleaning`). `clean_text` runs three
  regular-expression substitutions and then strips the text. The patterns are
  `http\S+`, `\n{3,}` and `©.*`. Each one is modelled as a left-to-right scanner
  with the leftmost, non-overlapping match semantics of `re.sub`.
- **Section splitting** (`sections.dfy`, module `Sections`). `split_by_sections`
  cuts the text at `##`, drops blank pieces, and turns each remaining piece into
  a section. The title is the piece's first line and the body is the rest.
- **Chunk assignment** (`chunking.dfy`, module `Chunking`). `chunk_documents`
  routes each section by its word count (`str.split()`, threshold 400). Long
  sections go to the semantic splitter. Every chunk gets the next `chunk_id`.
- **Index side** (`index.dfy`, module `Index`).
  - `load_chunks_from_json`, on records that are already parsed. It drops every
    record whose upper-cased section title contains `DOCUMENT TITLE` or
    `DOCUMENT SCOPE`.
  - `create_vector_store`, as a state transition on an abstract persisted
    collection. An empty input is refused before anything is deleted. Otherwise
    the collection is rebuilt from scratch.
- **Context assembly** (`context.dfy`, module `Context`). This is the loop shared
  by both front ends:
  - numbered parts `[Source i: src]`, each followed by at most 1200 characters
    of the chunk;
  - the parts joined by `\n\n---\n\n`;
  - a duplicate-free source list in order of first appearance.
- **Terminal chatbot** (`chatbot.dfy`, module `Chatbot`). `rag_pipeline` covers
  the empty-result, simulation and model branches. The command loop of
  `chat_interface` covers blank lines, `/quit`, and `/k N` clamped to 1..8.
- **Web API** (`webapp.dfy`, module `WebApp`). `rag_query` covers the
  not-initialised, no-result, simulation and model branches. `/api/ask` refuses
  a blank question.

Shared helpers live in `options.dfy`, `text.dfy`, `seqs.dfy` and `docs.dfy`:

- `options.dfy` (module `Options`) holds the optional value.
- `text.dfy` (module `Text`) models Python's `strip`, `upper`,
  `lower`, `split(sep)`, `split()`, `sep.join`, slicing, `str(n)` and `int(t)`.
- `seqs.dfy` (module `Seqs`) holds filtering, subsequences, de-duplication and
  small facts about slicing.
- `docs.dfy` (module `Docs`) holds the `Document(page_content, metadata)` record.
  Metadata values are strings, integers or `None`.

Four parts of the system are function-typed parameters: the semantic splitter,
the embedder, the similarity search and the language model. The model states
nothing about what they return.

Behaviour of the code that is easy to misread:

- The copyright pass deletes from the first `©` on a line to the end of that line, wherever the `©` stands. It does not remove whole lines that begin with the mark, and the line feed itself stays.
- The copyright pass runs after the blank-line pass, so cleaned text can still contain `\n\n\n` (`Cleaning.CleanTextCanLeaveBlankRun`).
- The semantic splitter's chunk size is counted in characters, not words, so no word bound on split chunks is claimed.
- Sources are metadata values as stored, not necessarily strings: a chunk whose `source` entry is `None` contributes `None`.

## Model

| member | source | states |
|---|---|---|
| Text.Strip | chunks.py:33 | the stripped text starts and ends with a non-space character, and is empty exactly when the input is blank |
| Text.StripIsMiddle | chunks.py:33 | stripping removes only whitespace, and only from the two ends |
| Text.StripIdempotent | chunks.py:33 | stripping a stripped text changes nothing |
| Text.Split | chunks.py:67 | cutting at `##` gives at least one piece; joining the pieces with `##` gives the text back, no piece contains `##`, and every cut is at the leftmost remaining `##` |
| Text.SplitFirstLine | chunks.py:75 | `split("\n", 1)` gives the text before the first line feed and, when there is one, the text after it |
| Text.WordsOfJoin | chunks.py:115 | tokenising words joined by single spaces gives the same words back |
| Text.WordsEmptyIffBlank | chunks.py:115 | a text has no words exactly when it is blank |
| Text.ParseIntOfNatToString | rag_chatbot.py:231 | `int()` reads back the decimal text of any natural number |
| Seqs.Dedup | rag_chatbot.py:184-185 | the source list has no duplicates, holds exactly the values of the input, and is no longer than it |
| Seqs.DedupOrder | rag_chatbot.py:184-185 | the de-duplicated list keeps the order of first occurrence |
| Cleaning.StripUrlsIsUrlFree | chunks.py:30 | after the URL pass no match of `http\S+` is left anywhere, including one assembled across a removed URL |
| Cleaning.StripUrlsIdempotent | chunks.py:30 | a second URL pass changes nothing |
| Cleaning.StripUrlsKeepsPrefix | chunks.py:30 | the URL pass copies, unchanged, everything before the leftmost `http\S+` match and goes on scanning from there |
| Cleaning.StripUrlsCutsFirstUrl | chunks.py:30 | the leftmost `http\S+` match is removed up to the next whitespace, and the pass continues on the text after it; with `StripUrlsOfUrlFree` this fixes the pass's result on every input |
| Cleaning.StripUrlsOfUrlFree | chunks.py:30 | text without a `http\S+` match passes the URL pass unchanged |
| Cleaning.CollapseKeepsPrefix | chunks.py:31 | the blank-line pass copies, unchanged, everything before the leftmost run of three or more line feeds |
| Cleaning.CollapseCutsFirstRun | chunks.py:31 | the leftmost run of three or more line feeds is replaced, whole, by two line feeds, and the pass continues after the run; with `CollapseOfNoBlankRun` this fixes the pass's result on every input |
| Cleaning.CollapseLeadingRun | chunks.py:31 | the output starts with as many line feeds as the input, but at most two when the input starts with three or more |
| Cleaning.CollapseNewlinesHasNoBlankRun | chunks.py:31 | after the blank-line pass no run of three line feeds is left |
| Cleaning.DropCopyright | chunks.py:32 | no `©` survives the copyright pass, and the pass never lengthens the text |
| Cleaning.DropCopyrightKeepsPrefix | chunks.py:32 | the copyright pass copies, unchanged, everything before the first `©` |
| Cleaning.DropCopyrightCutsFirstSign | chunks.py:32 | the first `©` is removed with the rest of its line, the line feed kept, and the pass continues from that line feed; with `DropCopyrightOfPlain` this fixes the pass's result on every input |
| Cleaning.DropCopyrightKeepsLines | chunks.py:32 | the copyright pass only deletes characters and keeps every line feed |
| Cleaning.CleanText | chunks.py:29-33 | cleaned text is stripped, holds no `©` and no `http\S+` match, is no longer than the input, and the empty text stays empty |
| Cleaning.CollapseKeepsUrlFree | chunks.py:31 | the blank-line pass never creates a `http\S+` match |
| Cleaning.DropCopyrightKeepsUrlFree | chunks.py:32 | the copyright pass never creates a `http\S+` match |
| Cleaning.StripKeepsUrlFree | chunks.py:33 | the final `strip` never creates a `http\S+` match |
| Cleaning.CollapseOfNoBlankRun | chunks.py:31 | text without three line feeds in a row passes the blank-line pass unchanged |
| Cleaning.DropCopyrightOfPlain | chunks.py:32 | text without `©` passes the copyright pass unchanged |
| Cleaning.CleanTextOfClean | chunks.py:29-33 | text with no URL, no run of three line feeds and no `©` is only stripped |
| Cleaning.CleanTextCanLeaveBlankRun | chunks.py:31-32 | because the copyright pass runs last, `"a\n©\n\nb"` cleans to a text containing three line feeds in a row |
| Sections.TitleAndBody | chunks.py:75-77 | a non-blank piece gives a non-empty, stripped, single-line title and a stripped body; neither holds `##` if the piece does not |
| Sections.SectionsOfWellFormed | chunks.py:70-87 | every section has content `"## " + title + "\n" + body` and the parent's metadata with `section` set to the title, nothing else changed |
| Sections.SplitBySections | chunks.py:66-89 | there are at most as many sections as `##`-pieces, all well formed; text without `##` gives one section, or none exactly when it is blank |
| Sections.SplitBySectionsKeepsEveryPiece | chunks.py:66-89 | the sections are exactly the non-blank `##`-pieces, in document order, the i-th piece giving the i-th section; only blank pieces are dropped |
| Sections.SplitBySectionsOfRender | chunks.py:66-89 | for a document made of a preamble and headed sections (blanks allowed after each `##` and after each body), splitting returns a section for the preamble when it is not blank, then exactly the headings' sections in order, none lost, merged or split |
| Chunking.WithChunkId | chunks.py:121 | numbering a chunk sets `chunk_id` and keeps its content and every other metadata entry |
| Chunking.ChunkDocuments | chunks.py:106-125 | the chunks are all section pieces in production order, the i-th carrying `chunk_id` i, so the ids are 0, 1, 2, … with no gap or repeat |
| Chunking.ShortSectionsKept | chunks.py:113-118 | when no section is long, the chunks are exactly the sections, content unchanged |
| Index.ToDocument | embeddings.py:54-66 | a loaded document keeps the record's content and `chunk_id` and copies five metadata entries, `None` when missing |
| Index.LoadChunks | embeddings.py:41-68 | loading fails exactly when some record's `section` is present but not text (a missing one reads as `""`), and never yields more documents than records |
| Index.LoadChunksLoop | embeddings.py:47-68 | the record-by-record loop computes the filter-then-convert definition |
| Index.LoadedSectionsInformative | embeddings.py:48-52 | no loaded document has a section whose upper-cased title contains an excluded marker |
| Index.LoadedFromRecords | embeddings.py:47-66 | the loaded documents come from an order-preserving subsequence of the records, content and `chunk_id` verbatim |
| Index.MissingSectionKept | embeddings.py:48-52 | a record without a `section` entry is kept |
| Index.InformativeIgnoresCase | embeddings.py:48 | lower-casing or upper-casing a title does not change whether its record is kept |
| Index.KeepInformativeIdempotent | embeddings.py:47-68 | filtering twice keeps the same records as filtering once |
| Index.Build | embeddings.py:97-107 | a new collection is named `breast_cancer_docs` with cosine space, version `3.0-medical-json` and the creation time, and holds one entry per chunk in order |
| Index.CreateVectorStore | embeddings.py:86-110 | an empty chunk list returns nothing and leaves the persisted collection as it was; otherwise the persisted and returned collections are the new one, holding exactly the chunks |
| Index.RebuildForgetsOld | embeddings.py:91-93 | a rebuild does not depend on what was persisted before |
| Index.RebuildHoldsOnlyNewChunks | embeddings.py:91-107 | every entry of a rebuilt collection is one of the new chunks |
| Index.RebuildIdempotent | embeddings.py:86-107 | rebuilding twice from the same chunks leaves the same collection as rebuilding once |
| Context.ParseIntOfIntToString | rag_chatbot.py:179-181 | an integer source is shown in decimal, sign included, and reads back as the same integer |
| Context.Collect | rag_chatbot.py:171-187 | the loop builds the joined numbered parts and the de-duplicated source list |
| Context.PartShape | rag_chatbot.py:177-181 | each part starts with `[Source ` + the 1-based number of its chunk + `: `, the digits after `[Source ` read back as that number, and the part carries a prefix of the chunk of at most 1200 characters (the whole chunk when shorter) |
| Context.SourcesFaithful | rag_chatbot.py:174-185 | the sources are duplicate-free, at most one per chunk, exactly the chunks' sources, in first-appearance order |
| Context.DefaultSourceListed | rag_chatbot.py:175 | a chunk without a `source` entry puts the default label in the list |
| Context.SingleSource | rag_chatbot.py:184-185 | chunks sharing one source give a one-element list |
| Context.SourcesEmptyIffNoDocs | rag_chatbot.py:174-185 | the source list is empty exactly when nothing was retrieved |
| Context.ContextSeesOnlyPrefix | rag_chatbot.py:177-187 | text beyond the first 1200 characters of a chunk never reaches the model |
| Chatbot.RagPipeline | rag_chatbot.py:150-204 | no chunks give the "not available" answer and no sources; otherwise the sources of the chunks, with the model's answer or the simulation text |
| Chatbot.Simulate | rag_chatbot.py:189-193 | the simulation answer is the banner followed by each chunk's preview in retrieval order |
| Chatbot.PreviewsBounded | rag_chatbot.py:191-192 | the text ends with the last chunk's first 300 characters (all of it when shorter) and a blank line, so it grows by at most 302 characters per chunk |
| Chatbot.Clamp | rag_chatbot.py:232 | the new k is in 1..8, equals N inside that range, and is the nearer bound outside it |
| Chatbot.Interpret | rag_chatbot.py:220-236 | a line is skipped exactly when blank; it ends the session exactly when its stripped, lower-cased form is `/quit`; it is a question exactly when its stripped form is non-empty, not `/quit` and does not start with `/k` (any case), and the question is the stripped line; `/k` always sets k within 1..8 |
| Chatbot.Run | rag_chatbot.py:217-243 | a session sends at most one query per input line |
| Chatbot.RunAsksInputQuestions | rag_chatbot.py:217-243 | the questions sent are exactly the input lines before the first `/quit` that are read as questions, stripped, in input order |
| Chatbot.RunKeepsKInRange | rag_chatbot.py:217-243 | every query of a session uses a k between 1 and 8 |
| Chatbot.SessionKeepsKInRange | rag_chatbot.py:217 | starting from k = 3, every query uses a k between 1 and 8 |
| Chatbot.QueriesAreQuestions | rag_chatbot.py:220-243 | every question sent to the pipeline is stripped, non-empty, and neither `/quit` nor a `/k` command |
| Chatbot.QuitEndsSession | rag_chatbot.py:225-227 | after `/quit` nothing more is asked |
| Chatbot.SkipAndUsageKeepK | rag_chatbot.py:222-236 | a blank line or a malformed `/k` leaves k unchanged and asks nothing |
| Chatbot.QuitAnyCase | rag_chatbot.py:220-227 | any line whose stripped, lower-cased form is `/quit` ends the session |
| Chatbot.MalformedKIsUsage | rag_chatbot.py:229-236 | a line starting with `/k` (any case) whose second word is missing or is not an integer is a usage error |
| Chatbot.WellFormedKSetsK | rag_chatbot.py:229-232 | a line starting with `/k` whose second word is the integer N sets k to N clamped to 1..8 |
| Chatbot.KWithToken | rag_chatbot.py:229-236 | `/k t` for any single token t sets k to t's integer value clamped to 1..8 when `int(t)` accepts t (`5`, `-5`, `+5`, `05`, `1_0`), and is a usage error otherwise |
| Chatbot.SetKCommand | rag_chatbot.py:229-232 | for every integer N, `/k` followed by `str(N)` is read back as N, clamped |
| Chatbot.SetKThenAsk | rag_chatbot.py:229-243 | `/k N` for any integer N, followed by a question, sends that question with N clamped |
| WebApp.RagQuery | app.py:126-187 | without a store the reply is the "not initialized" answer with no sources; with no chunks it is the "couldn't find" answer with no sources; otherwise it carries the chunks' de-duplicated sources (default label "Medical document") and the model's answer or the simulation text |
| WebApp.Simulate | app.py:166-172 | the simulation answer is the header, a bullet for each of the first two chunks, and the note |
| WebApp.ApiAsk | app.py:215-233 | a missing or blank question fails with "Empty question"; any other question succeeds with the answer and sources of the query on the stripped question |
| WebApp.ApiAskIgnoresSurroundingSpace | app.py:219 | whitespace around the question does not change the response |
| WebApp.BlankQuestionRefused | app.py:219-225 | a blank question is refused whatever the state of the store and the model |
| WebApp.SuccessSourcesFaithful | app.py:152-161 | a successful response lists each retrieved source once, no other, and none exactly when nothing was retrieved |
| WebApp.SimulationShowsFirstTwo | app.py:169 | chunks after the second do not change the simulation text |
| WebApp.BulletShape | app.py:169-171 | each bullet holds a stripped piece of at most 300 characters from the start of its chunk, followed by `...` |

## Left out

- PDF loading (`load_pdfs`), `save_chunks` and JSON reading and writing: file I/O. Chunk records are modelled after parsing.
- `semantic_split` and the text splitter it wraps: library code. It is the parameter `split`, with no size, overlap or metadata guarantee.
- Embedding computation, Chroma persistence and similarity ranking: library code. The embedder is the parameter `embed`, and retrieval is a function from the question and k to a list of chunks.
- The language models (Groq, Ollama), their initialisation and the prompt templates: foreign calls. A model is an optional function from context and question to the answer text.
- The creation timestamp: it is read from the clock, so it is the parameter `createdAt`.
- The `except Exception` branch of `rag_query`: it only reacts to failures inside foreign calls.
- Flask routes, HTML pages, the statistics endpoints, console printing and `main`: plumbing with no logic of its own.
- Index.LoadChunks: a modelled record always has a metadata map, `content` and `chunk_id`. In the code, a record without `metadata` always raises, because the section is read first. A missing `content` or `chunk_id` raises only for a kept record, because those fields are read after the filter. Records with missing fields are not modelled.
- Chatbot.Run: a session also ends when the input runs out, whereas the code would raise at end of input.
- WebApp.ApiAsk: a request without a JSON body, or with a non-string `question`, makes the code raise; only a missing or textual `question` is modelled.
- Python's Unicode-wide whitespace, case mapping and digit set: the model covers the ten ASCII whitespace characters Python recognises (space, `\t` to `\r`, and the separators `\x1c` to `\x1f`), ASCII letters and ASCII digits. Non-ASCII whitespace such as `\x85` and `\xa0`, non-ASCII letters and non-ASCII digits are not modelled.
- Chunking.ChunkDocuments: the code writes `chunk_id` into each chunk's metadata dictionary in place. The model builds a new record, which is the same provided no two chunks share one dictionary. For a section that is not split this holds, because each section gets its own copy of the parent's metadata. For the pieces of a split section it is an assumption about the splitter: the model takes it that the splitter returns pieces that do not share a metadata dictionary, and the `split` parameter does not guarantee it.
- Text.ParseInt: CPython 3.11 and later (and the 3.10.7+ security releases) refuse by default an `int()` argument of more than 4300 digits, and the limit can be reconfigured. The model parses any number of digits, so a `/k` line with a longer number sets k to 8 where such an interpreter prints the usage message and keeps k.
