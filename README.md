# GoogleDocBot core, modelled in Dafny

GoogleDocBot is a retrieval-augmented chatbot over a user's Google Docs.
This project models the parts of it that decide what is stored and what is
asked:

- **Chunker** (`utils.py`): `chunk_text` strips a document, walks a window of
  at most `max_chars` characters over it, and keeps every non-blank stripped
  window. The next window starts `overlap` characters before the current end,
  or at the end when that would not move forward. It also holds
  `preview_text`, which cuts text to a length.
- **Answering policy** (`pipeline.py`). `RAG.answer` decides whether the
  retrieved documents ground the answer. It then joins their contents into a
  context, picks the grounded or the fallback prompt, and builds the result
  record. `RAG.add_documents` pairs texts with metadata and appends them to
  the vector store.
- **Docs body flattener** (`drive.py`): `_read_structural_elements`
  concatenates the text runs of a document tree. Paragraphs are read
  directly; tables cell by cell in row-major order; tables of contents
  recursively.
- **Selection and batching** (`app.py`). It builds the label shown for each
  Drive file and reads the id back from a chosen label. It then chunks every
  chosen document and keeps the texts paired with `{"source": id}` metadata.

Modules follow the source files: `Text` holds Python's `str.strip`, with
`str.strip()` and `str.strip(chars)` given as one function parameterised by
the set of characters to drop. `Utils`, `Pipeline`, `Drive` and `App` model
the four source files, and `Wrappers` holds `Option` and `Result`.

Where the code loops, the model loops too:
- `Utils.ChunkText` is the `while` loop of `chunk_text`.
- `Drive.ReadStructuralElements` and `Drive.ReadStructuralElement` are the
  nested `for` loops of the flattener.
- `App.BatchChunks` is the outer batching loop, and `App.AppendChunks` its inner loop over one document's chunks.

Each of these methods is proved equal to a recursive function or a closed
form (`App.AppendChunks`: `texts + chunks`), and the
properties are proved about those functions. The vector store is the class
`Pipeline.Rag`, whose `store` field holds the documents added so far.

Outside services are inputs:
- The documents returned by retrieval are a sequence.
- The language model is a function from prompt to response.
- Fetching a document's text is a function from file id to text.

Three behaviours of the code are worth noting:
- `chunk_text`'s default overlap is 100.
- `chunk_text` accepts any overlap, including a negative one or one of at
  least `max_chars`; for `max_chars > 0` the progress guard keeps the loop finite (proved:
  `ChunkText` terminates on `|t| - start`).
- The next window starts at `end - overlap`, not at
  `start + max_chars - overlap`. So once a window reaches the end of the
  text, one more window `[len - overlap, len)` follows whenever it starts
  after the current one. Its chunk repeats the tail of the previous chunk:
  see `Utils.WindowsTail` and `Utils.TailExample`, where `"abcdef"` with
  windows of 4 and an overlap of 2 yields `["abcd", "cdef", "ef"]`.

## Model

| member | source | states |
|---|---|---|
| `Text.StripBySpec` | utils.py:17 | `strip` returns the empty string exactly when every character is dropped. Its result has nothing droppable at either end. A string with nothing droppable is returned unchanged. The result is the slice after the dropped prefix, and only dropped characters follow it. |
| `Text.StripByShape` | utils.py:23 | The slice characterisation of `strip`, proved by induction over the characters removed from either end. |
| `Text.StripByIdempotent` | utils.py:23 | Stripping an already stripped string changes nothing, whatever characters are dropped. |
| `Text.KeptCharInStrip` | utils.py:23 | Every character `strip` does not drop lies inside the span of the result. |
| `Utils.WindowEnd` | utils.py:22 | A window ends after its start and at most `max_chars` later: at `start + max_chars` or at the end of the text. |
| `Utils.NextStart` | utils.py:27-30 | With the progress guard, the next start always lies after the current start. It never lies after the current end when the overlap is non-negative. It is never more than `overlap` before the current end. |
| `Utils.ChunkText` | utils.py:1-32 | The loop returns exactly the chunk sequence `Chunks` defines, and terminates for every overlap. |
| `Utils.ChunksEmptyIff` | utils.py:14-15 | `chunk_text` returns `[]` if and only if the text is empty or whitespace-only. |
| `Utils.ChunksWellFormed` | utils.py:21-25 | Every chunk is non-empty, at most `max_chars` long, and equal to its own `strip()`. It occurs in the stripped text at a known position inside the window it came from. |
| `Utils.ChunksInDocumentOrder` | utils.py:21-30 | The windows of successive chunks start strictly later and end no earlier. Each starts at most `overlap` characters before the previous one ends. |
| `Utils.ChunksCoverContent` | utils.py:21-30 | With `overlap >= 0`, every non-whitespace character of the stripped text lies inside some returned chunk, at the place where that chunk occurs. |
| `Utils.KeptWindowsInText` | utils.py:21-22 | Every window the walk keeps lies inside the text, is non-empty and ends where `min(start + max_chars, len)` puts it. |
| `Utils.KeptWindowsOrdered` | utils.py:27-30 | The kept windows are ordered and overlap by at most `overlap`, from any starting point of the walk. |
| `Utils.KeptChunksMatch` | utils.py:23-25 | The kept chunks correspond one for one to the kept windows, and each is the non-empty stripped slice of its window. |
| `Utils.WindowsTail` | utils.py:21-30 | A window that reaches the end is followed by exactly one more window, `[len - overlap, len)`, when `overlap > 0` and that start lies after the current one, and by none otherwise. The extra chunk is a suffix of the previous chunk. |
| `Utils.TailExample` | utils.py:21-30 | `chunk_text("abcdef", 4, 2)` is `["abcd", "cdef", "ef"]`. |
| `Utils.PreviewText` | utils.py:35-48 | Empty text gives `""`. Text no longer than `length` is returned unchanged. Longer text becomes `text[:length]` followed by `"..."`, with Python's negative-length slicing. |
| `Pipeline.AnyNonBlank` | pipeline.py:62 | `any(d.page_content.strip() for d in docs)` holds if and only if some document's content is non-blank. |
| `Pipeline.JoinHasPart` | pipeline.py:63 | `sep.join(parts)` contains every part, in order, at the offset given by the lengths of the parts and separators before it. |
| `Pipeline.JoinHasSeparator` | pipeline.py:63 | In `sep.join(parts)` one separator follows every part but the last. |
| `Pipeline.JoinLength` | pipeline.py:63 | `sep.join(parts)` ends right after its last part. |
| `Pipeline.Contents` | pipeline.py:63 | The page contents of the retrieved documents, one per document, in retrieval order. |
| `Pipeline.ContextListsDocuments` | pipeline.py:63 | When grounded, the context holds every retrieved document's content in retrieval order, with the `---` separator between neighbours. |
| `Pipeline.ContextEmptyIff` | pipeline.py:62-63 | The context is `""` if and only if the documents do not ground the answer: when grounded, it holds some non-blank content. |
| `Pipeline.GroundedPromptParts` | pipeline.py:65-69 | The grounded prompt is the DOCUMENTS header, then the context, then `QUESTION:` and the query. |
| `Pipeline.FallbackPromptParts` | pipeline.py:70-74 | The fallback prompt is the general-knowledge header, then `QUESTION:` and the query, with no document text. |
| `Pipeline.PromptsDistinguishable` | pipeline.py:65-74 | No grounded prompt equals any fallback prompt. |
| `Pipeline.ResponseText` | pipeline.py:78 | The answer text is the response's `content` when it has one, otherwise its `str()`. |
| `Pipeline.Answer` | pipeline.py:60-81 | `from_docs` holds if and only if some retrieved document has non-blank content, so all-blank retrieval never reports `from_docs`. `source_docs` has one metadata record per retrieved document, in retrieval order, in both branches. `answer` is the model's reply to the chosen prompt. |
| `Pipeline.BuildEntries` | pipeline.py:47-50 | Exactly one entry per text, holding that text and either the metadata at its index or `{}` when `metadatas` is empty. A non-empty `metadatas` shorter than the texts raises `IndexError` at its length, and nothing else does. |
| `Pipeline.Rag.constructor` | pipeline.py:32-43 | The store opens holding what was already persisted. |
| `Pipeline.Rag.AddDocuments` | pipeline.py:45-52 | On success the store is its old contents followed by the new entries in input order, grown by `len(docs)`, with earlier entries unchanged. On `IndexError` the store is unchanged. |
| `Drive.ElementPrecedence` | drive.py:42-53 | A paragraph key hides table and tableOfContents keys, and a table key hides a tableOfContents key. An element with none of the three adds nothing. |
| `Drive.ParagraphTextAppend` | drive.py:44-47 | Each paragraph element appends its text run's content, or nothing when the run or its `content` key is missing. |
| `Drive.ReadCellsAppend` | drive.py:50-51 | Each cell appends the flattening of its content. |
| `Drive.ReadRowsAppend` | drive.py:49-51 | Each row appends its cells' text, rows in order. |
| `Drive.ReadElementsAppend` | drive.py:40-54 | Flattening distributes over list concatenation: `read(a + b) == read(a) + read(b)`. |
| `Drive.ReadStructuralElements` | drive.py:40-54 | The accumulating loop, with its recursive calls, computes the recursive flattening of the element list. |
| `Drive.ReadStructuralElement` | drive.py:43-53 | The loop body for one element adds exactly that element's flattening. |
| `Drive.GetDocText` | drive.py:56-57 | The document text is the flattening of its body's content, and `""` when the body is missing. |
| `App.Labels` | app.py:40 | One label `name (id)` per listed file, in listing order. |
| `App.AfterLast` | app.py:43 | `s.split("(")[-1]` is a suffix of `s` without `(`, preceded in `s` by a `(` unless it is all of `s`. |
| `App.ExtractIdOfLabel` | app.py:40-43 | Reading back a file's label gives its id whenever the id holds no `(` and neither begins nor ends with `)`, whatever the name holds. |
| `App.ChosenIds` | app.py:43 | One extracted id per chosen label, in the order chosen. |
| `App.ChosenIdsOfLabels` | app.py:40-43 | Choosing files by their labels gives back their ids in order, under the same condition on ids. |
| `App.BatchMetas` | app.py:44-52 | There is one metadata record per batched text. |
| `App.BatchChunks` | app.py:44-52 | The nested loop yields, per chosen document in order, that document's chunks, each paired with `{"source": id}`. The two lists have equal length, so the comprehension in `add_documents` (pipeline.py:47-50) cannot raise `IndexError` on them. |
| `App.AppendChunks` | app.py:50-52 | The inner loop appends all of one document's chunks, in order, each with that document's `source` tag. |
| `App.BatchStep` | app.py:46-52 | One more turn of the outer loop appends the next chosen document's chunks and tags to what came before. |
| `App.BatchOrigin` | app.py:46-52 | The k-th chunk of the j-th chosen document sits in the batch right after the chunks of the documents before it, tagged with that document's id. |
| `App.BatchEntrySource` | app.py:46-52 | Conversely, every batched text is some chunk of some chosen document, and its metadata is that document's `source` tag. |
| `App.BatchEntriesWellFormed` | app.py:49-52 | Every batched text is a non-empty chunk of at most 1000 characters, and its metadata names one of the chosen ids. |
| `Text.StripBy` | utils.py:17 | Definition of Python's `str.strip`, front then back, with the characters to drop as a predicate (whitespace here, `")"` at app.py:43); its result is never longer than its input. Its properties are `StripByShape`, `StripBySpec` and `StripByIdempotent`. |
| `Text.IsSpace` | utils.py:17 | Definition of `str.isspace()` for one code point: the Unicode whitespace that every `strip()` of the core drops (utils.py:14, 17, 23; pipeline.py:62). |
| `Text.Strip` | utils.py:17 | Definition of `str.strip()` as `StripBy` with `IsSpace`; its properties are those of `StripBy`, and `IsStripped` names its fixed points. |
| `Utils.PrefixSlice` | utils.py:48 | Definition of Python's `text[:length]`, negative lengths included; `PreviewText`'s contract is stated with it. |
| `Utils.Chunk` | utils.py:23 | Definition of one window's chunk, `text[start:end].strip()`; its properties are `ChunkInWindow` and `KeptChunksMatch`. |
| `Utils.ChunksFrom` | utils.py:21-32 | Definition of the chunks the loop appends from a given `start`; `ChunkText`'s invariant and `KeptChunksMatch` are about it. |
| `Utils.ChunkWindowsFrom` | utils.py:21-30 | Definition of the windows whose chunks the walk keeps; its properties are `KeptWindowsInText` and `KeptWindowsOrdered`. |
| `Utils.Chunks` | utils.py:14-32 | Definition of `chunk_text`'s result; `ChunkText` is proved to return it and its properties are `ChunksEmptyIff`, `ChunksWellFormed`, `ChunksInDocumentOrder`, `ChunksCoverContent` and `WindowsTail`. |
| `Pipeline.Found` | pipeline.py:62 | Definition of `found`; `Answer` states it exactly. |
| `Pipeline.Join` | pipeline.py:63 | Definition of `sep.join(parts)`; its properties are `JoinHasPart`, `JoinHasSeparator` and `JoinLength`. |
| `Pipeline.Context` | pipeline.py:63 | Definition of `context`; its properties are `ContextListsDocuments` and `ContextEmptyIff`. |
| `Pipeline.GroundedPrompt` | pipeline.py:66-69 | Definition of the grounded prompt; its properties are `GroundedPromptParts` and `PromptsDistinguishable`. |
| `Pipeline.FallbackPrompt` | pipeline.py:71-74 | Definition of the fallback prompt; its properties are `FallbackPromptParts` and `PromptsDistinguishable`. |
| `Pipeline.Prompt` | pipeline.py:65-74 | Definition of the prompt choice on `found`; `Answer` states that the model receives it. |
| `Drive.RunText` | drive.py:45-47 | Definition of what one paragraph element adds; `ParagraphTextAppend` states it. |
| `Drive.ParagraphText` | drive.py:44-47 | Definition of a paragraph's text; `ParagraphTextAppend` states it element by element. |
| `Drive.ReadElements` | drive.py:40-54 | Definition of `_read_structural_elements`; `ReadStructuralElements` is proved to compute it and `ReadElementsAppend` states it distributes over concatenation. |
| `Drive.ReadElement` | drive.py:43-53 | Definition of what one element adds; `ElementPrecedence` states the key order and `ReadStructuralElement` is proved to compute it. |
| `Drive.ReadRows` | drive.py:49-51 | Definition of a table's text; `ReadRowsAppend` states it row by row. |
| `Drive.ReadCells` | drive.py:50-51 | Definition of a row's text; `ReadCellsAppend` states it cell by cell. |
| `Drive.DocText` | drive.py:56-57 | Definition of the document's text; `GetDocText` is proved to compute it. |
| `App.Label` | app.py:40 | Definition of one file's label; its properties are `Labels` and `ExtractIdOfLabel`. |
| `App.ExtractId` | app.py:43 | Definition of reading an id back from a label; its properties are `AfterLast`, `ExtractIdOfLabel` and `ChosenIdsOfLabels`. |
| `App.DocChunks` | app.py:49 | Definition of one fetched document's chunks, `chunk_text(txt, max_chars=1000)` with the default overlap. |
| `App.FetchChunks` | app.py:47-49 | Definition of fetching a document by id and chunking it; `BatchChunks` is stated with it. |
| `App.SourceMeta` | app.py:52 | Definition of the `{"source": fid}` metadata; `BatchOrigin` and `BatchEntrySource` are about it. |
| `App.BatchTexts` | app.py:44-52 | Definition of `docs_texts` after the loop; `BatchChunks` is proved to compute it and its properties are `BatchOrigin`, `BatchEntrySource` and `BatchEntriesWellFormed`. |

## Left out

- Embeddings, the Chroma vector store, similarity search, `RAG.retrieve` and its `k` are left out. They are external services using floating point. Retrieved documents are an input sequence.
- The language model (`ChatOpenAI.invoke`) is left out as an external service. It is a function from prompt to response.
- `persist()` only makes the store durable and is left out. `Pipeline.Rag.AddDocuments` models only what the store holds.
- `os.makedirs`, the environment-variable lookups and the import-time `OPENAI_API_KEY` check (pipeline.py:10-14) are left out. They are process I/O.
- The Chroma fallback at construction (pipeline.py:37-43) is not modelled separately: either way the store opens as a sequence of documents.
- `metadatas=None` and `metadatas=[]` are both falsy in the source, and both are the empty sequence here.
- Metadata lists holding non-dictionary values are not modelled.
- `_load_creds`, `list_google_docs`, the Docs API fetch (drive.py:14-38) and auth.py are left out. They are file, OAuth and network I/O.
- The listed files and the fetched text are inputs.
- In the Docs tree, a list-valued key that is missing is the empty list, which is what the source's `.get(key, [])` yields. JSON values of an unexpected type (a `null` paragraph, say) are not modelled.
- An empty `textRun` dictionary is falsy in the source. It is modelled as a text run without `content`, which also contributes `""`.
- `Drive.ReadStructuralElement`: the source inlines this loop body in the loop over elements. The model gives it its own method so that the recursion through the document tree terminates on the tree's structure.
- The Streamlit UI is left out: layout, buttons, `st.write` of the fetched length, success or warning messages, session state, and the exception display.
- The `if docs_texts:` branch that creates a `RAG` and calls `add_documents` (app.py:54-62) is left out as UI glue. `App.BatchChunks` proves that the entries the call builds (pipeline.py:47-50) cannot raise `IndexError`. The embedding calls of `add_documents` (pipeline.py:51), `persist()` and the `os.makedirs` of `RAG()` (pipeline.py:28) are outside the model and may still raise.
- `Utils.ChunkText`: requires `max_chars > 0`, which holds at the only call site (app.py:49, `max_chars=1000`). With `max_chars <= 0` the source slices with negative indices: for `overlap >= max_chars` it never advances and loops forever, and for `overlap < max_chars <= 0` it ends with chunks longer than `max_chars` (`chunk_text("abcd", -1, -3)` returns `["abc"]`).
- `Utils.ChunkText`: its `ensures` ties the result to the function `Chunks`. The properties of the chunks are stated as lemmas about `Chunks`.
- The default arguments `max_chars=1000` of `chunk_text` and `length=200` of `preview_text` (utils.py:1, utils.py:35) have no constant of their own: `ChunkText` and `PreviewText` take both as parameters, and the only call in the core passes `max_chars=1000` explicitly (`App.MaxChars`). The default overlap, which that call relies on, is `Utils.DefaultOverlap`.
- `Utils.ChunksCoverContent`: proved only for `overlap >= 0`. With a negative overlap the walk skips characters between windows, and so does the source.
- `App.ExtractIdOfLabel`: proved only for ids without `(` that neither begin nor end with `)`. Other ids are read back wrongly by the source's split-and-strip; Drive file ids are letters, digits, `-` and `_`.
- Characters are Unicode scalar values. `str.isspace` is the fixed list of Unicode whitespace code points in `Text.IsSpace`.
