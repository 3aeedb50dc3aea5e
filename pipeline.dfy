/** The retrieval-augmented answering policy of pipeline.py.

    Retrieval and the language model are outside the model: `Answer` takes
    the retrieved documents as a sequence and the model as a function from
    prompt to response. What remains is the decision whether the answer is
    grounded in the documents, the context built from them, the prompt chosen
    and the record returned. `Rag` is the vector store seen as the sequence of
    documents added to it. */
module Pipeline {
  import opened Wrappers
  import opened Text

  /** Document metadata: a string-keyed dictionary. */
  type Metadata = map<string, string>

  /** A stored or retrieved document: its text and its metadata. */
  datatype Document = Document(pageContent: string, metadata: Metadata)

  /** What the language model returns: a message with a `content`
      attribute, or some other object, of which only `str()` is used. */
  datatype Response = Message(content: string) | Other(repr: string)

  /** One entry of `source_docs`: the metadata of one retrieved document. */
  datatype SourceDoc = SourceDoc(metadata: Metadata)

  /** The dictionary `answer` returns. */
  datatype AnswerRecord = AnswerRecord(answer: string, fromDocs: bool, sourceDocs: seq<SourceDoc>)

  /** Why adding documents fails: indexing past the end of `metadatas`. */
  datatype AddError = IndexError(index: nat)

  const Separator := "\n\n---\n\n"
  /** The fixed text of the two prompts, written in pieces short enough
      for the verifier to read character by character. */
  const GroundedHeader: string := "You are a helpful assistant. " + "Use the following DOCUMENTS to answer." + "\n\nDOCUMENTS:\n"
  const FallbackHeader: string := "I couldn't find relevant information " + "in the user's documents. " + "Answer from general knowledge."
  const QuestionMarker := "\n\nQUESTION: "

  /** `any(d.page_content.strip() for d in docs)`: some document has
      content that is not blank. */
  function AnyNonBlank(docs: seq<Document>): (b: bool)
    ensures b <==> exists i :: 0 <= i < |docs| && Strip(docs[i].pageContent) != ""
  {
    if docs == [] then false
    else
      assert forall i :: 1 <= i < |docs| ==> docs[1..][i - 1] == docs[i];
      Strip(docs[0].pageContent) != "" || AnyNonBlank(docs[1..])
  }

  /** `found` (pipeline.py:62). */
  predicate Found(docs: seq<Document>) {
    |docs| > 0 && AnyNonBlank(docs)
  }

  /** `sep.join(parts)`. */
  function Join(sep: string, parts: seq<string>): string {
    if parts == [] then ""
    else if |parts| == 1 then parts[0]
    else parts[0] + sep + Join(sep, parts[1..])
  }

  /** Where the `i`-th part begins in `sep.join(parts)`: the lengths of the
      parts before it, each followed by one separator. */
  function JoinOffset(sep: string, parts: seq<string>, i: nat): nat
    requires i <= |parts|
  {
    if i == 0 then 0 else |parts[0]| + |sep| + JoinOffset(sep, parts[1..], i - 1)
  }

  /** `sep.join(parts)` holds every part, in order, at its offset. */
  lemma {:induction false} JoinHasPart(sep: string, parts: seq<string>, i: nat)
    requires i < |parts|
    ensures OccursAt(Join(sep, parts), parts[i], JoinOffset(sep, parts, i))
  {
    if |parts| > 1 {
      var rest := parts[1..];
      if i == 0 {
        OccursBeforeSuffix(parts[0], sep + Join(sep, rest), parts[0], 0);
        assert parts[0] + sep + Join(sep, rest) == parts[0] + (sep + Join(sep, rest));
      } else {
        JoinHasPart(sep, rest, i - 1);
        assert rest[i - 1] == parts[i];
        OccursAfterPrefix(parts[0] + sep, Join(sep, rest), parts[i], JoinOffset(sep, rest, i - 1));
      }
    }
  }

  /** In `sep.join(parts)` one separator follows every part but the last. */
  lemma {:induction false} JoinHasSeparator(sep: string, parts: seq<string>, i: nat)
    requires i + 1 < |parts|
    ensures OccursAt(Join(sep, parts), sep, JoinOffset(sep, parts, i) + |parts[i]|)
  {
    var rest := parts[1..];
    if i == 0 {
      assert parts[0] + sep + Join(sep, rest) == parts[0] + (sep + Join(sep, rest));
      OccursBeforeSuffix(sep, Join(sep, rest), sep, 0);
      OccursAfterPrefix(parts[0], sep + Join(sep, rest), sep, 0);
    } else {
      JoinHasSeparator(sep, rest, i - 1);
      assert rest[i - 1] == parts[i];
      OccursAfterPrefix(parts[0] + sep, Join(sep, rest), sep, JoinOffset(sep, rest, i - 1) + |parts[i]|);
    }
  }

  /** `sep.join(parts)` ends with its last part. */
  lemma {:induction false} JoinLength(sep: string, parts: seq<string>)
    requires parts != []
    ensures |Join(sep, parts)| == JoinOffset(sep, parts, |parts| - 1) + |parts[|parts| - 1]|
  {
    if |parts| > 1 {
      JoinLength(sep, parts[1..]);
    }
  }

  /** The page contents of `docs`, in retrieval order. */
  function Contents(docs: seq<Document>): (r: seq<string>)
    ensures |r| == |docs| && forall i :: 0 <= i < |docs| ==> r[i] == docs[i].pageContent
  {
    seq(|docs|, i requires 0 <= i < |docs| => docs[i].pageContent)
  }

  /** `context` (pipeline.py:63). */
  function Context(docs: seq<Document>): string {
    if Found(docs) then Join(Separator, Contents(docs)) else ""
  }

  /** When the answer is grounded, the context holds every retrieved
      document's content, in retrieval order, separated by the rule line;
      `ContextEmptyIff` states the other case (pipeline.py:63). */
  lemma ContextListsDocuments(docs: seq<Document>, i: nat)
    requires i < |docs|
    ensures Found(docs) ==> OccursAt(Context(docs), docs[i].pageContent, JoinOffset(Separator, Contents(docs), i))
    ensures Found(docs) && i + 1 < |docs| ==>
      OccursAt(Context(docs), Separator, JoinOffset(Separator, Contents(docs), i) + |docs[i].pageContent|)
  {
    if Found(docs) {
      JoinHasPart(Separator, Contents(docs), i);
      if i + 1 < |docs| {
        JoinHasSeparator(Separator, Contents(docs), i);
      }
    }
  }

  /** The context is empty exactly when the documents do not ground the
      answer: a grounding document has non-blank content, which the
      context holds (pipeline.py:62-63). */
  lemma ContextEmptyIff(docs: seq<Document>)
    ensures Context(docs) == "" <==> !Found(docs)
  {
    if Found(docs) {
      var i :| 0 <= i < |docs| && Strip(docs[i].pageContent) != "";
      assert docs[i].pageContent != "";
      JoinHasPart(Separator, Contents(docs), i);
    }
  }

  /** The prompt used when the documents are relevant (pipeline.py:66-69). */
  function GroundedPrompt(context: string, query: string): string {
    GroundedHeader + context + QuestionMarker + query
  }

  /** The prompt used otherwise (pipeline.py:71-74). */
  function FallbackPrompt(query: string): string {
    FallbackHeader + QuestionMarker + query
  }

  /** The prompt of pipeline.py:65-74. */
  function Prompt(docs: seq<Document>, query: string): string {
    if Found(docs) then GroundedPrompt(Context(docs), query) else FallbackPrompt(query)
  }

  /** The grounded prompt is its header, then the context, then the
      question marker and the query. */
  lemma GroundedPromptParts(context: string, query: string)
    ensures |GroundedPrompt(context, query)| == |GroundedHeader| + |context| + |QuestionMarker| + |query|
    ensures GroundedPrompt(context, query)[..|GroundedHeader|] == GroundedHeader
    ensures OccursAt(GroundedPrompt(context, query), context, |GroundedHeader|)
    ensures GroundedPrompt(context, query)[|GroundedHeader| + |context|..] == QuestionMarker + query
  {
    var p := GroundedPrompt(context, query);
    assert p == GroundedHeader + (context + (QuestionMarker + query));
  }

  /** The fallback prompt is its header, then the question marker and the
      query: no document text reaches it. */
  lemma FallbackPromptParts(query: string)
    ensures |FallbackPrompt(query)| == |FallbackHeader| + |QuestionMarker| + |query|
    ensures FallbackPrompt(query)[..|FallbackHeader|] == FallbackHeader
    ensures FallbackPrompt(query)[|FallbackHeader|..] == QuestionMarker + query
  {
    assert FallbackPrompt(query) == FallbackHeader + (QuestionMarker + query);
  }

  /** Whatever the context and queries, a grounded prompt differs from a
      fallback prompt: they begin differently. */
  lemma PromptsDistinguishable(context: string, query: string, query': string)
    ensures GroundedPrompt(context, query) != FallbackPrompt(query')
  {
    assert GroundedPrompt(context, query)[0] == 'Y';
    assert FallbackPrompt(query')[0] == 'I';
  }

  /** `res.content if hasattr(res, "content") else str(res)`. */
  function ResponseText(res: Response): (s: string)
    ensures res.Message? ==> s == res.content
    ensures res.Other? ==> s == res.repr
  {
    match res
    case Message(content) => content
    case Other(repr) => repr
  }

  /** `RAG.answer` (pipeline.py:60-81), given the retrieved documents and
      the language model as a function. */
  function Answer(query: string, docs: seq<Document>, llm: string -> Response): (r: AnswerRecord)
    ensures r.fromDocs <==> |docs| > 0 && exists i :: 0 <= i < |docs| && Strip(docs[i].pageContent) != ""
    ensures (forall i :: 0 <= i < |docs| ==> Strip(docs[i].pageContent) == "") ==> !r.fromDocs
    ensures |r.sourceDocs| == |docs|
    ensures forall i :: 0 <= i < |docs| ==> r.sourceDocs[i] == SourceDoc(docs[i].metadata)
    ensures r.answer == ResponseText(llm(Prompt(docs, query)))
  {
    AnswerRecord(
      ResponseText(llm(Prompt(docs, query))),
      Found(docs),
      seq(|docs|, i requires 0 <= i < |docs| => SourceDoc(docs[i].metadata)))
  }

  /** The entries `add_documents` builds (pipeline.py:47-50): one per text,
      with the metadata at the same index when `metadatas` is not empty and
      an empty dictionary otherwise. A non-empty `metadatas` shorter than the
      texts raises `IndexError` at its length. */
  function BuildEntries(docs: seq<string>, metadatas: seq<Metadata>): (r: Result<seq<Document>, AddError>)
    ensures r.Ok? <==> metadatas == [] || |metadatas| >= |docs|
    ensures r.Err? ==> r.error == IndexError(|metadatas|)
    ensures r.Ok? ==> |r.value| == |docs|
    ensures r.Ok? ==> forall i :: 0 <= i < |docs| ==>
      r.value[i].pageContent == docs[i] && r.value[i].metadata == (if metadatas == [] then map[] else metadatas[i])
  {
    if metadatas != [] && |metadatas| < |docs| then Err(IndexError(|metadatas|))
    else Ok(seq(|docs|, i requires 0 <= i < |docs| =>
      Document(docs[i], if metadatas == [] then map[] else metadatas[i])))
  }

  /** The RAG object with its vector store, seen as the documents in it. */
  class Rag {
    var store: seq<Document>

    /** A store opened with the documents already persisted in it. */
    constructor(persisted: seq<Document>)
      ensures store == persisted
    {
      store := persisted;
    }

    /** `add_documents` (pipeline.py:45-52): the entries go into the store
        after everything already there, in input order; on `IndexError`
        nothing is added. */
    method AddDocuments(docs: seq<string>, metadatas: seq<Metadata>) returns (raised: Option<AddError>)
      modifies this
      ensures raised.None? <==> metadatas == [] || |metadatas| >= |docs|
      ensures raised.None? ==> BuildEntries(docs, metadatas).Ok?
      ensures raised.None? ==> store == old(store) + BuildEntries(docs, metadatas).value
      ensures raised.None? ==> |store| == |old(store)| + |docs| && store[..|old(store)|] == old(store)
      ensures raised.Some? ==> raised.value == IndexError(|metadatas|) && store == old(store)
    {
      var entries := BuildEntries(docs, metadatas);
      if entries.Err? {
        return Some(entries.error);
      }
      store := store + entries.value;
      raised := None;
    }
  }
}
