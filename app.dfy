/** The document-selection logic of app.py: the labels offered for the
    Drive files, the file ids read back from the chosen labels, and the
    batching of every chosen document's chunks with a `source` tag for the
    store.

    The Drive listing and the Docs fetch are outside the model: the files
    are a sequence and fetching a document's text is a function from id to
    text. */
module App {
  import opened Text
  import Utils
  import Pipeline

  /** An entry of the Drive listing: a file's id and name. */
  datatype DriveFile = DriveFile(id: string, name: string)

  /** The label shown for a file (app.py:40). */
  function Label(f: DriveFile): string {
    f.name + " (" + f.id + ")"
  }

  /** The labels of the listed files, in listing order (app.py:40). */
  function Labels(files: seq<DriveFile>): (labels: seq<string>)
    ensures |labels| == |files|
    ensures forall i :: 0 <= i < |files| ==> labels[i] == Label(files[i])
  {
    seq(|files|, i requires 0 <= i < |files| => Label(files[i]))
  }

  /** `s.split(c)[-1]`: what follows the last `c`, or all of `s` when it
      holds no `c`. */
  function AfterLast(s: string, c: char): (r: string)
    ensures |r| <= |s| && r == s[|s| - |r|..]
    ensures c !in r
    ensures |r| < |s| ==> s[|s| - |r| - 1] == c
  {
    if s == [] then []
    else if s[|s| - 1] == c then []
    else AfterLast(s[..|s| - 1], c) + [s[|s| - 1]]
  }

  predicate IsCloseParen(c: char) {
    c == ')'
  }

  /** The file id read back from a label (app.py:43): the text after the
      last "(", with ")" stripped from both ends. */
  function ExtractId(shown: string): string {
    StripBy(AfterLast(shown, '('), IsCloseParen)
  }

  /** Reading back a label gives the file's id whenever the id holds no
      "(" and neither begins nor ends with ")", whatever the name holds. */
  lemma {:induction false} ExtractIdOfLabel(f: DriveFile)
    requires '(' !in f.id && IsStrippedBy(f.id, IsCloseParen)
    ensures ExtractId(Label(f)) == f.id
  {
    var l := Label(f);
    var tail := f.id + ")";
    assert l == (f.name + " (") + tail;
    AfterLastSuffix(f.name + " (", tail, '(');
    assert AfterLast(l, '(') == tail;
    StripBySpec(tail, IsCloseParen);
    StripTrailingClose(f.id);
  }

  /** When the tail after some `c` holds no `c`, it is what follows the last `c`. */
  lemma {:induction false} AfterLastSuffix(a: string, b: string, c: char)
    requires a != [] && a[|a| - 1] == c && c !in b
    ensures AfterLast(a + b, c) == b
    decreases |b|
  {
    if b == [] {
      assert a + b == a;
    } else {
      var b', last := b[..|b| - 1], b[|b| - 1];
      assert b' + [last] == b;
      assert (a + b)[..|a + b| - 1] == a + b';
      assert (a + b)[|a + b| - 1] == last != c;
      AfterLastSuffix(a, b', c);
      assert AfterLast(a + b, c) == AfterLast(a + b', c) + [last];
    }
  }

  /** Stripping ")" from a text with no ")" at either end, followed by one ")",
      gives back the text. */
  lemma StripTrailingClose(id: string)
    requires IsStrippedBy(id, IsCloseParen)
    ensures StripBy(id + ")", IsCloseParen) == id
  {
    var t := id + ")";
    if id == [] {
      assert t == ")";
      assert StripBy(t[1..], IsCloseParen) == [];
    } else {
      assert t[0] == id[0];
      assert t[..|t| - 1] == id;
      StripBySpec(id, IsCloseParen);
    }
  }

  /** `chosen_ids` (app.py:43): one id per chosen label, in order. */
  function ChosenIds(selected: seq<string>): (ids: seq<string>)
    ensures |ids| == |selected|
    ensures forall i :: 0 <= i < |selected| ==> ids[i] == ExtractId(selected[i])
  {
    seq(|selected|, i requires 0 <= i < |selected| => ExtractId(selected[i]))
  }

  /** Choosing files by their labels gives back their ids, in the order
      chosen, when no id holds "(" or begins or ends with ")". */
  lemma ChosenIdsOfLabels(files: seq<DriveFile>)
    requires forall i :: 0 <= i < |files| ==> '(' !in files[i].id && IsStrippedBy(files[i].id, IsCloseParen)
    ensures |ChosenIds(Labels(files))| == |files|
    ensures forall i :: 0 <= i < |files| ==> ChosenIds(Labels(files))[i] == files[i].id
  {
    forall i | 0 <= i < |files| ensures ChosenIds(Labels(files))[i] == files[i].id {
      ExtractIdOfLabel(files[i]);
    }
  }

  /** The metadata stored with a chunk of document `id` (app.py:52). */
  function SourceMeta(id: string): Pipeline.Metadata {
    map["source" := id]
  }

  /** The chunk size app.py:49 asks for; the overlap is the default. */
  const MaxChars := 1000

  /** The chunks of one fetched document (app.py:49). */
  function DocChunks(text: string): seq<string> {
    Utils.Chunks(text, MaxChars, Utils.DefaultOverlap)
  }

  /** Fetching a document by id and chunking it (app.py:47-49). */
  function FetchChunks(content: string -> string): string -> seq<string> {
    id => DocChunks(content(id))
  }

  /** `docs_texts` after the loop of app.py:46-52 has handled `ids`, where
      `chunksOf` gives the chunks of the document with a given id. */
  function BatchTexts(ids: seq<string>, chunksOf: string -> seq<string>): seq<string> {
    if ids == [] then []
    else BatchTexts(ids[..|ids| - 1], chunksOf) + chunksOf(ids[|ids| - 1])
  }

  /** `metas` after the same loop. */
  function BatchMetas(ids: seq<string>, chunksOf: string -> seq<string>): (metas: seq<Pipeline.Metadata>)
    ensures |metas| == |BatchTexts(ids, chunksOf)|
  {
    if ids == [] then []
    else
      var id := ids[|ids| - 1];
      BatchMetas(ids[..|ids| - 1], chunksOf) + seq(|chunksOf(id)|, _ => SourceMeta(id))
  }

  /** The inner loop of app.py:50-52: each chunk of one document is
      appended to the texts, and its `source` tag to the metadata. */
  method AppendChunks(texts: seq<string>, metas: seq<Pipeline.Metadata>, chunks: seq<string>, fid: string)
    returns (texts': seq<string>, metas': seq<Pipeline.Metadata>)
    ensures texts' == texts + chunks
    ensures metas' == metas + seq(|chunks|, _ => SourceMeta(fid))
  {
    texts', metas' := texts, metas;
    for k := 0 to |chunks|
      invariant texts' == texts + chunks[..k]
      invariant metas' == metas + seq(k, _ => SourceMeta(fid))
    {
      texts' := texts' + [chunks[k]];
      metas' := metas' + [SourceMeta(fid)];
      assert chunks[..k + 1] == chunks[..k] + [chunks[k]];
      assert seq(k + 1, _ => SourceMeta(fid)) == seq(k, _ => SourceMeta(fid)) + [SourceMeta(fid)];
    }
    assert chunks[..|chunks|] == chunks;
  }

  /** The batching loop of app.py:44-52: for each chosen id, fetch the
      document, chunk it and append every chunk with its `source` tag. */
  method BatchChunks(ids: seq<string>, content: string -> string)
    returns (docsTexts: seq<string>, metas: seq<Pipeline.Metadata>)
    ensures docsTexts == BatchTexts(ids, FetchChunks(content))
    ensures metas == BatchMetas(ids, FetchChunks(content))
    ensures |metas| == |docsTexts| && Pipeline.BuildEntries(docsTexts, metas).Ok?
  {
    ghost var chunksOf := FetchChunks(content);
    docsTexts, metas := [], [];
    for i := 0 to |ids|
      invariant docsTexts == BatchTexts(ids[..i], chunksOf)
      invariant metas == BatchMetas(ids[..i], chunksOf)
    {
      var fid := ids[i];
      var txt := content(fid);
      var chunks := Utils.ChunkText(txt, MaxChars, Utils.DefaultOverlap);
      assert chunks == chunksOf(fid);
      docsTexts, metas := AppendChunks(docsTexts, metas, chunks, fid);
      BatchStep(ids, chunksOf, i);
    }
    assert ids[..|ids|] == ids;
  }

  /** One more turn of the batching loop appends the chunks of the next id. */
  lemma BatchStep(ids: seq<string>, chunksOf: string -> seq<string>, i: nat)
    requires i < |ids|
    ensures BatchTexts(ids[..i + 1], chunksOf) == BatchTexts(ids[..i], chunksOf) + chunksOf(ids[i])
    ensures BatchMetas(ids[..i + 1], chunksOf)
      == BatchMetas(ids[..i], chunksOf) + seq(|chunksOf(ids[i])|, _ => SourceMeta(ids[i]))
  {
    assert ids[..i + 1][..i] == ids[..i];
  }

  /** The `k`-th chunk of the `j`-th chosen document sits in the batch
      after the chunks of the documents before it, tagged with its own id:
      documents keep the order they were chosen in, and each document's
      chunks keep theirs (app.py:46-52). */
  lemma {:induction false} BatchOrigin(ids: seq<string>, chunksOf: string -> seq<string>, j: nat, k: nat)
    requires j < |ids| && k < |chunksOf(ids[j])|
    ensures |BatchTexts(ids[..j], chunksOf)| + k < |BatchTexts(ids, chunksOf)|
    ensures BatchTexts(ids, chunksOf)[|BatchTexts(ids[..j], chunksOf)| + k] == chunksOf(ids[j])[k]
    ensures BatchMetas(ids, chunksOf)[|BatchTexts(ids[..j], chunksOf)| + k] == SourceMeta(ids[j])
  {
    var n := |ids|;
    var init := ids[..n - 1];
    if j < n - 1 {
      assert init[..j] == ids[..j] && init[j] == ids[j];
      BatchOrigin(init, chunksOf, j, k);
    } else {
      assert init == ids[..j];
    }
  }

  /** Conversely, every entry of the batch is some chunk of some chosen
      document, tagged with that document's id. */
  lemma {:induction false} BatchEntrySource(ids: seq<string>, chunksOf: string -> seq<string>, i: nat)
    requires i < |BatchTexts(ids, chunksOf)|
    ensures exists j, k :: (0 <= j < |ids| && 0 <= k < |chunksOf(ids[j])|
      && BatchTexts(ids, chunksOf)[i] == chunksOf(ids[j])[k]
      && BatchMetas(ids, chunksOf)[i] == SourceMeta(ids[j]))
  {
    var n := |ids|;
    var init := ids[..n - 1];
    var before := BatchTexts(init, chunksOf);
    if i < |before| {
      BatchEntrySource(init, chunksOf, i);
      var j, k :| 0 <= j < |init| && 0 <= k < |chunksOf(init[j])|
        && before[i] == chunksOf(init[j])[k] && BatchMetas(init, chunksOf)[i] == SourceMeta(init[j]);
      assert init[j] == ids[j];
    } else {
      var k := i - |before|;
      assert BatchTexts(ids, chunksOf)[i] == chunksOf(ids[n - 1])[k];
      assert BatchMetas(ids, chunksOf)[i] == SourceMeta(ids[n - 1]);
    }
  }

  /** Every text the loop batches is a non-empty chunk of at most 1000
      characters, and its metadata names one of the chosen ids. */
  lemma BatchEntriesWellFormed(ids: seq<string>, content: string -> string, i: nat)
    requires i < |BatchTexts(ids, FetchChunks(content))|
    ensures 0 < |BatchTexts(ids, FetchChunks(content))[i]| <= MaxChars
    ensures exists j :: 0 <= j < |ids| && BatchMetas(ids, FetchChunks(content))[i] == SourceMeta(ids[j])
  {
    var chunksOf := FetchChunks(content);
    BatchEntrySource(ids, chunksOf, i);
    var j, k :| 0 <= j < |ids| && 0 <= k < |chunksOf(ids[j])|
      && BatchTexts(ids, chunksOf)[i] == chunksOf(ids[j])[k] && BatchMetas(ids, chunksOf)[i] == SourceMeta(ids[j]);
    Utils.ChunksWellFormed(content(ids[j]), MaxChars, Utils.DefaultOverlap, k);
  }
}
