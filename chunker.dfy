/**
 * `ingest/chunker.py`: turning one file into numbered chunk records, and
 * chunk records into LangChain documents.
 *
 * The file read is an oracle (`None` when the file cannot be opened or is
 * not valid UTF-8) and `RecursiveCharacterTextSplitter.split_text` is an
 * uninterpreted function of the splitter's settings and the text.
 */
module Chunker {
  import opened Wrappers
  import opened PyStr
  import opened PosixPath
  import Config

  /** The settings the splitter is built with. */
  datatype SplitterSettings = SplitterSettings(chunkSize: int, chunkOverlap: int, separators: seq<string>)

  /** The splitter `chunk_file` builds: sizes from the configuration, separators from paragraph down to character. */
  const SPLITTER := SplitterSettings(Config.CHUNK_SIZE, Config.CHUNK_OVERLAP, ["\n\n", "\n", ".", " ", ""])

  /** `split_text` of a splitter with the given settings. */
  type SplitText = (SplitterSettings, string) -> seq<string>

  /** One dictionary of the list `chunk_file` returns. */
  datatype ChunkRecord = ChunkRecord(chunkId: nat, content: string, source: string, fileName: string)

  /** The metadata dictionary of a document: exactly these three keys. */
  datatype Metadata = Metadata(chunkId: nat, source: string, fileName: string)

  /** A LangChain `Document`. */
  datatype Document = Document(pageContent: string, metadata: Metadata)

  /** The `content` fields of `records`, in order. */
  function Contents(records: seq<ChunkRecord>): (r: seq<string>)
    ensures |r| == |records|
    ensures forall i | 0 <= i < |r| :: r[i] == records[i].content
  {
    seq(|records|, i requires 0 <= i < |records| => records[i].content)
  }

  /**
   * `chunk_file(file_path)`, given what reading the file produced: nothing
   * when the read failed; otherwise one record per piece the splitter
   * returns, numbered from 0, each naming the file and its base name.
   */
  function ChunkFile(filePath: string, read: Option<string>, splitText: SplitText): (r: seq<ChunkRecord>)
    ensures read.None? ==> r == []
    ensures read.Some? ==> Contents(r) == splitText(SPLITTER, read.value)
    ensures forall i | 0 <= i < |r| :: r[i].chunkId == i
    ensures forall i | 0 <= i < |r| :: r[i].source == filePath && IsTailAfter(filePath, '/', r[i].fileName)
  {
    match read
    case None => []
    case Some(text) =>
      var fileName := Basename(filePath);
      var chunks := splitText(SPLITTER, text);
      seq(|chunks|, i requires 0 <= i < |chunks| => ChunkRecord(i, chunks[i], filePath, fileName))
  }

  /** The `chunk_id` values of `records`. */
  function ChunkIds(records: seq<ChunkRecord>): set<nat>
  {
    set i | 0 <= i < |records| :: records[i].chunkId
  }

  /** The chunk ids of a file's records are 0, 1, ..., n - 1: every one of them once. */
  lemma ChunkIdsExact(filePath: string, read: Option<string>, splitText: SplitText)
    ensures var r := ChunkFile(filePath, read, splitText);
      forall n: nat :: n in ChunkIds(r) <==> n < |r|
  {
    var r := ChunkFile(filePath, read, splitText);
    forall n: nat | n < |r| ensures n in ChunkIds(r) {
      assert r[n].chunkId == n;
    }
  }

  /** All records of a file share one source and one base name. */
  lemma ChunkRecordsShareFile(filePath: string, read: Option<string>, splitText: SplitText, i: int, j: int)
    requires var r := ChunkFile(filePath, read, splitText); 0 <= i < |r| && 0 <= j < |r|
    ensures var r := ChunkFile(filePath, read, splitText);
      r[i].source == r[j].source && r[i].fileName == r[j].fileName
  {
    var r := ChunkFile(filePath, read, splitText);
    TailAfterUnique(filePath, '/', r[i].fileName, r[j].fileName);
  }

  /** The `Document` built for one record: `content` becomes the page content, the rest the metadata. */
  function ToDocument(c: ChunkRecord): Document
  {
    Document(c.content, Metadata(c.chunkId, c.source, c.fileName))
  }

  /** The record a document was built from. */
  function FromDocument(d: Document): ChunkRecord
  {
    ChunkRecord(d.metadata.chunkId, d.pageContent, d.metadata.source, d.metadata.fileName)
  }

  /** Nothing is lost or added on the way: records and documents correspond one to one. */
  lemma DocumentRoundTrip(c: ChunkRecord, d: Document)
    ensures FromDocument(ToDocument(c)) == c
    ensures ToDocument(FromDocument(d)) == d
  {
  }

  /** The documents for `chunks`, one per record, in order. */
  function Documents(chunks: seq<ChunkRecord>): (r: seq<Document>)
    ensures |r| == |chunks|
    ensures forall i | 0 <= i < |r| :: FromDocument(r[i]) == chunks[i]
  {
    if chunks == [] then [] else Documents(chunks[..|chunks| - 1]) + [ToDocument(chunks[|chunks| - 1])]
  }

  /** Building documents for two lists one after the other is building them for both. */
  lemma {:induction false} DocumentsAppend(a: seq<ChunkRecord>, b: seq<ChunkRecord>)
    ensures Documents(a + b) == Documents(a) + Documents(b)
    decreases |b|
  {
    if b == [] {
      assert a + b == a;
    } else {
      var init := b[..|b| - 1];
      assert (a + b)[..|a + b| - 1] == a + init;
      DocumentsAppend(a, init);
    }
  }

  /** `create_langchain_documents(chunks)`: one document per record, appended in order. */
  method CreateLangchainDocuments(chunks: seq<ChunkRecord>) returns (langchainDocuments: seq<Document>)
    ensures langchainDocuments == Documents(chunks)
  {
    langchainDocuments := [];
    for i := 0 to |chunks|
      invariant langchainDocuments == Documents(chunks[..i])
    {
      var doc := Document(chunks[i].content, Metadata(chunks[i].chunkId, chunks[i].source, chunks[i].fileName));
      assert chunks[..i + 1][..i] == chunks[..i];
      langchainDocuments := langchainDocuments + [doc];
    }
    assert chunks[..|chunks|] == chunks;
  }
}
