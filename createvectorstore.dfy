/**
 * `ingest/create_vectorstore.py`: the ingestion pipeline. It collects the
 * files of the target repository, chunks each one, turns the chunks into
 * documents, and builds and saves a FAISS index over all of them.
 *
 * The directory tree at the target path, the file reads and the splitter
 * are parameters. Building and saving the index are recorded as events.
 */
module CreateVectorstore {
  import opened Wrappers
  import Config
  import FileCollector
  import opened Chunker

  /** What the pipeline does to the vector store, in order. */
  datatype Event = BuildIndex(documents: seq<Document>) | SaveIndex(path: string)

  /** How `main` ends, with the counts it logs. */
  datatype Outcome =
    | NoFilesCollected
    | NoDocumentsCreated
    | Completed(collected: nat, total: nat)

  /** Reading a file as UTF-8 text; `None` when that fails. */
  type ReadFile = string -> Option<string>

  /** The documents one file contributes: those built from its chunks. */
  function FileDocuments(read: ReadFile, splitText: SplitText): string -> seq<Document>
  {
    path => Documents(ChunkFile(path, read(path), splitText))
  }

  /** The documents of `files`, given the documents each file contributes: file after file. */
  function Gather(files: seq<string>, docsOf: string -> seq<Document>): seq<Document>
  {
    if files == [] then [] else Gather(files[..|files| - 1], docsOf) + docsOf(files[|files| - 1])
  }

  /** The documents `main` gathers from `files`. */
  function AllDocuments(files: seq<string>, read: ReadFile, splitText: SplitText): seq<Document>
  {
    Gather(files, FileDocuments(read, splitText))
  }

  /** The number of chunks `chunk_file` gives for each of `files`, added up. */
  function ChunkTotal(files: seq<string>, read: ReadFile, splitText: SplitText): nat
  {
    if files == [] then 0
    else
      var f := files[|files| - 1];
      ChunkTotal(files[..|files| - 1], read, splitText) + |ChunkFile(f, read(f), splitText)|
  }

  /** The total the pipeline logs is the sum of the per-file chunk counts. */
  lemma {:induction false} TotalIsSumOfChunkCounts(files: seq<string>, read: ReadFile, splitText: SplitText)
    ensures |AllDocuments(files, read, splitText)| == ChunkTotal(files, read, splitText)
  {
    if files != [] {
      TotalIsSumOfChunkCounts(files[..|files| - 1], read, splitText);
    }
  }

  /** The documents of two lists of files are those of the first followed by those of the second. */
  lemma {:induction false} GatherAppend(a: seq<string>, b: seq<string>, docsOf: string -> seq<Document>)
    ensures Gather(a + b, docsOf) == Gather(a, docsOf) + Gather(b, docsOf)
    decreases |b|
  {
    if b == [] {
      assert a + b == a;
    } else {
      var init := b[..|b| - 1];
      assert (a + b)[..|a + b| - 1] == a + init;
      GatherAppend(a, init, docsOf);
    }
  }

  /** A file without documents leaves the gathered list as it would be without the file. */
  lemma GatherSkip(files: seq<string>, f: string, rest: seq<string>, docsOf: string -> seq<Document>)
    requires docsOf(f) == []
    ensures Gather(files + [f] + rest, docsOf) == Gather(files + rest, docsOf)
  {
    GatherAppend(files + [f], rest, docsOf);
    GatherAppend(files, rest, docsOf);
    assert (files + [f])[..|files|] == files;
  }

  /** A file that yields no chunks, unreadable ones included, adds nothing and does not stop the others. */
  lemma SkippedFileAddsNothing(files: seq<string>, f: string, rest: seq<string>, read: ReadFile, splitText: SplitText)
    requires ChunkFile(f, read(f), splitText) == []
    ensures AllDocuments(files + [f] + rest, read, splitText) == AllDocuments(files + rest, read, splitText)
  {
    var docsOf := FileDocuments(read, splitText);
    assert docsOf(f) == [];
    GatherSkip(files, f, rest, docsOf);
  }

  /** Every document names, as its source, one of the files it came from, and carries one of that file's chunks. */
  lemma {:induction false} DocumentsFromFiles(files: seq<string>, read: ReadFile, splitText: SplitText, i: int)
    requires 0 <= i < |AllDocuments(files, read, splitText)|
    ensures var d := AllDocuments(files, read, splitText)[i];
      && d.metadata.source in files
      && FromDocument(d) in ChunkFile(d.metadata.source, read(d.metadata.source), splitText)
  {
    var init, f := files[..|files| - 1], files[|files| - 1];
    var before := AllDocuments(init, read, splitText);
    if i < |before| {
      DocumentsFromFiles(init, read, splitText, i);
    } else {
      var chunks := ChunkFile(f, read(f), splitText);
      var k := i - |before|;
      assert FromDocument(Documents(chunks)[k]) == chunks[k];
    }
  }

  /**
   * `main()`, with the one-argument call of the collector: stop when no file
   * was collected; chunk every file, skipping those without chunks; stop when
   * no document was made; otherwise build the index over all documents and
   * save it to the configured path.
   */
  method RunPipeline(tree: Option<FileCollector.Dir>, read: ReadFile, splitText: SplitText)
    returns (outcome: Outcome, events: seq<Event>)
    ensures var files := FileCollector.Collected(Config.TARGET_REPO_PATH, tree);
      var docs := AllDocuments(files, read, splitText);
      && (files == [] ==> outcome == NoFilesCollected && events == [])
      && (files != [] && docs == [] ==> outcome == NoDocumentsCreated && events == [])
      && (files != [] && docs != [] ==>
            && outcome == Completed(|files|, |docs|)
            && events == [BuildIndex(docs), SaveIndex(Config.VECTOR_STORE_PATH)])
  {
    var collectedFiles := FileCollector.CollectTargetFiles(Config.TARGET_REPO_PATH, tree);
    if collectedFiles == [] {
      return NoFilesCollected, [];
    }
    var allLangchainDocuments := [];
    for i := 0 to |collectedFiles|
      invariant allLangchainDocuments == AllDocuments(collectedFiles[..i], read, splitText)
    {
      var filePath := collectedFiles[i];
      assert collectedFiles[..i + 1][..i] == collectedFiles[..i];
      var rawChunk := ChunkFile(filePath, read(filePath), splitText);
      if rawChunk == [] {
        continue;
      }
      var documentsForFile := CreateLangchainDocuments(rawChunk);
      allLangchainDocuments := allLangchainDocuments + documentsForFile;
    }
    assert collectedFiles[..|collectedFiles|] == collectedFiles;
    if allLangchainDocuments == [] {
      return NoDocumentsCreated, [];
    }
    events := [BuildIndex(allLangchainDocuments), SaveIndex(Config.VECTOR_STORE_PATH)];
    outcome := Completed(|collectedFiles|, |allLangchainDocuments|);
  }

  /**
   * `main()` as written: the collector is called with `config.FILE_EXTENSIONS`
   * as a second argument. The configuration defines no such name, so looking
   * it up raises `AttributeError` before anything is collected; were it
   * defined, the call would still raise `TypeError`, as the collector takes
   * one argument. Either way nothing is built or saved.
   */
  method RunPipelineAsWritten(tree: Option<FileCollector.Dir>, read: ReadFile, splitText: SplitText)
    returns (raised: Option<string>, events: seq<Event>)
    ensures raised == Some("AttributeError") && events == []
  {
    if "FILE_EXTENSIONS" !in Config.MODULE_NAMES {
      return Some("AttributeError"), [];
    }
    return Some("TypeError"), [];
  }
}
