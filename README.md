# DevMentor ingestion and pages, modelled in Dafny

DevMentor answers questions about a code repository through retrieval-augmented
generation. This project models the logic the application itself owns:

- **Configuration** (`Config`): the ignore lists, the chunking parameters, the
  default paths and the prompt template.
- **File collection** (`FileCollector`):
  - the `os.walk` traversal with pruning of ignored directory names;
  - the `splitext` extension filter.
  - The file system is a tree value: `Dir(name, subdirs, files)`.
  - The method keeps `os.walk`'s own stack of directories still to visit, and is proved equal to a recursive top-down walk.
- **Chunking** (`Chunker`): turning the splitter's output for one file into
  numbered records, and records into documents.
- **The ingestion pipeline** (`CreateVectorstore.RunPipeline`):
  - collect the files, chunk each one and concatenate its documents;
  - halt on no files or no documents;
  - otherwise build the index, then save it.
- **The Add Repo page** (`AddRepo`):
  - repository-name and clone-path derivation from the URL;
  - the overwrite-confirmation state kept in three session-state keys;
  - the log and verdict of an ingestion subprocess.
- **The Chat page** (`Chat`):
  - listing the indexed repositories;
  - the chat history that restarts when another repository is selected;
  - each prompt adds a question and its streamed answer.

Supporting modules:

- `PyStr`: the Python `str` operations the pages rely on:
  - `Concat`: the text that repeated `+=` of pieces builds.
  - `LastPiece`: `split("/")[-1]`.
  - `RemoveAll`: `replace(".git", "")`.
  - `RFind`: the last index of a character. It is used inside the `posixpath` model.
- `PosixPath`: CPython's `posixpath.join`, `basename` and `splitext`.
- `Session`: one Streamlit session-state key, absent or present.
- `Wrappers`: `Option`.

The following are parameters of the model:

- the directory tree found at the walked path (`None` when there is none);
- the result of reading a file (`None` when it cannot be opened or decoded as UTF-8);
- the text splitter's `split_text`;
- whether a path exists;
- what the ingestion subprocess prints and how it exits;
- the directory listing of the vector-store directory and which entries are directories;
- the chain loader, and what a chain streams for a prompt.

Building and saving the FAISS index, deleting a directory and running an
ingestion are recorded as events or effects, in the order they happen.

## Model

| member | source | states |
|---|---|---|
| Config.ChunkParametersSound | ingest/config.py:60-62 | The overlap is non-negative and smaller than the chunk size. |
| Config.ClonedReposIgnored | ingest/config.py:18 | "github_repos", where repositories are cloned, is an ignored directory name. |
| Config.IgnoredExtensionsDotted | ingest/config.py:23-54 | Every ignored extension starts with '.' and has at least one more character. This does not make each entry a possible `splitext` result: ".tar.gz" never is one (PosixPath.NoDoubleExtension). |
| Config.IgnoreDirsDistinct | ingest/config.py:9-19 | The ignored directory names contain no duplicate. |
| Config.IgnoreExtsDistinct | ingest/config.py:23-54 | The ignored extensions contain no duplicate. |
| Config.TemplatePlaceholders | ingest/config.py:68-81 | The template is brace-free text, "{context}", brace-free text, "{question}", brace-free text. So each placeholder occurs exactly once and there is no other brace. |
| Config.FillTemplate | ingest/chain_setup.py:55 | Filling the placeholders changes the length by exactly the difference between the values and the placeholders. `FillTemplate` models the formatting of this template by LangChain's `PromptTemplate.from_template` (built at ingest/chain_setup.py:55). |
| Config.FirstBraceSplit | ingest/config.py:68-81 | Brace-free text followed by a '{' can be cut from the rest in only one way. |
| Config.SlotsSplitUnique | ingest/config.py:68-81 | A text of the form brace-free, "{context}", brace-free, "{question}", brace-free has only one such cut. |
| Config.FillTemplateReplacesPlaceholders | ingest/chain_setup.py:55 | Take the template's brace-free cut around its placeholders (ingest/config.py:68-81). Filling puts the context in place of "{context}" and the question in place of "{question}", and keeps every other character. `FillTemplate` models the formatting of this template by LangChain's `PromptTemplate.from_template` (built at ingest/chain_setup.py:55). |
| Config.FillTemplateIdentity | ingest/chain_setup.py:55 | Filling the placeholders with their own names gives the template of ingest/config.py:68-81 back. `FillTemplate` models the formatting of this template by LangChain's `PromptTemplate.from_template` (built at ingest/chain_setup.py:55). |
| PyStr.Concat | pages/Add_Repo.py:41-42 | Definition: the text built by `+=` of the pieces in order, starting from "". Its properties are in the next two rows. |
| PyStr.ConcatAppend | pages/Add_Repo.py:41-42 | Accumulating pieces with `+=` distributes over concatenation of the piece lists. |
| PyStr.ConcatLength | pages/Chat.py:84-88 | The accumulated text is as long as all pieces together. |
| PyStr.LastPiece | pages/Add_Repo.py:63 | `split("/")[-1]` is the suffix after the last '/': it contains no '/', and it is preceded by '/' unless it is the whole string. |
| PyStr.RemoveAll | pages/Add_Repo.py:63 | `replace(".git", "")` never lengthens the string and introduces no new character. |
| PyStr.RemoveAllKeep | pages/Add_Repo.py:63 | A character that cannot start the pattern is kept, and removal continues after it. |
| PyStr.RemoveAllDrop | pages/Add_Repo.py:63 | An occurrence of the pattern at the front is removed, and removal continues after it. |
| PyStr.RemoveAllAbsent | pages/Add_Repo.py:63 | Without an occurrence of the pattern, `replace` changes nothing. |
| PyStr.RemoveGitSuffix | pages/Add_Repo.py:63 | If a name contains no ".git", removing ".git" from name + ".git" gives the name back. |
| PosixPath.Basename | ingest/chunker.py:31 | `basename` is the part after the last '/'. |
| PosixPath.Join | ingest/file_collector.py:31 | `join` returns an absolute second argument unchanged. Otherwise it gives the first argument, then a '/' unless the first is empty or ends in '/', then the second. |
| PosixPath.JoinRelative | ingest/file_collector.py:31 | Joining a relative name appends it to the prefix `join` puts in front. |
| PosixPath.Splitext | ingest/file_collector.py:27 | `splitext` splits the path into root and extension, which concatenate back to it. The extension is empty, or a single '.' followed by characters other than '.' and '/'. |
| PosixPath.ExtensionOfName | ingest/file_collector.py:27 | A file name has a non-empty extension exactly when some '.' in it has a character other than '.' before it. |
| PosixPath.ExtensionAfterLastDot | ingest/file_collector.py:27 | A non-empty extension is '.' followed by everything after the last '.'. |
| PosixPath.NoDoubleExtension | ingest/config.py:34 | An entry with two dots, such as ".tar.gz", is never an extension. |
| PosixPath.TarGzExtension | ingest/config.py:34 | The extension of "x.tar.gz" is ".gz". |
| PosixPath.DotFileHasNoExtension | ingest/config.py:53 | ".env" has no extension. |
| PosixPath.NamedEnvFileExtension | ingest/config.py:53 | "settings.env" has the extension ".env". |
| PosixPath.JoinAllCons | ingest/file_collector.py:20-31 | Joining names on one at a time, as the walk extends `root`, equals joining the first and then the rest. |
| PosixPath.JoinAllShape | ingest/file_collector.py:31 | A path built by joining names onto a base starts with the base's join prefix, is longer than it, and does not end in '/'. |
| PosixPath.JoinAllInjective | ingest/file_collector.py:20-31 | Different sequences of names joined onto the same base give different paths. |
| FileCollector.KeptFiles | ingest/file_collector.py:25-32 | Definition: for one directory, `join(root, f)` of each listed file `f` whose `splitext` extension is not ignored, in listing order. |
| FileCollector.Walk | ingest/file_collector.py:20-32 | Definition: a directory's kept files, then the walks of its subdirectories. This is the reference top-down order the traversal is proved against. |
| FileCollector.WalkSubdirs | ingest/file_collector.py:20-22 | Definition: the walks, in listing order, of the subdirectories whose names are not ignored, each reached by `join(root, name)`. |
| FileCollector.Collected | ingest/file_collector.py:7-34 | Definition: `[]` when there is no directory at the base path, otherwise the walk from the base path with the configured lists. |
| FileCollector.CollectFilesOf | ingest/file_collector.py:25-32 | The inner loop appends, in order, the joined path of every file of the directory whose extension is not ignored. |
| FileCollector.CollectTargetFiles | ingest/file_collector.py:7-34 | The stack-driven walk returns exactly the recursive top-down walk of the tree: nothing when the base path is missing, otherwise the directory's own kept files, then each kept subdirectory's walk, in listing order. |
| FileCollector.KeptFilesSound | ingest/file_collector.py:27-32 | Every path the inner loop appends is `join(root, f)` for a listed file `f` whose extension is not ignored. |
| FileCollector.KeptFilesComplete | ingest/file_collector.py:25-32 | Every listed file whose extension is not ignored is appended. |
| FileCollector.WalkSound | ingest/file_collector.py:20-32 | Every collected path is the path of a file reachable through directories that pruning keeps and whose extension is not ignored. |
| FileCollector.WalkSubdirsSound | ingest/file_collector.py:20-32 | The same soundness, for what is collected below the subdirectories. |
| FileCollector.WalkComplete | ingest/file_collector.py:20-32 | Every such reachable file's path is collected. |
| FileCollector.WalkSubdirsComplete | ingest/file_collector.py:20-32 | The same completeness, for the subdirectories. |
| FileCollector.CollectedExactly | ingest/file_collector.py:7-34 | A path is in the result if and only if it is the path of a reachable, kept file. |
| FileCollector.ReachableKept | ingest/file_collector.py:22 | Every directory on the way to a reachable file has a name that pruning keeps. |
| FileCollector.PathOfInjective | ingest/file_collector.py:31 | Two files at different places below the root get different paths. |
| FileCollector.PrunedNeverCollected | ingest/file_collector.py:20-22 | No returned path passes through a directory below the root whose name is ignored. |
| FileCollector.RootNeverPruned | ingest/file_collector.py:20-22 | The root's own files are collected whatever the root's name, even an ignored one. |
| FileCollector.CollectedUnderBase | ingest/file_collector.py:20-31 | Every returned path starts with the base path and its separator and is longer than that. |
| FileCollector.KeptFilesDistinct | ingest/file_collector.py:25-32 | The inner loop appends no path twice. |
| FileCollector.WalkDistinct | ingest/file_collector.py:20-32 | The walk returns no path twice, given that names within one directory are distinct. |
| FileCollector.WalkSubdirsDistinct | ingest/file_collector.py:20-32 | The same, for what is collected below sibling directories. |
| FileCollector.MissingBaseCollectsNothing | ingest/file_collector.py:18-34 | A missing base path gives the empty list, not an error. |
| FileCollector.ClonedReposNeverCollected | ingest/file_collector.py:22 | Nothing below a "github_repos" directory under the root is collected. |
| FileCollector.TarGzArchiveKept | ingest/config.py:34 | An "x.tar.gz" archive is collected despite the ".tar.gz" entry. |
| FileCollector.DotEnvKept | ingest/config.py:53 | A file named ".env" is collected despite the ".env" entry. |
| FileCollector.NamedEnvFileSkipped | ingest/config.py:53 | A file named "settings.env" is skipped. |
| FileCollector.WalkLocs | ingest/file_collector.py:20-32 | The walk's result is, position by position, the paths of a sequence of file locations. |
| FileCollector.OwnFilesFirst | ingest/file_collector.py:20-32 | Top-down order: a directory's own files come before every file from its subdirectories. |
| Chunker.ChunkFile | ingest/chunker.py:11-52 | A failed read gives no records. Otherwise the record contents are the split pieces in order. Record i has chunk id i, source equal to the path, and file name equal to the path's basename. |
| Chunker.ChunkIdsExact | ingest/chunker.py:44-51 | The chunk ids of a file are exactly 0..n-1, with no gap or repeat. |
| Chunker.ChunkRecordsShareFile | ingest/chunker.py:31-49 | All records of a file have the same source and file name. |
| Chunker.ToDocument | ingest/chunker.py:72-76 | Definition: a record's `content` becomes the page content; `chunk_id`, `source` and `file_name` become the metadata. |
| Chunker.FromDocument | ingest/chunker.py:72-76 | Definition: the inverse reading of a document back into a record; the next row proves the two inverse. |
| Chunker.DocumentRoundTrip | ingest/chunker.py:72-76 | A document carries its record's content as page content and the other three fields unchanged as metadata, so record and document determine each other. |
| Chunker.Documents | ingest/chunker.py:67-80 | There is one document per record, in order, each recovering its record. |
| Chunker.DocumentsAppend | ingest/chunker.py:67-80 | Converting two record lists one after the other equals converting their concatenation. |
| Chunker.CreateLangchainDocuments | ingest/chunker.py:55-80 | The loop produces exactly those documents. |
| CreateVectorstore.RunPipeline | ingest/create_vectorstore.py:11-58 | No collected file: halt with no event. No document: halt with no event. Otherwise build the index over the in-order concatenation of every file's documents, then save it to the configured path. The logged counts are those of files and documents. |
| CreateVectorstore.Gather | ingest/create_vectorstore.py:27-40 | Definition: the per-file document lists of the files, concatenated in file order. |
| CreateVectorstore.AllDocuments | ingest/create_vectorstore.py:27-40 | Definition: gathering where each file's documents are those made from its chunks. An unreadable file, or one for which the splitter returns no piece, gives none. |
| CreateVectorstore.ChunkTotal | ingest/create_vectorstore.py:45-46 | Definition: the sum over the files of their chunk counts. |
| CreateVectorstore.TotalIsSumOfChunkCounts | ingest/create_vectorstore.py:45-46 | The number of documents equals the sum of the per-file chunk counts. |
| CreateVectorstore.GatherAppend | ingest/create_vectorstore.py:28-40 | The documents of two lists of files are those of the first followed by those of the second. |
| CreateVectorstore.GatherSkip | ingest/create_vectorstore.py:32-34 | A file without documents leaves the gathered list unchanged. |
| CreateVectorstore.SkippedFileAddsNothing | ingest/create_vectorstore.py:32-34 | A file that yields no chunk, an unreadable one included, contributes nothing and does not stop the loop. |
| CreateVectorstore.DocumentsFromFiles | ingest/create_vectorstore.py:28-40 | Every document's source is one of the collected files, and the document carries one of that file's chunks. |
| CreateVectorstore.RunPipelineAsWritten | ingest/create_vectorstore.py:18-19 | As written, the collector call raises `AttributeError`, so nothing is built or saved. |
| AddRepo.RepoName | pages/Add_Repo.py:63 | The repository name contains no '/' and is no longer than the URL. |
| AddRepo.ClonePath | pages/Add_Repo.py:62-64 | Definition: `os.path.join("data/github_repos", repo_name)`. The next row states its form. |
| AddRepo.ClonePathInStorage | pages/Add_Repo.py:62-64 | The clone path is "data/github_repos/" followed by the repository name, which is its last component. |
| AddRepo.RepoNameOfSegment | pages/Add_Repo.py:63 | The repository name is the URL's last '/'-segment with every ".git" removed. |
| AddRepo.CloneUrlRoundTrip | pages/Add_Repo.py:63 | "<prefix>/<name>.git" and "<prefix>/<name>" both give `name` back, when `name` contains no '/' and no ".git". |
| AddRepo.RemoveGitExample | pages/Add_Repo.py:63 | Removing ".git" from "my.github.io" gives "myhub.io". |
| AddRepo.InnerGitRemoved | pages/Add_Repo.py:63 | A URL ending in "/my.github.io" gives the name "myhub.io": an inner ".git" is removed too. |
| AddRepo.TrailingSlashNamesStorageDir | pages/Add_Repo.py:62-64 | A URL ending in "/" gives the empty name, and the clone path is the storage directory itself. |
| AddRepo.Command | pages/Add_Repo.py:30 | Definition: the interpreter, then "-m", "ingest.create_vectorstore", "--url" and the URL. |
| AddRepo.DescribesUnique | pages/Add_Repo.py:41-52 | A process run determines the page's report: one log text and one verdict. |
| AddRepo.StartIngestion | pages/Add_Repo.py:26-54 | The log is the output lines concatenated in order. Success holds exactly when the exit status is 0. Any other exit status is reported as a failure with that code. An exception gives the error verdict. The command runs the pipeline module with "--url" and the URL. |
| Session.InitSlot | pages/Add_Repo.py:17-22 | Definition: a key that is absent gets its initial value, and a present key keeps its own. The pattern is the same at pages/Chat.py:27-30. |
| AddRepo.AddRepoPage.InitializeSessionState | pages/Add_Repo.py:17-22 | Absent keys get False, None and None. Keys already present keep their values. |
| AddRepo.AddRepoPage.OnDownload | pages/Add_Repo.py:59-76 | An empty URL only warns and leaves the keys unchanged. An existing clone path sets the three keys together and starts nothing. Otherwise the URL is ingested at once and the keys are left unchanged. |
| AddRepo.AddRepoPage.OnConfirmYes | pages/Add_Repo.py:90-103 | The remembered clone path is deleted, then the remembered URL is ingested, and only then are the keys reset. |
| AddRepo.AddRepoPage.OnConfirmNo | pages/Add_Repo.py:106-113 | The keys are reset to False, None and None. Nothing is deleted or ingested. |
| AddRepo.AddRepoPage.Run | pages/Add_Repo.py:17-113 | One run of the page keeps the keys consistent: a confirmation is pending exactly when a URL is remembered, and the remembered directory is that URL's clone path. The effects of each button:<br>• No button: nothing happens, and the keys keep their values (False, None, None in a new session).<br>• Download with an empty URL: a warning, nothing else.<br>• Download with a missing clone path: one ingestion of that URL, described by its process run, with the keys untouched.<br>• Download with an existing clone path: nothing is started, and the keys remember that URL and its clone path.<br>• Yes, with a confirmation pending: the remembered clone path is deleted, the remembered URL is ingested (described by its run), and the keys are reset.<br>• No, with a confirmation pending: the keys are reset, nothing else.<br>• Yes or No with nothing pending: nothing. |
| Chat.Directories | pages/Chat.py:11-12 | The entries for which `isdir(join("data/vector_stores", entry))` holds, in listing order. The contract bounds the result by the listing; membership and order are in the next two rows. |
| Chat.DirectoriesExactly | pages/Chat.py:11-12 | An entry is listed exactly when it is a directory. |
| Chat.DirectoriesAppend | pages/Chat.py:11-12 | The filter keeps the listing's order: it distributes over concatenation. |
| Chat.AllDirectoriesListed | pages/Chat.py:11-12 | When every entry is a directory, all are listed, in the same order. |
| Chat.GetAvailableGithubRepos | pages/Chat.py:7-13 | A missing store directory gives []. Otherwise the result holds exactly the entries that are directories. |
| Chat.SelectedRepo | pages/Chat.py:44-47 | The selected repository is one of the listed ones. |
| Chat.ExchangeKeepsAlternating | pages/Chat.py:77-95 | Appending a user message and then an assistant message keeps the history alternating, starting with the user. |
| Chat.AccumulateStream | pages/Chat.py:84-88 | The character-by-character loop yields the concatenation of the streamed fragments, each character once. |
| Chat.StreamExample | pages/Chat.py:84-88 | Fragments "Hel" and "lo" give "Hello". |
| Chat.ChatPage.InitializeSessionState | pages/Chat.py:27-30 | Absent keys get [] and None. Keys already present keep their values. |
| Chat.ChatPage.SwitchRepo | pages/Chat.py:50-54 | Selecting a repository other than the active one empties the history and makes it active. Re-selecting the same one keeps the history. |
| Chat.ChatPage.AnswerPrompt | pages/Chat.py:74-95 | A prompt appends exactly two messages: the user's prompt, then the assistant's streamed answer. |
| Chat.ChatPage.Run | pages/Chat.py:27-95 | An empty listing stops with the history untouched. A missing chain stops after the repository switch. Otherwise a submitted prompt adds its exchange. The history stays alternating. |

## Left out

- Streamlit rendering is not modelled: widgets, messages, spinners, the typewriter delay (`time.sleep`) and the logger. `st.stop` and `st.rerun` are modelled only as the end of a run.
- One click is modelled per run of the Add Repo page, as in Streamlit. A confirmation click with no confirmation pending does nothing, since the button was not shown.
- `shutil.rmtree` is recorded as an effect and assumed to succeed. Were it to raise, the flags would stay set.
- Cloning is not modelled: no code in these files clones a repository.
- `--url` is ignored. The ingestion command passes it, but the pipeline's `main` parses no arguments and ingests `TARGET_REPO_PATH`.
- `RecursiveCharacterTextSplitter` is uninterpreted, so no chunk length or overlap bound is stated. The model records only the settings it is built with.
- Config.FillTemplate: this models only the placeholder substitution that LangChain's `PromptTemplate` performs on the template at `ingest/chain_setup.py:55`. The rest of `PromptTemplate` is not modelled, nor is the chain built around it.
- The embedding model (`ingest/embedding_generator.py`), FAISS and the Gemini chain (`ingest/chain_setup.py`) are left out: they are foreign libraries, floating point and the network.
  - Building and saving the index are events.
  - Loading a chain is an oracle returning `Option`.
- `query_rag.py` and `app.py` are left out.
- `VECTOR_STORE_PATH`: only the default "../vector_store" is modelled. The environment override is left out.
- File-system failures are not modelled: symbolic links, permission errors during the walk and directories changing while the walk runs. Entries are assumed to be non-empty names without '/', which is what `os.listdir` returns.
- FileCollector.CollectFilesOf: this is the body of the inner `for filename in files` loop, written as its own method.
- Walk parameters: the specification functions take the ignore lists as a parameter. `Collected` and the method use the configured lists.
- FileCollector.OwnFilesFirst: this states top-down order as "own files first". The order among sibling subdirectories (listing order) is fixed by the definition the method is proved equal to; no separate lemma states it.
- Chat.ChatPage.Run: a stream that raises part-way is not modelled. It would leave a user message without an answer.
- The `__main__` block of `ingest/file_collector.py` is a manual entry point and is left out. It makes the same two-argument call as the pipeline.
- Chat.ChatPage.Run: `pages/Chat.py:58` calls `load_rag_chain(selected_repo)`, but `ingest/chain_setup.py:18` takes no argument, so the call as written raises `TypeError`. The model instead passes the repository to a chain-loader oracle, as if the argument were accepted. What a real loader would do with it is not modelled.
- `collect_target_files` joins the paths it returns onto `base_path`. They are absolute only when `base_path` is, although the docstring (`ingest/file_collector.py:16`) announces absolute paths.
- `collect_target_files` has no file-size limit and no include list; only the two ignore lists apply. A missing base path yields `[]`, because `os.walk` yields nothing for it.

## Findings

| source | as written | input that shows it | evidently intended | confidence | as-written member | corrected member |
|---|---|---|---|---|---|---|
| ingest/create_vectorstore.py:18-19 | `collect_target_files(config.TARGET_REPO_PATH, config.FILE_EXTENSIONS)` reads a name the configuration does not define, and passes two arguments to a one-parameter function | any run of the pipeline: `AttributeError` before any file is collected | `collect_target_files(config.TARGET_REPO_PATH)` | high (not executed) | CreateVectorstore.RunPipelineAsWritten | CreateVectorstore.RunPipeline |
