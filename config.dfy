/**
 * The ingestion settings (`ingest/config.py`): the directory and extension
 * ignore lists, the chunking parameters, the default paths, the embedding
 * model name and the prompt template of the question-answering chain.
 */
module Config {
  import opened PyStr

  /** Repository ingested when the pipeline is run on its own. */
  const TARGET_REPO_PATH: string := "../cookiecutter-django"

  /** Directory names the file collector never descends into. */
  const IGNORE_DIRS: seq<string> := [
    ".git", "__pycache__", "node_modules", ".venv", "venv", "env",
    "build", "dist", "github_repos"
  ]

  /** File extensions the file collector skips: a file is skipped when `splitext`'s extension of its name is one of them. */
  const IGNORE_EXTS: seq<string> := [
    ".pyc", ".so", ".exe", ".dll", ".jar", ".o",
    ".zip", ".tar.gz", ".rar",
    ".png", ".jpg", ".jpeg", ".gif", ".bmp", ".svg",
    ".mp4", ".mov", ".avi", ".mp3", ".wav",
    ".db", ".sqlite3", ".env"
  ]

  /** Where the vector store is saved: the default used when the environment does not override it. */
  const VECTOR_STORE_PATH: string := "../vector_store"

  /** Maximum characters per chunk. */
  const CHUNK_SIZE: int := 500

  /** Characters shared by consecutive chunks. */
  const CHUNK_OVERLAP: int := 100

  const EMBEDDING_MODEL_NAME: string := "BAAI/bge-small-en-v1.5"

  /**
   * The instructions that precede the `{context}` placeholder of the prompt
   * template, cut into short pieces so that facts about each piece can be
   * established one at a time; the text is their concatenation.
   */
  const PREAMBLE_PIECES: seq<string> := [
    "\nYou are DevMentor, a helpful ",
    "and patient AI assistant ",
    "for developers who are new ",
    "to this project. Your main ",
    "goal is to provide clear, ",
    "step-by-step, beginner-friendly ",
    "guidance.\n\nUse the following ",
    "retrieved context as your ",
    "primary source of truth ",
    "to answer the user's question.\n",
    "\nIf the context gives high-level ",
    "steps (like 'Fork the repo'), ",
    "you MUST use your own general ",
    "software development knowledge ",
    "to explain those steps in ",
    "detail for a beginner (e.g., ",
    "explain what forking is, ",
    "provide a sample git command).\n",
    "\nIf the context does not ",
    "contain the answer, you ",
    "are allowed to say that ",
    "the information is not in ",
    "the repository's documentation ",
    "and provide a typical answer ",
    "based on your general knowledge ",
    "(for example, suggesting ",
    "'pip install -r requirements.txt' ",
    "if asked about dependencies).\n",
    "\nContext:\n"
  ]

  const CONTEXT_SLOT: string := "{context}"
  const QUESTION_SLOT: string := "{question}"
  /** Text between the two placeholders. */
  const BETWEEN_SLOTS: string := "\n\nQuestion: "
  /** Text after the last placeholder. */
  const AFTER_SLOTS: string := "\n"

  /** The prompt template, with its placeholders for the retrieved context and the user's question. */
  const RAG_PROMPT_TEMPLATE: string :=
    Concat(PREAMBLE_PIECES) + CONTEXT_SLOT + BETWEEN_SLOTS + QUESTION_SLOT + AFTER_SLOTS

  /**
   * The names `ingest/config.py` itself binds at top level (`os` through its
   * import). Besides these the module object carries only the attributes
   * every module has (`__name__`, `__file__`, `__doc__`, ...), none of which
   * is `FILE_EXTENSIONS`.
   */
  const MODULE_NAMES: set<string> := {
    "os", "TARGET_REPO_PATH", "IGNORE_DIRS", "IGNORE_EXTS", "VECTOR_STORE_PATH",
    "CHUNK_SIZE", "CHUNK_OVERLAP", "EMBEDDING_MODEL_NAME", "RAG_PROMPT_TEMPLATE"
  }

  predicate BraceFree(s: string)
  {
    forall i | 0 <= i < |s| :: s[i] != '{' && s[i] != '}'
  }

  /**
   * What formatting the template with a context and a question produces:
   * each placeholder replaced by its value, the rest kept.
   */
  function FillTemplate(context: string, question: string): (r: string)
    ensures |r| == |RAG_PROMPT_TEMPLATE| - |CONTEXT_SLOT| - |QUESTION_SLOT| + |context| + |question|
  {
    Concat(PREAMBLE_PIECES) + context + BETWEEN_SLOTS + question + AFTER_SLOTS
  }

  /** The splitter's parameters are usable: the overlap is smaller than a chunk. */
  lemma ChunkParametersSound()
    ensures 0 <= CHUNK_OVERLAP < CHUNK_SIZE
  {
  }

  /** The clone directory of the Add Repo page is never indexed again. */
  lemma ClonedReposIgnored()
    ensures "github_repos" in IGNORE_DIRS
  {
  }

  /** Every ignored extension has a leading '.' and at least one more character. */
  lemma IgnoredExtensionsDotted()
    ensures forall k | 0 <= k < |IGNORE_EXTS| :: |IGNORE_EXTS[k]| >= 2 && IGNORE_EXTS[k][0] == '.'
  {
  }

  lemma IgnoreDirsDistinct()
    ensures Distinct(IGNORE_DIRS)
  {
  }

  // Facts about the literal lists and the template text are established a
  // few entries or pieces at a time (IgnoreExtsDistinctFrom0 .. 20,
  // PiecesBraceFree0 .. 9): stated for the whole literal at once, the
  // solver has to expand every entry in one proof and does not finish.

  lemma IgnoreExtsDistinctFrom0()
    ensures forall i, j | 0 <= i < 4 && i < j < |IGNORE_EXTS| :: IGNORE_EXTS[i] != IGNORE_EXTS[j]
  {
  }

  lemma IgnoreExtsDistinctFrom4()
    ensures forall i, j | 4 <= i < 8 && i < j < |IGNORE_EXTS| :: IGNORE_EXTS[i] != IGNORE_EXTS[j]
  {
  }

  lemma IgnoreExtsDistinctFrom8()
    ensures forall i, j | 8 <= i < 12 && i < j < |IGNORE_EXTS| :: IGNORE_EXTS[i] != IGNORE_EXTS[j]
  {
  }

  lemma IgnoreExtsDistinctFrom12()
    ensures forall i, j | 12 <= i < 16 && i < j < |IGNORE_EXTS| :: IGNORE_EXTS[i] != IGNORE_EXTS[j]
  {
  }

  lemma IgnoreExtsDistinctFrom16()
    ensures forall i, j | 16 <= i < 20 && i < j < |IGNORE_EXTS| :: IGNORE_EXTS[i] != IGNORE_EXTS[j]
  {
  }

  lemma IgnoreExtsDistinctFrom20()
    ensures forall i, j | 20 <= i < 23 && i < j < |IGNORE_EXTS| :: IGNORE_EXTS[i] != IGNORE_EXTS[j]
  {
  }

  lemma IgnoreExtsDistinct()
    ensures Distinct(IGNORE_EXTS)
  {
    IgnoreExtsDistinctFrom0();
    IgnoreExtsDistinctFrom4();
    IgnoreExtsDistinctFrom8();
    IgnoreExtsDistinctFrom12();
    IgnoreExtsDistinctFrom16();
    IgnoreExtsDistinctFrom20();
  }

  lemma {:induction false} ConcatBraceFree(parts: seq<string>)
    requires forall k | 0 <= k < |parts| :: BraceFree(parts[k])
    ensures BraceFree(Concat(parts))
  {
    if parts != [] {
      ConcatBraceFree(parts[..|parts| - 1]);
    }
  }

  lemma PiecesBraceFree0()
    ensures forall k | 0 <= k < 3 :: BraceFree(PREAMBLE_PIECES[k])
  {
    assert BraceFree(PREAMBLE_PIECES[0]);
    assert BraceFree(PREAMBLE_PIECES[1]);
    assert BraceFree(PREAMBLE_PIECES[2]);
  }

  lemma PiecesBraceFree1()
    ensures forall k | 3 <= k < 6 :: BraceFree(PREAMBLE_PIECES[k])
  {
    assert BraceFree(PREAMBLE_PIECES[3]);
    assert BraceFree(PREAMBLE_PIECES[4]);
    assert BraceFree(PREAMBLE_PIECES[5]);
  }

  lemma PiecesBraceFree2()
    ensures forall k | 6 <= k < 9 :: BraceFree(PREAMBLE_PIECES[k])
  {
    assert BraceFree(PREAMBLE_PIECES[6]);
    assert BraceFree(PREAMBLE_PIECES[7]);
    assert BraceFree(PREAMBLE_PIECES[8]);
  }

  lemma PiecesBraceFree3()
    ensures forall k | 9 <= k < 12 :: BraceFree(PREAMBLE_PIECES[k])
  {
    assert BraceFree(PREAMBLE_PIECES[9]);
    assert BraceFree(PREAMBLE_PIECES[10]);
    assert BraceFree(PREAMBLE_PIECES[11]);
  }

  lemma PiecesBraceFree4()
    ensures forall k | 12 <= k < 15 :: BraceFree(PREAMBLE_PIECES[k])
  {
    assert BraceFree(PREAMBLE_PIECES[12]);
    assert BraceFree(PREAMBLE_PIECES[13]);
    assert BraceFree(PREAMBLE_PIECES[14]);
  }

  lemma PiecesBraceFree5()
    ensures forall k | 15 <= k < 18 :: BraceFree(PREAMBLE_PIECES[k])
  {
    assert BraceFree(PREAMBLE_PIECES[15]);
    assert BraceFree(PREAMBLE_PIECES[16]);
    assert BraceFree(PREAMBLE_PIECES[17]);
  }

  lemma PiecesBraceFree6()
    ensures forall k | 18 <= k < 21 :: BraceFree(PREAMBLE_PIECES[k])
  {
    assert BraceFree(PREAMBLE_PIECES[18]);
    assert BraceFree(PREAMBLE_PIECES[19]);
    assert BraceFree(PREAMBLE_PIECES[20]);
  }

  lemma PiecesBraceFree7()
    ensures forall k | 21 <= k < 24 :: BraceFree(PREAMBLE_PIECES[k])
  {
    assert BraceFree(PREAMBLE_PIECES[21]);
    assert BraceFree(PREAMBLE_PIECES[22]);
    assert BraceFree(PREAMBLE_PIECES[23]);
  }

  lemma PiecesBraceFree8()
    ensures forall k | 24 <= k < 27 :: BraceFree(PREAMBLE_PIECES[k])
  {
    assert BraceFree(PREAMBLE_PIECES[24]);
    assert BraceFree(PREAMBLE_PIECES[25]);
    assert BraceFree(PREAMBLE_PIECES[26]);
  }

  lemma PiecesBraceFree9()
    ensures forall k | 27 <= k < |PREAMBLE_PIECES| :: BraceFree(PREAMBLE_PIECES[k])
  {
    assert BraceFree(PREAMBLE_PIECES[27]);
    assert BraceFree(PREAMBLE_PIECES[28]);
  }

  /** The fixed text around the placeholders has no brace. */
  lemma TemplateTextBraceFree()
    ensures BraceFree(Concat(PREAMBLE_PIECES)) && BraceFree(BETWEEN_SLOTS) && BraceFree(AFTER_SLOTS)
  {
    PiecesBraceFree0();
    PiecesBraceFree1();
    PiecesBraceFree2();
    PiecesBraceFree3();
    PiecesBraceFree4();
    PiecesBraceFree5();
    PiecesBraceFree6();
    PiecesBraceFree7();
    PiecesBraceFree8();
    PiecesBraceFree9();
    ConcatBraceFree(PREAMBLE_PIECES);
    assert BraceFree(BETWEEN_SLOTS);
    assert BraceFree(AFTER_SLOTS);
  }

  /**
   * The template's only braces are those of its two placeholders: it is
   * brace-free text, `{context}`, brace-free text, `{question}`, brace-free
   * text. So each placeholder occurs exactly once and there is no other.
   */
  lemma TemplatePlaceholders()
    ensures exists pre, mid, post ::
      && RAG_PROMPT_TEMPLATE == pre + "{context}" + mid + "{question}" + post
      && BraceFree(pre) && BraceFree(mid) && BraceFree(post)
  {
    TemplateTextBraceFree();
  }

  /** Brace-free text followed by an opening brace is cut there in one way only. */
  lemma FirstBraceSplit(p1: string, r1: string, p2: string, r2: string)
    requires p1 + r1 == p2 + r2
    requires BraceFree(p1) && BraceFree(p2)
    requires |r1| > 0 && r1[0] == '{' && |r2| > 0 && r2[0] == '{'
    ensures p1 == p2 && r1 == r2
  {
    var t := p1 + r1;
    assert t == p2 + r2;
    assert forall k | 0 <= k < |p1| :: t[k] == p1[k];
    assert forall k | 0 <= k < |p2| :: t[k] == p2[k];
    assert t[|p1|] == '{' && t[|p2|] == '{';
    assert p1 == t[..|p1|] && p2 == t[..|p2|];
    assert r1 == t[|p1|..] && r2 == t[|p2|..];
  }

  lemma Regroup5(a: string, b: string, c: string, d: string, e: string)
    ensures a + b + c + d + e == a + (b + (c + d + e))
    ensures c + d + e == c + (d + e)
  {
  }

  /** A text with the template's shape determines its three brace-free parts. */
  lemma SlotsSplitUnique(pre1: string, mid1: string, post1: string, pre2: string, mid2: string, post2: string)
    requires pre1 + CONTEXT_SLOT + mid1 + QUESTION_SLOT + post1 == pre2 + CONTEXT_SLOT + mid2 + QUESTION_SLOT + post2
    requires BraceFree(pre1) && BraceFree(mid1) && BraceFree(post1)
    requires BraceFree(pre2) && BraceFree(mid2) && BraceFree(post2)
    ensures pre1 == pre2 && mid1 == mid2 && post1 == post2
  {
    var tail1, tail2 := mid1 + QUESTION_SLOT + post1, mid2 + QUESTION_SLOT + post2;
    Regroup5(pre1, CONTEXT_SLOT, mid1, QUESTION_SLOT, post1);
    Regroup5(pre2, CONTEXT_SLOT, mid2, QUESTION_SLOT, post2);
    FirstBraceSplit(pre1, CONTEXT_SLOT + tail1, pre2, CONTEXT_SLOT + tail2);
    assert tail1 == (CONTEXT_SLOT + tail1)[|CONTEXT_SLOT|..];
    assert tail2 == (CONTEXT_SLOT + tail2)[|CONTEXT_SLOT|..];
    FirstBraceSplit(mid1, QUESTION_SLOT + post1, mid2, QUESTION_SLOT + post2);
    assert post1 == (QUESTION_SLOT + post1)[|QUESTION_SLOT|..];
    assert post2 == (QUESTION_SLOT + post2)[|QUESTION_SLOT|..];
  }

  /**
   * Filling the template puts the context where `{context}` stands and the
   * question where `{question}` stands, and keeps all other text: for the
   * (unique) brace-free cut of the template around its placeholders.
   */
  lemma FillTemplateReplacesPlaceholders(context: string, question: string, pre: string, mid: string, post: string)
    requires RAG_PROMPT_TEMPLATE == pre + CONTEXT_SLOT + mid + QUESTION_SLOT + post
    requires BraceFree(pre) && BraceFree(mid) && BraceFree(post)
    ensures FillTemplate(context, question) == pre + context + mid + question + post
  {
    TemplateTextBraceFree();
    SlotsSplitUnique(Concat(PREAMBLE_PIECES), BETWEEN_SLOTS, AFTER_SLOTS, pre, mid, post);
  }

  /** Filling the placeholders with their own names gives the template back. */
  lemma FillTemplateIdentity()
    ensures FillTemplate(CONTEXT_SLOT, QUESTION_SLOT) == RAG_PROMPT_TEMPLATE
  {
  }
}
