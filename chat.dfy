/**
 * `pages/Chat.py`: the chat page. It lists the indexed repositories, lets
 * the user pick one, keeps the conversation in the session state (starting
 * afresh whenever another repository is picked) and streams each answer
 * into the history.
 *
 * The directory listing, the chain loader and the answer stream are
 * parameters.
 */
module Chat {
  import opened Wrappers
  import opened PyStr
  import opened PosixPath
  import opened Session

  /** Where the vector stores of indexed repositories live, one directory each. */
  const VECTOR_STORE_DIR: string := "data/vector_stores"

  /** The entries of `entries` that are directories (judged on their path under the store directory), in order. */
  function Directories(entries: seq<string>, isDir: string -> bool): (r: seq<string>)
    ensures |r| <= |entries|
  {
    if entries == [] then []
    else
      var init, x := entries[..|entries| - 1], entries[|entries| - 1];
      Directories(init, isDir) + (if isDir(Join(VECTOR_STORE_DIR, x)) then [x] else [])
  }

  /** An entry is listed exactly when it is a directory. */
  lemma {:induction false} DirectoriesExactly(entries: seq<string>, isDir: string -> bool)
    ensures forall x :: x in Directories(entries, isDir) <==> x in entries && isDir(Join(VECTOR_STORE_DIR, x))
  {
    if entries != [] {
      var init, x := entries[..|entries| - 1], entries[|entries| - 1];
      assert entries == init + [x];
      DirectoriesExactly(init, isDir);
    }
  }

  /** Filtering keeps the order of the listing: it distributes over concatenation. */
  lemma {:induction false} DirectoriesAppend(a: seq<string>, b: seq<string>, isDir: string -> bool)
    ensures Directories(a + b, isDir) == Directories(a, isDir) + Directories(b, isDir)
    decreases |b|
  {
    if b == [] {
      assert a + b == a;
    } else {
      var init, x := b[..|b| - 1], b[|b| - 1];
      assert (a + b)[..|a + b| - 1] == a + init;
      assert (a + b)[|a + b| - 1] == x;
      DirectoriesAppend(a, init, isDir);
    }
  }

  /** When every entry is a directory, all of them are listed, in the order given. */
  lemma {:induction false} AllDirectoriesListed(entries: seq<string>, isDir: string -> bool)
    requires forall k | 0 <= k < |entries| :: isDir(Join(VECTOR_STORE_DIR, entries[k]))
    ensures Directories(entries, isDir) == entries
  {
    if entries != [] {
      var init, x := entries[..|entries| - 1], entries[|entries| - 1];
      assert isDir(Join(VECTOR_STORE_DIR, x));
      assert forall k | 0 <= k < |init| :: init[k] == entries[k];
      AllDirectoriesListed(init, isDir);
      assert entries == init + [x];
    }
  }

  /**
   * `get_available_github_repos()`, given the listing of the store
   * directory (`None` when it does not exist): no repository without it,
   * otherwise its entries that are directories.
   */
  function GetAvailableGithubRepos(listing: Option<seq<string>>, isDir: string -> bool): (r: seq<string>)
    ensures listing.None? ==> r == []
    ensures listing.Some? ==> forall x :: x in r <==> x in listing.value && isDir(Join(VECTOR_STORE_DIR, x))
  {
    match listing
    case None => []
    case Some(entries) =>
      DirectoriesExactly(entries, isDir);
      Directories(entries, isDir)
  }

  /**
   * The option the select box returns: the one the user picked when it is
   * among the options, the first one otherwise.
   */
  function SelectedRepo(repos: seq<string>, choice: nat): (r: string)
    requires repos != []
    ensures r in repos
  {
    if choice < |repos| then repos[choice] else repos[0]
  }

  datatype Role = User | Assistant

  /** One entry of the history: `{"role": ..., "content": ...}`. */
  datatype Message = Message(role: Role, content: string)

  /** The history is a sequence of exchanges: a user's message, then the assistant's answer. */
  predicate Alternating(messages: seq<Message>)
  {
    && |messages| % 2 == 0
    && forall i | 0 <= i < |messages| :: messages[i].role == (if i % 2 == 0 then User else Assistant)
  }

  /** Appending a question and its answer keeps the history made of exchanges. */
  lemma ExchangeKeepsAlternating(messages: seq<Message>, question: string, answer: string)
    requires Alternating(messages)
    ensures Alternating(messages + [Message(User, question), Message(Assistant, answer)])
  {
    var m := messages + [Message(User, question), Message(Assistant, answer)];
    forall i | 0 <= i < |m| ensures m[i].role == (if i % 2 == 0 then User else Assistant) {
      if i >= |messages| {
        assert i == |messages| || i == |messages| + 1;
      }
    }
  }

  /**
   * The loop that builds `full_response`: every character of every streamed
   * fragment appended in turn.
   */
  method AccumulateStream(fragments: seq<string>) returns (fullResponse: string)
    ensures fullResponse == Concat(fragments)
    ensures |fullResponse| == TotalLength(fragments)
  {
    fullResponse := "";
    for i := 0 to |fragments|
      invariant fullResponse == Concat(fragments[..i])
    {
      var chunk := fragments[i];
      for j := 0 to |chunk|
        invariant fullResponse == Concat(fragments[..i]) + chunk[..j]
      {
        fullResponse := fullResponse + [chunk[j]];
        assert chunk[..j + 1] == chunk[..j] + [chunk[j]];
      }
      assert fragments[..i + 1][..i] == fragments[..i];
      assert chunk[..|chunk|] == chunk;
    }
    assert fragments[..|fragments|] == fragments;
    ConcatLength(fragments);
  }

  /** Fragments "Hel" and "lo" make the answer "Hello". */
  lemma StreamExample()
    ensures Concat(["Hel", "lo"]) == "Hello"
  {
    assert ["Hel", "lo"][..1] == ["Hel"];
    assert ["Hel"][..0] == [];
  }

  /** A loaded chain, seen through what it streams back for a prompt. */
  type Chain = string -> seq<string>

  /** How a run of the page ended. */
  datatype Outcome =
    | NoRepositories
    | ChainMissing(repo: string)
    | Shown(repo: string)
    | Answered(repo: string, response: string)

  /** The session-state keys of the page. */
  class ChatPage {
    var messages: Slot<seq<Message>>
    var activeRepo: Slot<Option<string>>

    /** A new session: neither key is there. */
    constructor ()
      ensures messages.Absent? && activeRepo.Absent?
    {
      messages := Absent;
      activeRepo := Absent;
    }

    /** Both keys are there and the history is made of exchanges. */
    predicate Valid()
      reads this
    {
      messages.Present? && activeRepo.Present? && Alternating(messages.value)
    }

    /** The history a run starts from once the keys are initialised, and the repository it belongs to. */
    function History(): seq<Message>
      reads this
    {
      InitSlot(messages, []).value
    }

    function Active(): Option<string>
      reads this
    {
      InitSlot(activeRepo, None).value
    }

    /** Both keys are set to their initial values when absent; values already there are kept. */
    method InitializeSessionState()
      modifies this
      requires messages.Absent? || Alternating(messages.value)
      ensures Valid()
      ensures messages.value == old(History()) && activeRepo.value == old(Active())
    {
      messages := InitSlot(messages, []);
      activeRepo := InitSlot(activeRepo, None);
    }

    /** Picking a repository other than the active one starts an empty history for it; the same one keeps the history. */
    method SwitchRepo(selectedRepo: string)
      modifies this
      requires Valid()
      ensures Valid()
      ensures activeRepo == Present(Some(selectedRepo))
      ensures messages == if old(activeRepo.value) == Some(selectedRepo) then old(messages) else Present([])
    {
      if activeRepo.value != Some(selectedRepo) {
        messages := Present([]);
        activeRepo := Present(Some(selectedRepo));
      }
    }

    /** A submitted prompt: the user's message, then the streamed answer, join the history. */
    method AnswerPrompt(chain: Chain, prompt: string) returns (fullResponse: string)
      modifies this
      requires Valid()
      ensures Valid()
      ensures fullResponse == Concat(chain(prompt))
      ensures activeRepo == old(activeRepo)
      ensures messages.value == old(messages.value) + [Message(User, prompt), Message(Assistant, fullResponse)]
    {
      ghost var before := messages.value;
      messages := Present(messages.value + [Message(User, prompt)]);
      fullResponse := AccumulateStream(chain(prompt));
      messages := Present(messages.value + [Message(Assistant, fullResponse)]);
      assert messages.value == before + [Message(User, prompt), Message(Assistant, fullResponse)];
      ExchangeKeepsAlternating(before, prompt, fullResponse);
    }

    /**
     * One run of the page script: initialise the keys; with no repository
     * stop; otherwise take the selected one, clearing the history when it is
     * not the active one; stop when no chain can be loaded for it; and, when
     * a prompt was submitted, append it and the streamed answer.
     */
    method Run(listing: Option<seq<string>>, isDir: string -> bool, choice: nat,
               loadRagChain: string -> Option<Chain>, prompt: Option<string>)
      returns (outcome: Outcome)
      modifies this
      requires messages.Absent? || Alternating(messages.value)
      ensures Valid()
      ensures GetAvailableGithubRepos(listing, isDir) == [] ==>
        outcome == NoRepositories && messages.value == old(History()) && activeRepo.value == old(Active())
      ensures var repos := GetAvailableGithubRepos(listing, isDir);
        repos != [] ==>
          var selected := SelectedRepo(repos, choice);
          var kept := if old(Active()) == Some(selected) then old(History()) else [];
          && activeRepo == Present(Some(selected))
          && (loadRagChain(selected).None? ==> outcome == ChainMissing(selected) && messages.value == kept)
          && (loadRagChain(selected).Some? && (prompt.None? || prompt.value == "") ==>
                outcome == Shown(selected) && messages.value == kept)
          && (loadRagChain(selected).Some? && prompt.Some? && prompt.value != "" ==>
                var answer := Concat(loadRagChain(selected).value(prompt.value));
                && outcome == Answered(selected, answer)
                && messages.value == kept + [Message(User, prompt.value), Message(Assistant, answer)])
    {
      InitializeSessionState();
      var githubRepos := GetAvailableGithubRepos(listing, isDir);
      if githubRepos == [] {
        return NoRepositories;
      }
      var selectedRepo := SelectedRepo(githubRepos, choice);
      SwitchRepo(selectedRepo);
      var ragChain := loadRagChain(selectedRepo);
      if ragChain.None? {
        return ChainMissing(selectedRepo);
      }
      if prompt.None? || prompt.value == "" {
        return Shown(selectedRepo);
      }
      var fullResponse := AnswerPrompt(ragChain.value, prompt.value);
      outcome := Answered(selectedRepo, fullResponse);
    }
  }
}
