/**
 * `pages/Add_Repo.py`: the page that indexes a repository given its URL.
 *
 * The URL is turned into the directory the repository would be cloned to.
 * When that directory already exists the page asks for confirmation, kept
 * across reruns in three session-state keys, before deleting it and
 * starting the ingestion; otherwise the ingestion starts at once. The
 * ingestion runs as a subprocess whose output is shown as it arrives.
 *
 * Whether a path exists and what the subprocess produces are parameters;
 * deleting a directory and running an ingestion are recorded as effects.
 */
module AddRepo {
  import opened Wrappers
  import opened PyStr
  import opened PosixPath
  import opened Session

  /** Where repositories are cloned. */
  const STORAGE_DIR: string := "data/github_repos"

  /** `github_url.split("/")[-1].replace(".git", "")`: the last segment, every ".git" in it removed. */
  function RepoName(githubUrl: string): (r: string)
    ensures '/' !in r
    ensures |r| <= |githubUrl|
  {
    RemoveAll(LastPiece(githubUrl, '/'), ".git")
  }

  /** `os.path.join(storage_dir, repo_name)`. */
  function ClonePath(githubUrl: string): string
  {
    Join(STORAGE_DIR, RepoName(githubUrl))
  }

  /** The clone path always lies directly inside the storage directory, named by the repository name. */
  lemma ClonePathInStorage(githubUrl: string)
    ensures ClonePath(githubUrl) == STORAGE_DIR + "/" + RepoName(githubUrl)
    ensures IsTailAfter(ClonePath(githubUrl), '/', RepoName(githubUrl))
  {
    var name := RepoName(githubUrl);
    var p := ClonePath(githubUrl);
    assert p[|p| - |name|..] == name;
  }

  /** The repository name is the URL's last segment with every ".git" removed from it. */
  lemma {:induction false} RepoNameOfSegment(prefix: string, segment: string)
    requires '/' !in segment
    ensures RepoName(prefix + "/" + segment) == RemoveAll(segment, ".git")
  {
    var url := prefix + "/" + segment;
    assert url[|url| - |segment|..] == segment;
    assert url[|url| - |segment| - 1] == '/';
    assert IsTailAfter(url, '/', segment);
    TailAfterUnique(url, '/', segment, LastPiece(url, '/'));
  }

  /** A clone URL "<prefix>/<name>.git" gives back `name`, and so does "<prefix>/<name>", when `name` holds no ".git". */
  lemma CloneUrlRoundTrip(prefix: string, name: string)
    requires '/' !in name && !Contains(name, ".git")
    ensures RepoName(prefix + "/" + name + ".git") == name
    ensures RepoName(prefix + "/" + name) == name
  {
    assert prefix + "/" + name + ".git" == prefix + "/" + (name + ".git");
    RepoNameOfSegment(prefix, name + ".git");
    RemoveGitSuffix(name);
    RepoNameOfSegment(prefix, name);
    RemoveAllAbsent(name, ".git");
  }

  lemma HubIoKept()
    ensures RemoveAll("hub.io", ".git") == "hub.io"
  {
    var pat := ".git";
    assert "hub.io" == ['h'] + (['u'] + (['b'] + ".io"));
    RemoveAllKeep('h', ['u'] + (['b'] + ".io"), pat);
    RemoveAllKeep('u', ['b'] + ".io", pat);
    RemoveAllKeep('b', ".io", pat);
  }

  /** `"my.github.io".replace(".git", "")` is "myhub.io". */
  lemma RemoveGitExample()
    ensures RemoveAll("my.github.io", ".git") == "myhub.io"
  {
    var pat, rest := ".git", "hub.io";
    assert "my.github.io" == ['m'] + (['y'] + (pat + rest));
    assert "myhub.io" == ['m'] + (['y'] + rest);
    RemoveAllKeep('m', ['y'] + (pat + rest), pat);
    RemoveAllKeep('y', pat + rest, pat);
    RemoveAllDrop(rest, pat);
    HubIoKept();
  }

  /** Every ".git" is removed, not only a trailing one: ".../my.github.io" gives "myhub.io". */
  lemma InnerGitRemoved(prefix: string)
    ensures RepoName(prefix + "/my.github.io") == "myhub.io"
  {
    var segment := "my.github.io";
    assert prefix + "/my.github.io" == prefix + "/" + segment;
    assert forall k | 0 <= k < |segment| :: segment[k] != '/';
    RepoNameOfSegment(prefix, segment);
    RemoveGitExample();
  }

  /**
   * A URL ending in "/" has an empty last segment, so its clone path is the
   * storage directory itself (with a trailing '/').
   */
  lemma TrailingSlashNamesStorageDir(githubUrl: string)
    ensures RepoName(githubUrl + "/") == ""
    ensures ClonePath(githubUrl + "/") == STORAGE_DIR + "/"
  {
    RepoNameOfSegment(githubUrl, "");
    assert githubUrl + "/" + "" == githubUrl + "/";
  }

  // ---------------------------------------------------------------------
  // start_ingestion

  /**
   * What the ingestion subprocess did: the output lines read from it, then
   * its exit status, or `None` when an exception was raised (by launching
   * it, in which case no line was read, or while reading).
   */
  datatype ProcessRun = ProcessRun(lines: seq<string>, returnCode: Option<int>)

  datatype Status = Succeeded | Failed(returnCode: int) | Raised

  /** What the page shows for an ingestion: the accumulated log and the verdict. */
  datatype Report = Report(log: string, status: Status)

  /** The command `start_ingestion` launches, `python` being the running interpreter. */
  function Command(python: string, githubUrl: string): seq<string>
  {
    [python, "-m", "ingest.create_vectorstore", "--url", githubUrl]
  }

  /** `report` is what the page shows for `run`: every line in order, success exactly on exit status 0. */
  predicate Describes(report: Report, run: ProcessRun)
  {
    && report.log == Concat(run.lines)
    && (report.status == Succeeded <==> run.returnCode == Some(0))
    && (report.status == Raised <==> run.returnCode == None)
    && (report.status.Failed? ==> run.returnCode == Some(report.status.returnCode))
  }

  /** A run has one description only. */
  lemma DescribesUnique(r1: Report, r2: Report, run: ProcessRun)
    requires Describes(r1, run) && Describes(r2, run)
    ensures r1 == r2
  {
  }

  /** `start_ingestion(github_url)`: launch the ingestion, append each output line to the log, then judge the exit status. */
  method StartIngestion(githubUrl: string, python: string, run: seq<string> -> ProcessRun) returns (report: Report)
    ensures Describes(report, run(Command(python, githubUrl)))
  {
    var process := run(Command(python, githubUrl));
    var logOutput := "";
    for i := 0 to |process.lines|
      invariant logOutput == Concat(process.lines[..i])
    {
      assert process.lines[..i + 1][..i] == process.lines[..i];
      logOutput := logOutput + process.lines[i];
    }
    assert process.lines[..|process.lines|] == process.lines;
    match process.returnCode
    case None =>
      report := Report(logOutput, Raised);
    case Some(code) =>
      if code == 0 {
        report := Report(logOutput, Succeeded);
      } else {
        report := Report(logOutput, Failed(code));
      }
  }

  // ---------------------------------------------------------------------
  // The page

  /** The button the user pressed in this run of the page, if any. */
  datatype Click = NoClick | DownloadClicked | YesClicked | NoClicked

  /** What a run of the page did outside the session state, in order. */
  datatype Effect = Warned | RemovedTree(path: string) | Ingested(githubUrl: string, report: Report)

  /** The session-state keys of the page. */
  class AddRepoPage {
    var confirmOverwrite: Slot<bool>
    var repoToOverwrite: Slot<Option<string>>
    var urlToClone: Slot<Option<string>>

    /** A new session: none of the keys is there. */
    constructor ()
      ensures Fresh()
    {
      confirmOverwrite := Absent;
      repoToOverwrite := Absent;
      urlToClone := Absent;
    }

    predicate Fresh()
      reads this
    {
      confirmOverwrite.Absent? && repoToOverwrite.Absent? && urlToClone.Absent?
    }

    /**
     * All keys are there and agree: either no confirmation is pending and
     * both remembered values are `None`, or one is pending for a non-empty
     * URL and the remembered directory is that URL's clone path.
     */
    predicate Valid()
      reads this
    {
      && confirmOverwrite.Present? && repoToOverwrite.Present? && urlToClone.Present?
      && (confirmOverwrite.value <==> urlToClone.value.Some?)
      && (if urlToClone.value.Some?
          then urlToClone.value.value != "" && repoToOverwrite.value == Some(ClonePath(urlToClone.value.value))
          else repoToOverwrite.value == None)
    }

    /** No confirmation is pending: the keys hold their initial values `False`, `None`, `None`. */
    predicate Cleared()
      reads this
    {
      confirmOverwrite == Present(false) && repoToOverwrite == Present(None) && urlToClone == Present(None)
    }

    /** The three keys are set to their initial values when absent; values already there are kept. */
    method InitializeSessionState()
      modifies this
      requires Fresh() || Valid()
      ensures Valid()
      ensures old(Valid()) ==> unchanged(this)
      ensures old(Fresh()) ==> Cleared()
    {
      confirmOverwrite := InitSlot(confirmOverwrite, false);
      repoToOverwrite := InitSlot(repoToOverwrite, None);
      urlToClone := InitSlot(urlToClone, None);
    }

    /**
     * "Download and Index Repository": an empty URL only warns; a URL whose
     * clone path exists makes a confirmation pending for it and starts
     * nothing; any other URL is ingested at once, the keys untouched.
     */
    method OnDownload(githubUrl: string, pathExists: string -> bool, python: string, run: seq<string> -> ProcessRun)
      returns (effects: seq<Effect>)
      modifies this
      requires Valid()
      ensures Valid()
      ensures githubUrl == "" ==> effects == [Warned] && unchanged(this)
      ensures githubUrl != "" && pathExists(ClonePath(githubUrl)) ==>
        && effects == []
        && confirmOverwrite == Present(true)
        && repoToOverwrite == Present(Some(ClonePath(githubUrl)))
        && urlToClone == Present(Some(githubUrl))
      ensures githubUrl != "" && !pathExists(ClonePath(githubUrl)) ==>
        && unchanged(this)
        && |effects| == 1 && effects[0].Ingested? && effects[0].githubUrl == githubUrl
        && Describes(effects[0].report, run(Command(python, githubUrl)))
    {
      if githubUrl != "" {
        var storageDir := STORAGE_DIR;
        var repoName := RemoveAll(LastPiece(githubUrl, '/'), ".git");
        var clonePath := Join(storageDir, repoName);
        if pathExists(clonePath) {
          confirmOverwrite := Present(true);
          repoToOverwrite := Present(Some(clonePath));
          urlToClone := Present(Some(githubUrl));
          effects := [];
        } else {
          var report := StartIngestion(githubUrl, python, run);
          effects := [Ingested(githubUrl, report)];
        }
      } else {
        effects := [Warned];
      }
    }

    /**
     * "Yes, Overwrite": delete the remembered directory, ingest the
     * remembered URL, and only then clear the pending confirmation.
     */
    method OnConfirmYes(python: string, run: seq<string> -> ProcessRun) returns (effects: seq<Effect>)
      modifies this
      requires Valid() && confirmOverwrite.value
      ensures Valid() && Cleared()
      ensures |effects| == 2
      ensures effects[0] == RemovedTree(ClonePath(old(urlToClone.value.value)))
      ensures effects[1].Ingested? && effects[1].githubUrl == old(urlToClone.value.value)
      ensures Describes(effects[1].report, run(Command(python, old(urlToClone.value.value))))
    {
      var removed := RemovedTree(repoToOverwrite.value.value);
      var report := StartIngestion(urlToClone.value.value, python, run);
      effects := [removed, Ingested(urlToClone.value.value, report)];
      confirmOverwrite := Present(false);
      repoToOverwrite := Present(None);
      urlToClone := Present(None);
    }

    /** "No, Cancel": clear the pending confirmation; nothing is deleted or ingested. */
    method OnConfirmNo()
      modifies this
      requires Valid() && confirmOverwrite.value
      ensures Valid() && Cleared()
    {
      confirmOverwrite := Present(false);
      repoToOverwrite := Present(None);
      urlToClone := Present(None);
    }

    /**
     * One run of the page script: initialise the keys, handle the download
     * button, then, while a confirmation is pending, its two buttons. A
     * confirmation button pressed when none is pending was not on the page
     * and does nothing.
     */
    method Run(githubUrl: string, click: Click, pathExists: string -> bool, python: string, run: seq<string> -> ProcessRun)
      returns (effects: seq<Effect>)
      modifies this
      requires Fresh() || Valid()
      ensures Valid()
      // No button, an empty URL, or a URL whose clone path is missing: the keys keep their values (initial ones in a new session).
      ensures (click == NoClick || (click == DownloadClicked && (githubUrl == "" || !pathExists(ClonePath(githubUrl))))) ==>
        && (old(Valid()) ==> unchanged(this))
        && (old(Fresh()) ==> Cleared())
      ensures click == NoClick ==> effects == []
      ensures click == DownloadClicked && githubUrl == "" ==> effects == [Warned]
      ensures click == DownloadClicked && githubUrl != "" && !pathExists(ClonePath(githubUrl)) ==>
        && |effects| == 1 && effects[0].Ingested? && effects[0].githubUrl == githubUrl
        && Describes(effects[0].report, run(Command(python, githubUrl)))
      ensures click == DownloadClicked && githubUrl != "" && pathExists(ClonePath(githubUrl)) ==>
        && effects == []
        && confirmOverwrite == Present(true)
        && repoToOverwrite == Present(Some(ClonePath(githubUrl)))
        && urlToClone == Present(Some(githubUrl))
      // A confirmation button: acted on only when a confirmation is pending.
      ensures click == YesClicked && old(confirmOverwrite) == Present(true) ==>
        && Cleared()
        && |effects| == 2
        && effects[0] == RemovedTree(old(repoToOverwrite.value.value))
        && effects[0] == RemovedTree(ClonePath(old(urlToClone.value.value)))
        && effects[1].Ingested? && effects[1].githubUrl == old(urlToClone.value.value)
        && Describes(effects[1].report, run(Command(python, old(urlToClone.value.value))))
      ensures click == NoClicked && old(confirmOverwrite) == Present(true) ==> effects == [] && Cleared()
      ensures (click == YesClicked || click == NoClicked) && old(confirmOverwrite) != Present(true) ==>
        && effects == []
        && Cleared()
        && (old(Valid()) ==> unchanged(this))
    {
      InitializeSessionState();
      effects := [];
      if click == DownloadClicked {
        effects := OnDownload(githubUrl, pathExists, python, run);
      }
      if confirmOverwrite.value {
        if click == YesClicked {
          effects := OnConfirmYes(python, run);
          return;
        }
        if click == NoClicked {
          OnConfirmNo();
          return;
        }
      }
    }
  }
}
