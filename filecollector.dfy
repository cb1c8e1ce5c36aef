/**
 * `collect_target_files` (`ingest/file_collector.py`): a top-down walk of a
 * directory tree that never enters a directory whose name is in
 * `IGNORE_DIRS` and keeps every file whose `splitext` extension is not in
 * `IGNORE_EXTS`, reporting each as `join(root, filename)`.
 *
 * The file system is a value: a directory has a name, its sub-directories
 * and its file names, each in the order the listing returns them.
 */
module FileCollector {
  import opened Wrappers
  import opened PyStr
  import opened PosixPath
  import Config

  datatype Dir = Dir(name: string, subdirs: seq<Dir>, files: seq<string>)

  /**
   * The two ignore lists the walk consults. The walk is defined for any
   * lists; `CONFIGURED` holds the ones `collect_target_files` uses.
   */
  datatype Ignore = Ignore(dirs: seq<string>, exts: seq<string>)

  const CONFIGURED: Ignore := Ignore(Config.IGNORE_DIRS, Config.IGNORE_EXTS)

  /** A sub-directory survives the `dirs[:] = ...` pruning. */
  predicate KeepDir(ig: Ignore, name: string)
  {
    name !in ig.dirs
  }

  /** A file passes the extension filter. */
  predicate KeepFile(ig: Ignore, name: string)
  {
    Extension(name) !in ig.exts
  }

  /** The paths the inner loop appends for the files of the directory at `root`. */
  function KeptFiles(ig: Ignore, root: string, files: seq<string>): seq<string>
  {
    if files == [] then []
    else
      var name := files[|files| - 1];
      KeptFiles(ig, root, files[..|files| - 1]) + (if KeepFile(ig, name) then [Join(root, name)] else [])
  }

  /** Everything the walk collects in `d`, reached through the path `root`, in walk order. */
  function Walk(ig: Ignore, root: string, d: Dir): seq<string>
    decreases d
  {
    KeptFiles(ig, root, d.files) + WalkSubdirs(ig, root, d.subdirs)
  }

  /** What the walk collects below the kept directories of `subs`, in order. */
  function WalkSubdirs(ig: Ignore, root: string, subs: seq<Dir>): seq<string>
    decreases subs
  {
    if subs == [] then []
    else
      var c := subs[0];
      (if KeepDir(ig, c.name) then Walk(ig, Join(root, c.name), c) else []) + WalkSubdirs(ig, root, subs[1..])
  }

  /**
   * The result of `collect_target_files(base_path)`, where `tree` is the
   * directory found at `base_path`, or `None` when there is none (the walk
   * then yields nothing).
   */
  function Collected(basePath: string, tree: Option<Dir>): seq<string>
  {
    match tree
    case None => []
    case Some(d) => Walk(CONFIGURED, basePath, d)
  }

  // ---------------------------------------------------------------------
  // The walk as the program performs it.

  /** A directory still to be visited, with the path the walk reached it by. */
  datatype Frame = Frame(path: string, dir: Dir)

  function Size(d: Dir): nat
    decreases d
  {
    1 + SizeAll(d.subdirs)
  }

  function SizeAll(subs: seq<Dir>): nat
    decreases subs
  {
    if subs == [] then 0 else Size(subs[0]) + SizeAll(subs[1..])
  }

  function FramesSize(frames: seq<Frame>): nat
  {
    if frames == [] then 0 else Size(frames[0].dir) + FramesSize(frames[1..])
  }

  /** What the walk still collects from a stack of frames, top first. */
  function WalkFrames(ig: Ignore, frames: seq<Frame>): seq<string>
  {
    if frames == [] then [] else Walk(ig, frames[0].path, frames[0].dir) + WalkFrames(ig, frames[1..])
  }

  /** The frames of the sub-directories that survive pruning, in listing order. */
  function ChildFrames(ig: Ignore, root: string, subs: seq<Dir>): seq<Frame>
  {
    if subs == [] then []
    else
      (if KeepDir(ig, subs[0].name) then [Frame(Join(root, subs[0].name), subs[0])] else [])
      + ChildFrames(ig, root, subs[1..])
  }

  lemma {:induction false} WalkFramesAppend(ig: Ignore, a: seq<Frame>, b: seq<Frame>)
    ensures WalkFrames(ig, a + b) == WalkFrames(ig, a) + WalkFrames(ig, b)
  {
    if a != [] {
      assert (a + b)[1..] == a[1..] + b;
      WalkFramesAppend(ig, a[1..], b);
    } else {
      assert a + b == b;
    }
  }

  lemma {:induction false} FramesSizeAppend(a: seq<Frame>, b: seq<Frame>)
    ensures FramesSize(a + b) == FramesSize(a) + FramesSize(b)
  {
    if a != [] {
      assert (a + b)[1..] == a[1..] + b;
      FramesSizeAppend(a[1..], b);
    } else {
      assert a + b == b;
    }
  }

  /** Visiting the child frames collects what the sub-directory part of the walk does. */
  lemma {:induction false} WalkChildFrames(ig: Ignore, root: string, subs: seq<Dir>)
    ensures WalkFrames(ig, ChildFrames(ig, root, subs)) == WalkSubdirs(ig, root, subs)
    ensures FramesSize(ChildFrames(ig, root, subs)) <= SizeAll(subs)
  {
    if subs != [] {
      var c := subs[0];
      var head := if KeepDir(ig, c.name) then [Frame(Join(root, c.name), c)] else [];
      WalkChildFrames(ig, root, subs[1..]);
      WalkFramesAppend(ig, head, ChildFrames(ig, root, subs[1..]));
      FramesSizeAppend(head, ChildFrames(ig, root, subs[1..]));
    }
  }

  /** One more iteration of the loop over a directory's files. */
  lemma KeptFilesStep(ig: Ignore, root: string, files: seq<string>, i: int)
    requires 0 <= i < |files|
    ensures KeptFiles(ig, root, files[..i + 1])
      == KeptFiles(ig, root, files[..i]) + (if KeepFile(ig, files[i]) then [Join(root, files[i])] else [])
  {
    assert files[..i + 1][..i] == files[..i];
  }

  /**
   * Regrouping of the walk's output after one visit. Proved on its own: the
   * same step stated inside the loop makes the loop's proof run out of
   * resources.
   */
  lemma Regroup(a: seq<string>, b: seq<string>, c: seq<string>, d: seq<string>)
    ensures a + b + (c + d) == a + (b + c + d)
  {
  }

  /**
   * The loop over the files of one directory: each file whose extension is
   * not ignored is reported as `join(root, filename)`, in listing order.
   */
  method CollectFilesOf(root: string, files: seq<string>) returns (found: seq<string>)
    ensures found == KeptFiles(CONFIGURED, root, files)
  {
    found := [];
    var i := 0;
    while i < |files|
      invariant 0 <= i <= |files|
      invariant found == KeptFiles(CONFIGURED, root, files[..i])
    {
      var filename := files[i];
      var fileExt := Splitext(filename).1;
      KeptFilesStep(CONFIGURED, root, files, i);
      if fileExt !in Config.IGNORE_EXTS {
        var filePath := Join(root, filename);
        found := found + [filePath];
      }
      i := i + 1;
    }
    assert files[..i] == files;
  }

  /**
   * `collect_target_files(base_path)`: the `os.walk` traversal keeps a stack
   * of directories still to visit; each visit lists the directory, prunes
   * its sub-directories, runs the loop over its files and then pushes the
   * surviving sub-directories so that the first of them is visited next.
   */
  method CollectTargetFiles(basePath: string, tree: Option<Dir>) returns (matched: seq<string>)
    ensures matched == Collected(basePath, tree)
  {
    matched := [];
    if tree.None? {
      return;
    }
    var stack := [Frame(basePath, tree.value)];
    ghost var all := Collected(basePath, tree);
    while stack != []
      invariant matched + WalkFrames(CONFIGURED, stack) == all
      decreases FramesSize(stack)
    {
      var top := stack[0];
      var root, d := top.path, top.dir;
      ghost var rest := WalkFrames(CONFIGURED, stack[1..]);
      assert WalkFrames(CONFIGURED, stack) == Walk(CONFIGURED, root, d) + rest;
      stack := stack[1..];
      // dirs[:] = [d for d in dirs if d not in IGNORE_DIRS]
      var children := ChildFrames(CONFIGURED, root, d.subdirs);
      var visited := matched;
      var found := CollectFilesOf(root, d.files);
      matched := matched + found;
      WalkChildFrames(CONFIGURED, root, d.subdirs);
      WalkFramesAppend(CONFIGURED, children, stack);
      FramesSizeAppend(children, stack);
      ghost var here, below := KeptFiles(CONFIGURED, root, d.files), WalkSubdirs(CONFIGURED, root, d.subdirs);
      assert Walk(CONFIGURED, root, d) == here + below;
      assert matched + WalkFrames(CONFIGURED, children + stack) == visited + here + (below + rest);
      Regroup(visited, here, below, rest);
      stack := children + stack;
    }
  }

  // ---------------------------------------------------------------------
  // What the walk collects, described without the traversal.

  /** Where a file sits below the walk's root: the directory names leading to it, then its own name. */
  datatype Loc = Loc(dirs: seq<string>, file: string)

  function Parts(l: Loc): seq<string>
  {
    l.dirs + [l.file]
  }

  /** The path reported for the file at `l` when the walk starts from `root`. */
  function PathOf(root: string, l: Loc): string
  {
    JoinAll(root, Parts(l))
  }

  /**
   * The file at `l` exists below `d` and the walk may reach it: every
   * directory on the way is one pruning keeps (the root itself is never
   * subject to pruning) and the file's extension is not ignored.
   */
  predicate Reachable(ig: Ignore, d: Dir, l: Loc)
    decreases |l.dirs|
  {
    if l.dirs == [] then l.file in d.files && KeepFile(ig, l.file)
    else
      && KeepDir(ig, l.dirs[0])
      && exists c | c in d.subdirs :: c.name == l.dirs[0] && Reachable(ig, c, Loc(l.dirs[1..], l.file))
  }

  /** A location one directory further down, seen from the parent. */
  function Under(name: string, l: Loc): Loc
  {
    Loc([name] + l.dirs, l.file)
  }

  lemma PathOfUnder(root: string, name: string, l: Loc)
    ensures PathOf(root, Under(name, l)) == PathOf(Join(root, name), l)
  {
    assert Parts(Under(name, l)) == [name] + Parts(l);
    JoinAllCons(root, name, Parts(l));
  }

  lemma PathOfFile(root: string, f: string)
    ensures PathOf(root, Loc([], f)) == Join(root, f)
  {
    assert Parts(Loc([], f)) == [f];
    assert [f][..0] == [];
    assert JoinAll(root, [f]) == Join(JoinAll(root, []), f);
  }

  lemma {:induction false} KeptFilesSound(ig: Ignore, root: string, files: seq<string>, x: string)
    requires x in KeptFiles(ig, root, files)
    ensures exists f | f in files :: KeepFile(ig, f) && x == Join(root, f)
  {
    var init, name := files[..|files| - 1], files[|files| - 1];
    if x in KeptFiles(ig, root, init) {
      KeptFilesSound(ig, root, init, x);
      var f :| f in init && KeepFile(ig, f) && x == Join(root, f);
      assert f in files;
    } else {
      assert name in files;
    }
  }

  lemma {:induction false} KeptFilesComplete(ig: Ignore, root: string, files: seq<string>, f: string)
    requires f in files && KeepFile(ig, f)
    ensures Join(root, f) in KeptFiles(ig, root, files)
  {
    var init, name := files[..|files| - 1], files[|files| - 1];
    if f != name {
      assert files == init + [name];
      KeptFilesComplete(ig, root, init, f);
    }
  }

  /** Everything the walk collects is the path of a reachable file. */
  lemma {:induction false} WalkSound(ig: Ignore, root: string, d: Dir, x: string)
    requires x in Walk(ig, root, d)
    ensures exists l :: Reachable(ig, d, l) && x == PathOf(root, l)
    decreases d
  {
    if x in KeptFiles(ig, root, d.files) {
      KeptFilesSound(ig, root, d.files, x);
      var f :| f in d.files && KeepFile(ig, f) && x == Join(root, f);
      ReachableHere(ig, root, d, f);
    } else {
      WalkSubdirsSound(ig, root, d.subdirs, x);
      var k, l :| 0 <= k < |d.subdirs| && KeepDir(ig, d.subdirs[k].name) && Reachable(ig, d.subdirs[k], l)
        && x == PathOf(root, Under(d.subdirs[k].name, l));
      ReachableBelow(ig, d, k, l);
    }
  }

  lemma ReachableHere(ig: Ignore, root: string, d: Dir, f: string)
    requires f in d.files && KeepFile(ig, f)
    ensures Reachable(ig, d, Loc([], f)) && PathOf(root, Loc([], f)) == Join(root, f)
  {
    PathOfFile(root, f);
  }

  lemma ReachableBelow(ig: Ignore, d: Dir, k: int, l: Loc)
    requires 0 <= k < |d.subdirs| && KeepDir(ig, d.subdirs[k].name) && Reachable(ig, d.subdirs[k], l)
    ensures Reachable(ig, d, Under(d.subdirs[k].name, l))
  {
    var c := d.subdirs[k];
    assert Under(c.name, l).dirs[1..] == l.dirs;
    assert c in d.subdirs;
  }

  /** What the walk collects below the sub-directories lies below a kept one of them. */
  lemma {:induction false} WalkSubdirsSound(ig: Ignore, root: string, subs: seq<Dir>, x: string)
    requires x in WalkSubdirs(ig, root, subs)
    ensures exists k, l ::
      && 0 <= k < |subs|
      && KeepDir(ig, subs[k].name)
      && Reachable(ig, subs[k], l)
      && x == PathOf(root, Under(subs[k].name, l))
    decreases subs
  {
    var c := subs[0];
    if KeepDir(ig, c.name) && x in Walk(ig, Join(root, c.name), c) {
      WalkSound(ig, Join(root, c.name), c, x);
      var l :| Reachable(ig, c, l) && x == PathOf(Join(root, c.name), l);
      PathOfUnder(root, c.name, l);
      assert 0 < |subs| && subs[0] == c;
    } else {
      WalkSubdirsSound(ig, root, subs[1..], x);
      var k, l :| 0 <= k < |subs[1..]| && KeepDir(ig, subs[1..][k].name) && Reachable(ig, subs[1..][k], l)
        && x == PathOf(root, Under(subs[1..][k].name, l));
      assert subs[1..][k] == subs[k + 1];
    }
  }

  /** The walk collects every reachable file. */
  lemma {:induction false} WalkComplete(ig: Ignore, root: string, d: Dir, l: Loc)
    requires Reachable(ig, d, l)
    ensures PathOf(root, l) in Walk(ig, root, d)
    decreases |l.dirs|
  {
    if l.dirs == [] {
      WalkCompleteHere(ig, root, d, l.file);
    } else {
      var rest := Loc(l.dirs[1..], l.file);
      var c :| c in d.subdirs && c.name == l.dirs[0] && Reachable(ig, c, rest);
      WalkComplete(ig, Join(root, c.name), c, rest);
      WalkCompleteBelow(ig, root, d, c, l);
    }
  }

  lemma WalkCompleteHere(ig: Ignore, root: string, d: Dir, f: string)
    requires f in d.files && KeepFile(ig, f)
    ensures PathOf(root, Loc([], f)) in Walk(ig, root, d)
  {
    KeptFilesComplete(ig, root, d.files, f);
    PathOfFile(root, f);
  }

  lemma WalkCompleteBelow(ig: Ignore, root: string, d: Dir, c: Dir, l: Loc)
    requires c in d.subdirs && KeepDir(ig, c.name)
    requires l.dirs != [] && l.dirs[0] == c.name
    requires PathOf(Join(root, c.name), Loc(l.dirs[1..], l.file)) in Walk(ig, Join(root, c.name), c)
    ensures PathOf(root, l) in Walk(ig, root, d)
  {
    var rest := Loc(l.dirs[1..], l.file);
    assert l == Under(c.name, rest);
    PathOfUnder(root, c.name, rest);
    WalkSubdirsComplete(ig, root, d.subdirs, c, PathOf(root, l));
  }

  lemma {:induction false} WalkSubdirsComplete(ig: Ignore, root: string, subs: seq<Dir>, c: Dir, x: string)
    requires c in subs && KeepDir(ig, c.name) && x in Walk(ig, Join(root, c.name), c)
    ensures x in WalkSubdirs(ig, root, subs)
  {
    if subs[0] != c {
      WalkSubdirsComplete(ig, root, subs[1..], c, x);
    }
  }

  /**
   * `collect_target_files` returns exactly the paths of the reachable files:
   * nothing else, and none of them is missed.
   */
  lemma CollectedExactly(basePath: string, d: Dir, x: string)
    ensures x in Collected(basePath, Some(d)) <==> exists l :: Reachable(CONFIGURED, d, l) && x == PathOf(basePath, l)
  {
    if x in Collected(basePath, Some(d)) {
      WalkSound(CONFIGURED, basePath, d, x);
    }
    if exists l :: Reachable(CONFIGURED, d, l) && x == PathOf(basePath, l) {
      var l :| Reachable(CONFIGURED, d, l) && x == PathOf(basePath, l);
      WalkComplete(CONFIGURED, basePath, d, l);
    }
  }

  // ---------------------------------------------------------------------
  // Consequences for trees whose entries are proper names.

  /** Every entry name below `d` is a single path component, as a real listing returns. */
  predicate WellNamed(d: Dir)
    decreases d
  {
    && (forall f | f in d.files :: Component(f))
    && (forall c | c in d.subdirs :: Component(c.name) && WellNamed(c))
  }

  /** No directory below `d` lists two entries of the same name. */
  predicate UniqueNames(d: Dir)
    decreases d
  {
    && (forall i, j | 0 <= i < j < |d.files| :: d.files[i] != d.files[j])
    && (forall i, j | 0 <= i < j < |d.subdirs| :: d.subdirs[i].name != d.subdirs[j].name)
    && (forall c | c in d.subdirs :: UniqueNames(c))
  }

  /** The names on the way to a reachable file are all components. */
  lemma {:induction false} ReachableParts(ig: Ignore, d: Dir, l: Loc)
    requires WellNamed(d) && Reachable(ig, d, l)
    ensures AllComponents(Parts(l))
    decreases |l.dirs|
  {
    if l.dirs != [] {
      var rest := Loc(l.dirs[1..], l.file);
      var c :| c in d.subdirs && c.name == l.dirs[0] && Reachable(ig, c, rest);
      ReachableParts(ig, c, rest);
      assert Parts(l) == [c.name] + Parts(rest);
    }
  }

  /** Every directory on the way to a reachable file survives pruning. */
  lemma {:induction false} ReachableKept(ig: Ignore, d: Dir, l: Loc)
    requires Reachable(ig, d, l)
    ensures forall k | 0 <= k < |l.dirs| :: KeepDir(ig, l.dirs[k])
    decreases |l.dirs|
  {
    if l.dirs != [] {
      var rest := Loc(l.dirs[1..], l.file);
      var c :| c in d.subdirs && c.name == l.dirs[0] && Reachable(ig, c, rest);
      ReachableKept(ig, c, rest);
      assert forall k | 1 <= k < |l.dirs| :: l.dirs[k] == rest.dirs[k - 1];
    }
  }

  /** Files at different locations have different paths. */
  lemma PathOfInjective(root: string, l1: Loc, l2: Loc)
    requires AllComponents(Parts(l1)) && AllComponents(Parts(l2))
    requires PathOf(root, l1) == PathOf(root, l2)
    ensures l1 == l2
  {
    JoinAllInjective(root, Parts(l1), Parts(l2));
    assert l1.dirs == Parts(l1)[..|l1.dirs|];
    assert l2.dirs == Parts(l2)[..|l2.dirs|];
  }

  /**
   * A file below a directory that pruning drops is never collected, even
   * when the same file would otherwise qualify.
   */
  lemma PrunedNeverCollected(ig: Ignore, root: string, d: Dir, l: Loc, k: int)
    requires WellNamed(d) && AllComponents(Parts(l))
    requires 0 <= k < |l.dirs| && !KeepDir(ig, l.dirs[k])
    ensures PathOf(root, l) !in Walk(ig, root, d)
  {
    if PathOf(root, l) in Walk(ig, root, d) {
      WalkSound(ig, root, d, PathOf(root, l));
      var l' :| Reachable(ig, d, l') && PathOf(root, l) == PathOf(root, l');
      ReachableParts(ig, d, l');
      PathOfInjective(root, l, l');
      ReachableKept(ig, d, l');
    }
  }

  /**
   * The root is never pruned: its own files are collected whatever its name,
   * even one in the ignore list.
   */
  lemma RootNeverPruned(ig: Ignore, root: string, d: Dir, f: string)
    requires f in d.files && KeepFile(ig, f)
    ensures Join(root, f) in Walk(ig, root, d)
  {
    WalkCompleteHere(ig, root, d, f);
    PathOfFile(root, f);
  }

  /** Every collected path starts with the base path (followed by '/' when `join` adds one). */
  lemma CollectedUnderBase(ig: Ignore, basePath: string, d: Dir, x: string)
    requires WellNamed(d) && x in Walk(ig, basePath, d)
    ensures |JoinPrefix(basePath)| < |x| && x[..|JoinPrefix(basePath)|] == JoinPrefix(basePath)
  {
    WalkSound(ig, basePath, d, x);
    var l :| Reachable(ig, d, l) && x == PathOf(basePath, l);
    ReachableParts(ig, d, l);
    JoinAllShape(basePath, Parts(l));
  }

  /** Sibling directories in `subs` are well named, uniquely named inside, and have different names. */
  predicate SiblingsWellFormed(subs: seq<Dir>)
  {
    && (forall c | c in subs :: Component(c.name) && WellNamed(c) && UniqueNames(c))
    && (forall i, j | 0 <= i < j < |subs| :: subs[i].name != subs[j].name)
  }

  lemma UnderParts(name: string, l: Loc)
    requires Component(name) && AllComponents(Parts(l))
    ensures AllComponents(Parts(Under(name, l)))
  {
    assert Parts(Under(name, l)) == [name] + Parts(l);
  }

  lemma JoinComponentInjective(root: string, a: string, b: string)
    requires Component(a) && Component(b) && Join(root, a) == Join(root, b)
    ensures a == b
  {
    JoinComponentTail(root, a);
    JoinComponentTail(root, b);
    TailAfterUnique(Join(root, a), '/', a, b);
  }

  lemma DistinctLast(xs: seq<string>)
    requires Distinct(xs) && xs != []
    ensures Distinct(xs[..|xs| - 1]) && xs[|xs| - 1] !in xs[..|xs| - 1]
  {
  }

  /** A file not listed earlier is not reported earlier. */
  lemma KeptFileNew(ig: Ignore, root: string, init: seq<string>, name: string)
    requires name !in init && Component(name) && forall f | f in init :: Component(f)
    ensures Join(root, name) !in KeptFiles(ig, root, init)
  {
    if Join(root, name) in KeptFiles(ig, root, init) {
      KeptFilesSound(ig, root, init, Join(root, name));
      var f :| f in init && KeepFile(ig, f) && Join(root, name) == Join(root, f);
      JoinComponentInjective(root, f, name);
    }
  }

  lemma {:induction false} KeptFilesDistinct(ig: Ignore, root: string, files: seq<string>)
    requires Distinct(files) && forall f | f in files :: Component(f)
    ensures Distinct(KeptFiles(ig, root, files))
  {
    if files != [] {
      var init, name := files[..|files| - 1], files[|files| - 1];
      DistinctLast(files);
      assert forall f | f in init :: f in files;
      KeptFilesDistinct(ig, root, init);
      var tail := if KeepFile(ig, name) then [Join(root, name)] else [];
      if KeepFile(ig, name) {
        KeptFileNew(ig, root, init, name);
      }
      DistinctAppend(KeptFiles(ig, root, init), tail);
    }
  }

  /** A collected path lies below exactly one of the sibling directories. */
  lemma WalkSubdirsPath(ig: Ignore, root: string, subs: seq<Dir>, x: string)
    requires SiblingsWellFormed(subs) && x in WalkSubdirs(ig, root, subs)
    ensures exists k, l ::
      && 0 <= k < |subs|
      && AllComponents(Parts(Under(subs[k].name, l)))
      && x == PathOf(root, Under(subs[k].name, l))
  {
    WalkSubdirsSound(ig, root, subs, x);
    var k, l :| && 0 <= k < |subs| && KeepDir(ig, subs[k].name) && Reachable(ig, subs[k], l)
      && x == PathOf(root, Under(subs[k].name, l));
    assert subs[k] in subs;
    ReachableParts(ig, subs[k], l);
    UnderParts(subs[k].name, l);
  }

  /** A file of the directory itself and a file below one of its sub-directories have different paths. */
  lemma FileApartFromUnder(root: string, f: string, name: string, l: Loc)
    requires Component(f) && AllComponents(Parts(Under(name, l)))
    ensures Join(root, f) != PathOf(root, Under(name, l))
  {
    PathOfFile(root, f);
    assert Parts(Loc([], f)) == [f];
    if Join(root, f) == PathOf(root, Under(name, l)) {
      PathOfInjective(root, Loc([], f), Under(name, l));
    }
  }

  /** A directory's own files and what lies below its sub-directories have different paths. */
  lemma FilesApartFromSubdirs(ig: Ignore, root: string, d: Dir, x: string)
    requires WellNamed(d) && UniqueNames(d) && x in KeptFiles(ig, root, d.files)
    ensures x !in WalkSubdirs(ig, root, d.subdirs)
  {
    KeptFilesSound(ig, root, d.files, x);
    var f :| f in d.files && KeepFile(ig, f) && x == Join(root, f);
    if x in WalkSubdirs(ig, root, d.subdirs) {
      assert SiblingsWellFormed(d.subdirs);
      WalkSubdirsPath(ig, root, d.subdirs, x);
      var k, l :| 0 <= k < |d.subdirs| && AllComponents(Parts(Under(d.subdirs[k].name, l)))
        && x == PathOf(root, Under(d.subdirs[k].name, l));
      FileApartFromUnder(root, f, d.subdirs[k].name, l);
    }
  }

  /**
   * In a tree of proper, unique names the walk never reports the same path
   * twice.
   */
  lemma {:induction false} WalkDistinct(ig: Ignore, root: string, d: Dir)
    requires WellNamed(d) && UniqueNames(d)
    ensures Distinct(Walk(ig, root, d))
    decreases d
  {
    var here, below := KeptFiles(ig, root, d.files), WalkSubdirs(ig, root, d.subdirs);
    KeptFilesDistinct(ig, root, d.files);
    assert SiblingsWellFormed(d.subdirs);
    WalkSubdirsDistinct(ig, root, d.subdirs);
    forall x | x in here ensures x !in below {
      FilesApartFromSubdirs(ig, root, d, x);
    }
    DistinctAppend(here, below);
  }

  lemma SiblingsRest(subs: seq<Dir>)
    requires SiblingsWellFormed(subs) && subs != []
    ensures SiblingsWellFormed(subs[1..])
  {
    forall i, j | 0 <= i < j < |subs[1..]| ensures subs[1..][i].name != subs[1..][j].name {
      assert subs[1..][i] == subs[i + 1] && subs[1..][j] == subs[j + 1];
    }
  }

  /** Files below differently named sub-directories have different paths. */
  lemma UnderApart(root: string, n1: string, l1: Loc, n2: string, l2: Loc)
    requires n1 != n2 && AllComponents(Parts(Under(n1, l1))) && AllComponents(Parts(Under(n2, l2)))
    ensures PathOf(root, Under(n1, l1)) != PathOf(root, Under(n2, l2))
  {
    assert Under(n1, l1).dirs[0] != Under(n2, l2).dirs[0];
    if PathOf(root, Under(n1, l1)) == PathOf(root, Under(n2, l2)) {
      PathOfInjective(root, Under(n1, l1), Under(n2, l2));
    }
  }

  /** What lies below the first sibling and below the later ones have different paths. */
  lemma FirstApartFromRest(ig: Ignore, root: string, subs: seq<Dir>, x: string)
    requires SiblingsWellFormed(subs) && subs != []
    requires x in Walk(ig, Join(root, subs[0].name), subs[0])
    ensures x !in WalkSubdirs(ig, root, subs[1..])
  {
    var c := subs[0];
    assert c in subs;
    WalkSound(ig, Join(root, c.name), c, x);
    var l :| Reachable(ig, c, l) && x == PathOf(Join(root, c.name), l);
    ReachableParts(ig, c, l);
    UnderParts(c.name, l);
    PathOfUnder(root, c.name, l);
    if x in WalkSubdirs(ig, root, subs[1..]) {
      SiblingsRest(subs);
      WalkSubdirsPath(ig, root, subs[1..], x);
      var k, l' :| 0 <= k < |subs[1..]| && AllComponents(Parts(Under(subs[1..][k].name, l')))
        && x == PathOf(root, Under(subs[1..][k].name, l'));
      assert subs[1..][k] == subs[k + 1];
      UnderApart(root, c.name, l, subs[k + 1].name, l');
    }
  }

  lemma {:induction false} WalkSubdirsDistinct(ig: Ignore, root: string, subs: seq<Dir>)
    requires SiblingsWellFormed(subs)
    ensures Distinct(WalkSubdirs(ig, root, subs))
    decreases subs
  {
    if subs != [] {
      var c := subs[0];
      assert c in subs;
      var head := if KeepDir(ig, c.name) then Walk(ig, Join(root, c.name), c) else [];
      var rest := WalkSubdirs(ig, root, subs[1..]);
      if KeepDir(ig, c.name) {
        WalkDistinct(ig, Join(root, c.name), c);
      }
      SiblingsRest(subs);
      WalkSubdirsDistinct(ig, root, subs[1..]);
      forall x | x in head ensures x !in rest {
        FirstApartFromRest(ig, root, subs, x);
      }
      DistinctAppend(head, rest);
    }
  }

  // ---------------------------------------------------------------------
  // The configured lists.

  /** A base path with nothing behind it (missing, or not a directory) collects nothing. */
  lemma MissingBaseCollectsNothing(basePath: string)
    ensures Collected(basePath, None) == []
  {
  }

  /**
   * Nothing below a `github_repos` directory is collected, so repositories
   * cloned by the Add Repo page are not indexed again from an enclosing tree.
   */
  lemma ClonedReposNeverCollected(basePath: string, d: Dir, l: Loc, k: int)
    requires WellNamed(d) && AllComponents(Parts(l))
    requires 0 <= k < |l.dirs| && l.dirs[k] == "github_repos"
    ensures PathOf(basePath, l) !in Collected(basePath, Some(d))
  {
    Config.ClonedReposIgnored();
    PrunedNeverCollected(CONFIGURED, basePath, d, l, k);
  }

  /** ".tar.gz" never matches: an archive "x.tar.gz" has extension ".gz" and is collected. */
  lemma TarGzArchiveKept()
    ensures KeepFile(CONFIGURED, "x.tar.gz")
  {
    TarGzExtension();
  }

  /** A dot file such as ".env" has no extension, so it is collected despite the ".env" entry. */
  lemma DotEnvKept()
    ensures KeepFile(CONFIGURED, ".env")
  {
    DotFileHasNoExtension();
  }

  /** The ".env" entry excludes files named like "settings.env". */
  lemma NamedEnvFileSkipped()
    ensures !KeepFile(CONFIGURED, "settings.env")
  {
    NamedEnvFileExtension();
  }

  // ---------------------------------------------------------------------
  // The order of the walk.

  /** The locations of the files of a directory that the inner loop keeps, in order. */
  function FileLocs(ig: Ignore, files: seq<string>): seq<Loc>
  {
    if files == [] then []
    else
      var name := files[|files| - 1];
      FileLocs(ig, files[..|files| - 1]) + (if KeepFile(ig, name) then [Loc([], name)] else [])
  }

  /** Locations inside the subdirectory `name`, seen from its parent. */
  function UnderAll(name: string, ls: seq<Loc>): (r: seq<Loc>)
    ensures |r| == |ls|
    ensures forall i | 0 <= i < |r| :: r[i] == Under(name, ls[i])
  {
    seq(|ls|, i requires 0 <= i < |ls| => Under(name, ls[i]))
  }

  /** The locations of the files the walk collects below `d`, in the order it collects them. */
  function Locs(ig: Ignore, d: Dir): seq<Loc>
    decreases d
  {
    FileLocs(ig, d.files) + SubLocs(ig, d.subdirs)
  }

  function SubLocs(ig: Ignore, subs: seq<Dir>): seq<Loc>
    decreases subs
  {
    if subs == [] then []
    else
      var c := subs[0];
      (if KeepDir(ig, c.name) then UnderAll(c.name, Locs(ig, c)) else []) + SubLocs(ig, subs[1..])
  }

  /** `paths` are the paths of the locations `ls` from `root`, one for one. */
  predicate ListsPaths(root: string, ls: seq<Loc>, paths: seq<string>)
  {
    |paths| == |ls| && forall i | 0 <= i < |ls| :: paths[i] == PathOf(root, ls[i])
  }

  lemma ListsPathsAppend(root: string, l1: seq<Loc>, p1: seq<string>, l2: seq<Loc>, p2: seq<string>)
    requires ListsPaths(root, l1, p1) && ListsPaths(root, l2, p2)
    ensures ListsPaths(root, l1 + l2, p1 + p2)
  {
    forall i | 0 <= i < |l1 + l2| ensures (p1 + p2)[i] == PathOf(root, (l1 + l2)[i]) {
      if i >= |l1| {
        assert (p1 + p2)[i] == p2[i - |l1|] && (l1 + l2)[i] == l2[i - |l1|];
      }
    }
  }

  lemma ListsPathsUnder(root: string, name: string, ls: seq<Loc>, paths: seq<string>)
    requires ListsPaths(Join(root, name), ls, paths)
    ensures ListsPaths(root, UnderAll(name, ls), paths)
  {
    forall i | 0 <= i < |ls| ensures paths[i] == PathOf(root, UnderAll(name, ls)[i]) {
      PathOfUnder(root, name, ls[i]);
    }
  }

  lemma {:induction false} KeptFilesLocs(ig: Ignore, root: string, files: seq<string>)
    ensures ListsPaths(root, FileLocs(ig, files), KeptFiles(ig, root, files))
  {
    if files != [] {
      var name := files[|files| - 1];
      KeptFilesLocs(ig, root, files[..|files| - 1]);
      PathOfFile(root, name);
      ListsPathsAppend(root, FileLocs(ig, files[..|files| - 1]), KeptFiles(ig, root, files[..|files| - 1]),
        if KeepFile(ig, name) then [Loc([], name)] else [], if KeepFile(ig, name) then [Join(root, name)] else []);
    }
  }

  /** The walk collects, in order, the paths of the locations `Locs` lists. */
  lemma {:induction false} WalkLocs(ig: Ignore, root: string, d: Dir)
    ensures ListsPaths(root, Locs(ig, d), Walk(ig, root, d))
    decreases d
  {
    KeptFilesLocs(ig, root, d.files);
    WalkSubdirsLocs(ig, root, d.subdirs);
    ListsPathsAppend(root, FileLocs(ig, d.files), KeptFiles(ig, root, d.files),
      SubLocs(ig, d.subdirs), WalkSubdirs(ig, root, d.subdirs));
  }

  lemma {:induction false} WalkSubdirsLocs(ig: Ignore, root: string, subs: seq<Dir>)
    ensures ListsPaths(root, SubLocs(ig, subs), WalkSubdirs(ig, root, subs))
    decreases subs
  {
    if subs != [] {
      var c := subs[0];
      WalkSubdirsLocs(ig, root, subs[1..]);
      if KeepDir(ig, c.name) {
        WalkLocs(ig, Join(root, c.name), c);
        ListsPathsUnder(root, c.name, Locs(ig, c), Walk(ig, Join(root, c.name), c));
        ListsPathsAppend(root, UnderAll(c.name, Locs(ig, c)), Walk(ig, Join(root, c.name), c),
          SubLocs(ig, subs[1..]), WalkSubdirs(ig, root, subs[1..]));
      } else {
        ListsPathsAppend(root, [], [], SubLocs(ig, subs[1..]), WalkSubdirs(ig, root, subs[1..]));
      }
    }
  }

  lemma {:induction false} FileLocsAtTop(ig: Ignore, files: seq<string>)
    ensures forall i | 0 <= i < |FileLocs(ig, files)| :: FileLocs(ig, files)[i].dirs == []
  {
    if files != [] {
      FileLocsAtTop(ig, files[..|files| - 1]);
    }
  }

  lemma {:induction false} SubLocsBelow(ig: Ignore, subs: seq<Dir>)
    ensures forall i | 0 <= i < |SubLocs(ig, subs)| :: SubLocs(ig, subs)[i].dirs != []
    decreases subs
  {
    if subs != [] {
      SubLocsBelow(ig, subs[1..]);
    }
  }

  /**
   * Top-down order: once the walk has collected a file from below a
   * subdirectory, it collects no more files of the directory itself.
   */
  lemma OwnFilesFirst(ig: Ignore, d: Dir, i: int, j: int)
    requires 0 <= i < j < |Locs(ig, d)|
    requires Locs(ig, d)[j].dirs == []
    ensures Locs(ig, d)[i].dirs == []
  {
    var own := FileLocs(ig, d.files);
    FileLocsAtTop(ig, d.files);
    SubLocsBelow(ig, d.subdirs);
    assert Locs(ig, d)[i] == own[i];
  }
}
