/**
 * The three `posixpath` functions the file collector and the chunker call:
 * `join` (two arguments), `basename` and `splitext`, as CPython's
 * `posixpath`/`genericpath` define them for `str` paths with '/' as the
 * separator and '.' as the extension separator.
 */
module PosixPath {
  import opened PyStr

  /** `posixpath.basename(p)`: the part after the last '/', the same tail as `p.split("/")[-1]`. */
  function Basename(p: string): (r: string)
    ensures IsTailAfter(p, '/', r)
  {
    LastPiece(p, '/')
  }

  predicate StartsWithSlash(s: string)
  {
    |s| > 0 && s[0] == '/'
  }

  /**
   * `posixpath.join(a, b)`: an absolute `b` replaces `a`; otherwise `b` is
   * appended to `a`, with a '/' between them unless `a` is empty or already
   * ends with one.
   */
  function Join(a: string, b: string): (r: string)
    ensures |b| <= |r| && r[|r| - |b|..] == b
    ensures StartsWithSlash(b) ==> r == b
    ensures !StartsWithSlash(b) ==>
      && |a| <= |r| && r[..|a|] == a
      && (if a == "" || a[|a| - 1] == '/' then |r| == |a| + |b| else |r| == |a| + 1 + |b| && r[|a|] == '/')
  {
    if StartsWithSlash(b) then b
    else if a == "" || a[|a| - 1] == '/' then a + b
    else a + "/" + b
  }

  /** What `join(a, ·)` puts in front of a relative second argument. */
  function JoinPrefix(a: string): string
  {
    if a == "" || a[|a| - 1] == '/' then a else a + "/"
  }

  lemma JoinRelative(a: string, b: string)
    requires !StartsWithSlash(b)
    ensures Join(a, b) == JoinPrefix(a) + b
  {
  }

  /** Some character of `s` at an index in [lo, hi) is not a dot. */
  predicate NonDotIn(s: string, lo: int, hi: int)
  {
    exists i | lo <= i < hi && 0 <= i < |s| :: s[i] != '.'
  }

  /**
   * `posixpath.splitext(p)`: the extension runs from the last '.' to the end,
   * provided that dot comes after the last '/' and some character other
   * than '.' precedes it within the last component; otherwise it is empty.
   */
  function Splitext(p: string): (r: (string, string))
    ensures r.0 + r.1 == p
    ensures r.1 == "" || (r.1[0] == '.' && forall k | 0 < k < |r.1| :: r.1[k] != '.' && r.1[k] != '/')
  {
    var sepIndex := RFind(p, '/');
    var dotIndex := RFind(p, '.');
    if dotIndex > sepIndex && NonDotIn(p, sepIndex + 1, dotIndex) then
      var ext := p[dotIndex..];
      forall k | 1 <= k < |ext| ensures ext[k] != '.' && ext[k] != '/' {
        assert ext[k] == p[dotIndex + k];
      }
      (p[..dotIndex], ext)
    else
      (p, "")
  }

  /** The extension part of `splitext`. */
  function Extension(p: string): string
  {
    Splitext(p).1
  }

  /**
   * A file name (no '/') has an extension exactly when some dot in it has a
   * non-dot character before it.
   */
  lemma ExtensionOfName(name: string)
    requires '/' !in name
    ensures Extension(name) != "" <==>
      exists j, i :: 0 <= j < i < |name| && name[j] != '.' && name[i] == '.'
  {
    var dotIndex := RFind(name, '.');
    assert RFind(name, '/') == -1;
    if exists j, i :: 0 <= j < i < |name| && name[j] != '.' && name[i] == '.' {
      var j, i :| 0 <= j < i < |name| && name[j] != '.' && name[i] == '.';
      assert i <= dotIndex;
      assert NonDotIn(name, 0, dotIndex);
    }
  }

  /** A non-empty extension is '.' followed by what comes after the last dot. */
  lemma ExtensionAfterLastDot(p: string)
    requires Extension(p) != ""
    ensures IsTailAfter(p, '.', Extension(p)[1..])
  {
    var dotIndex := RFind(p, '.');
    var e := Extension(p);
    assert e == p[dotIndex..];
    assert e[1..] == p[dotIndex + 1..];
    TailAfterLastSep(p, '.');
  }

  /** An extension holds one dot only, so a two-dot entry such as ".tar.gz" is never one. */
  lemma NoDoubleExtension(p: string, e: string)
    requires |e| >= 2 && e[0] == '.' && '.' in e[1..]
    ensures Extension(p) != e
  {
  }

  /** `splitext("x.tar.gz")` gives ".gz", not ".tar.gz". */
  lemma TarGzExtension()
    ensures Extension("x.tar.gz") == ".gz"
  {
    var p := "x.tar.gz";
    assert RFind(p, '/') == -1;
    assert RFind(p, '.') == 5 by {
      var r := RFind(p, '.');
      assert p[r] == '.';
      assert r == 1 || r == 5;
      assert r != 1 by { assert p[5] in p[2..]; }
    }
    assert p[0] == 'x';
    assert p[5..] == ".gz";
  }

  /** A dot file such as ".env" has no extension. */
  lemma DotFileHasNoExtension()
    ensures Extension(".env") == ""
  {
    var p := ".env";
    assert RFind(p, '/') == -1;
    assert p[0] == '.';
    assert RFind(p, '.') == 0;
  }

  /** "settings.env" does have the extension ".env". */
  lemma NamedEnvFileExtension()
    ensures Extension("settings.env") == ".env"
  {
    var p := "settings.env";
    assert RFind(p, '/') == -1;
    assert p[8] == '.';
    assert RFind(p, '.') == 8;
    assert p[0] == 's';
    assert p[8..] == ".env";
  }

  /** A single path component as a directory listing returns it: non-empty, without '/'. */
  predicate Component(s: string)
  {
    s != "" && '/' !in s
  }

  predicate AllComponents(parts: seq<string>)
  {
    forall k | 0 <= k < |parts| :: Component(parts[k])
  }

  /** `join(root, p1, ..., pn)`: the parts joined on one at a time. */
  function JoinAll(root: string, parts: seq<string>): string
  {
    if parts == [] then root else Join(JoinAll(root, parts[..|parts| - 1]), parts[|parts| - 1])
  }

  /** Joining the first part on, then the rest, is joining them all. */
  lemma {:induction false} JoinAllCons(root: string, a: string, parts: seq<string>)
    ensures JoinAll(root, [a] + parts) == JoinAll(Join(root, a), parts)
  {
    if parts != [] {
      var init := parts[..|parts| - 1];
      assert ([a] + parts)[..|[a] + parts| - 1] == [a] + init;
      JoinAllCons(root, a, init);
    } else {
      assert ([a] + parts)[..0] == [];
    }
  }

  /** Joining a component on makes that component the final one. */
  lemma JoinComponentTail(f: string, a: string)
    requires Component(a)
    ensures IsTailAfter(Join(f, a), '/', a)
  {
    JoinRelative(f, a);
    var r := Join(f, a);
    assert r[|r| - |a|..] == a;
  }

  /**
   * Joining components on gives a path that extends what `join` puts in
   * front of the first one and ends with a character other than '/'.
   */
  lemma {:induction false} JoinAllShape(root: string, parts: seq<string>)
    requires AllComponents(parts) && parts != []
    ensures var r := JoinAll(root, parts);
      |JoinPrefix(root)| < |r| && r[..|JoinPrefix(root)|] == JoinPrefix(root) && r[|r| - 1] != '/'
  {
    var init, a := parts[..|parts| - 1], parts[|parts| - 1];
    assert Component(a);
    var f := JoinAll(root, init);
    JoinRelative(f, a);
    assert a[|a| - 1] != '/';
    if init != [] {
      JoinAllShape(root, init);
    }
  }

  lemma InitLast(p: seq<string>)
    requires p != []
    ensures p == p[..|p| - 1] + [p[|p| - 1]]
  {
  }

  /** Equal paths built from components end with the same component. */
  lemma JoinAllSameLast(root: string, p1: seq<string>, p2: seq<string>)
    requires AllComponents(p1) && AllComponents(p2) && p1 != [] && p2 != []
    requires JoinAll(root, p1) == JoinAll(root, p2)
    ensures p1[|p1| - 1] == p2[|p2| - 1]
  {
    var a1, a2 := p1[|p1| - 1], p2[|p2| - 1];
    assert Component(a1) && Component(a2);
    JoinComponentTail(JoinAll(root, p1[..|p1| - 1]), a1);
    JoinComponentTail(JoinAll(root, p2[..|p2| - 1]), a2);
    TailAfterUnique(JoinAll(root, p1), '/', a1, a2);
  }

  lemma CancelSuffix(u: string, v: string, a: string)
    requires u + a == v + a
    ensures u == v
  {
    assert u == (u + a)[..|u|];
    assert v == (v + a)[..|v|];
  }

  /** ... and what comes before that component is the same path too. */
  lemma JoinAllSameInit(root: string, p1: seq<string>, p2: seq<string>)
    requires AllComponents(p1) && AllComponents(p2) && p1 != [] && p2 != []
    requires JoinAll(root, p1) == JoinAll(root, p2)
    requires p1[|p1| - 1] == p2[|p2| - 1]
    ensures JoinAll(root, p1[..|p1| - 1]) == JoinAll(root, p2[..|p2| - 1])
  {
    var a := p1[|p1| - 1];
    assert Component(a);
    var f1, f2 := JoinAll(root, p1[..|p1| - 1]), JoinAll(root, p2[..|p2| - 1]);
    JoinRelative(f1, a);
    JoinRelative(f2, a);
    CancelSuffix(JoinPrefix(f1), JoinPrefix(f2), a);
    SamePrefixSameBase(root, p1[..|p1| - 1], p2[..|p2| - 1]);
  }

  /** Different lists of components joined onto the same root give different paths. */
  lemma {:induction false} JoinAllInjective(root: string, p1: seq<string>, p2: seq<string>)
    requires AllComponents(p1) && AllComponents(p2)
    requires JoinAll(root, p1) == JoinAll(root, p2)
    ensures p1 == p2
    decreases |p1|
  {
    if p1 == [] && p2 != [] {
      JoinAllShape(root, p2);
    } else if p1 != [] && p2 == [] {
      JoinAllShape(root, p1);
    } else if p1 != [] {
      JoinAllSameLast(root, p1, p2);
      JoinAllSameInit(root, p1, p2);
      JoinAllInjective(root, p1[..|p1| - 1], p2[..|p2| - 1]);
      InitLast(p1);
      InitLast(p2);
    }
  }

  /** Paths built from components by `join` differ when what `join` would put after them does. */
  lemma SamePrefixSameBase(root: string, p1: seq<string>, p2: seq<string>)
    requires AllComponents(p1) && AllComponents(p2)
    requires JoinPrefix(JoinAll(root, p1)) == JoinPrefix(JoinAll(root, p2))
    ensures JoinAll(root, p1) == JoinAll(root, p2)
  {
    var f1, f2 := JoinAll(root, p1), JoinAll(root, p2);
    if p1 != [] {
      JoinAllShape(root, p1);
    }
    if p2 != [] {
      JoinAllShape(root, p2);
    }
    if p1 != [] && p2 != [] {
      assert f1 + "/" == f2 + "/";
      assert f1 == (f1 + "/")[..|f1|];
    }
  }
}
