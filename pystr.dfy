/**
 * The few Python `str` operations the application relies on, modelled on
 * sequences of characters: the text repeated `+=` builds, `str.rfind` for
 * one character, the last piece of `str.split` with a one-character
 * separator, `in` for substrings and `str.replace(old, "")`.
 */
module PyStr {

  /** The text a loop of `acc += part` builds from `""` over `parts`. */
  function Concat(parts: seq<string>): string
  {
    if parts == [] then "" else Concat(parts[..|parts| - 1]) + parts[|parts| - 1]
  }

  /** Total number of characters in `parts`. */
  function TotalLength(parts: seq<string>): nat
  {
    if parts == [] then 0 else TotalLength(parts[..|parts| - 1]) + |parts[|parts| - 1]|
  }

  lemma {:induction false} ConcatAppend(a: seq<string>, b: seq<string>)
    ensures Concat(a + b) == Concat(a) + Concat(b)
    decreases |b|
  {
    if b == [] {
      assert a + b == a;
    } else {
      var init, x := b[..|b| - 1], b[|b| - 1];
      assert (a + b)[..|a + b| - 1] == a + init;
      assert (a + b)[|a + b| - 1] == x;
      ConcatAppend(a, init);
      calc {
        Concat(a + b);
        Concat(a + init) + x;
        Concat(a) + Concat(init) + x;
        Concat(a) + Concat(b);
      }
    }
  }

  lemma {:induction false} ConcatLength(parts: seq<string>)
    ensures |Concat(parts)| == TotalLength(parts)
  {
    if parts != [] {
      ConcatLength(parts[..|parts| - 1]);
    }
  }

  /** `s.rfind(c)`: the last index holding `c`, or -1. */
  function RFind(s: string, c: char): (r: int)
    ensures -1 <= r < |s|
    ensures r >= 0 ==> s[r] == c
    ensures forall k | r < k < |s| :: s[k] != c
  {
    if s == [] then -1
    else if s[|s| - 1] == c then |s| - 1
    else
      RFind(s[..|s| - 1], c)
  }

  /**
   * `t` is the part of `s` after its last `sep`: a suffix of `s` without
   * `sep`, preceded in `s` by `sep` unless it is all of `s`.
   */
  predicate IsTailAfter(s: string, sep: char, t: string)
  {
    && |t| <= |s|
    && s[|s| - |t|..] == t
    && (forall k | 0 <= k < |t| :: t[k] != sep)
    && (|t| < |s| ==> s[|s| - |t| - 1] == sep)
  }

  /** There is only one such tail. */
  lemma TailAfterUnique(s: string, sep: char, t1: string, t2: string)
    requires IsTailAfter(s, sep, t1) && IsTailAfter(s, sep, t2)
    ensures t1 == t2
  {
  }

  /** `s[s.rfind(sep) + 1:]` is that tail. */
  lemma TailAfterLastSep(s: string, sep: char)
    ensures IsTailAfter(s, sep, s[RFind(s, sep) + 1..])
  {
  }

  /**
   * `s.split(sep)[-1]` for a one-character separator: the last of the pieces
   * between separators, which is everything after the last `sep` (all of `s`
   * when it holds none).
   */
  function LastPiece(s: string, sep: char): (r: string)
    ensures IsTailAfter(s, sep, r)
  {
    TailAfterLastSep(s, sep);
    s[RFind(s, sep) + 1..]
  }

  /** No two entries of `xs` are equal. */
  predicate Distinct(xs: seq<string>)
  {
    forall i, j | 0 <= i < j < |xs| :: xs[i] != xs[j]
  }

  /** Lists without duplicates and without common entries concatenate to one without duplicates. */
  lemma DistinctAppend(a: seq<string>, b: seq<string>)
    requires Distinct(a) && Distinct(b)
    requires forall x | x in a :: x !in b
    ensures Distinct(a + b)
  {
    forall i, j | 0 <= i < j < |a + b| ensures (a + b)[i] != (a + b)[j] {
      if j >= |a| && i < |a| {
        assert (a + b)[i] in a;
        assert (a + b)[j] == b[j - |a|];
      }
    }
  }

  /** `pat` occurs in `s` starting at index `i`. */
  predicate OccursAt(s: string, pat: string, i: nat)
  {
    i + |pat| <= |s| && s[i..i + |pat|] == pat
  }

  /** `pat in s`: `pat` occurs somewhere in `s`. */
  predicate Contains(s: string, pat: string)
  {
    exists i | 0 <= i <= |s| :: OccursAt(s, pat, i)
  }

  /**
   * `s.replace(pat, "")`: scanning from the left, every occurrence of `pat`
   * that does not overlap an earlier removed one is dropped.
   */
  function RemoveAll(s: string, pat: string): (r: string)
    requires pat != ""
    ensures |r| <= |s|
    ensures forall c :: c in r ==> c in s
    decreases |s|
  {
    if |s| < |pat| then s
    else if s[..|pat|] == pat then RemoveAll(s[|pat|..], pat)
    else [s[0]] + RemoveAll(s[1..], pat)
  }

  /** A character that cannot start `pat` is kept, and the scan goes on after it. */
  lemma RemoveAllKeep(c: char, s: string, pat: string)
    requires pat != "" && pat[0] != c
    ensures RemoveAll([c] + s, pat) == [c] + RemoveAll(s, pat)
  {
    var t := [c] + s;
    if |t| >= |pat| {
      assert t[..|pat|][0] == c;
      assert t[1..] == s;
    }
  }

  /** An occurrence of `pat` at the front is dropped, and the scan goes on after it. */
  lemma RemoveAllDrop(s: string, pat: string)
    requires pat != ""
    ensures RemoveAll(pat + s, pat) == RemoveAll(s, pat)
  {
    var t := pat + s;
    assert t[..|pat|] == pat;
    assert t[|pat|..] == s;
  }

  /** Without an occurrence of `pat`, `replace` changes nothing. */
  lemma {:induction false} RemoveAllAbsent(s: string, pat: string)
    requires pat != "" && !Contains(s, pat)
    ensures RemoveAll(s, pat) == s
    decreases |s|
  {
    if |s| >= |pat| {
      assert !OccursAt(s, pat, 0);
      assert !Contains(s[1..], pat) by {
        forall i: nat | OccursAt(s[1..], pat, i) ensures false {
          assert s[1..][i..i + |pat|] == s[i + 1..i + 1 + |pat|];
          assert OccursAt(s, pat, i + 1);
        }
      }
      RemoveAllAbsent(s[1..], pat);
      assert s == [s[0]] + s[1..];
    }
  }

  /**
   * A trailing ".git" is removed, and only it, when the rest holds no ".git":
   * no occurrence can straddle the boundary because no proper prefix of ".git"
   * is also a suffix of it.
   */
  lemma {:induction false} RemoveGitSuffix(a: string)
    requires !Contains(a, ".git")
    ensures RemoveAll(a + ".git", ".git") == a
    decreases |a|
  {
    var s := a + ".git";
    if a == [] {
      assert s[..4] == ".git";
      assert s[4..] == [];
    } else {
      assert s[..4] != ".git" by {
        if |a| >= 4 {
          assert !OccursAt(a, ".git", 0);
          assert a[..4] == s[..4];
        } else {
          assert s[|a|] == '.';
        }
      }
      assert !Contains(a[1..], ".git") by {
        forall i: nat | OccursAt(a[1..], ".git", i) ensures false {
          assert i + 4 <= |a| - 1;
          assert a[1..][i..i + 4] == a[i + 1..i + 5];
          assert OccursAt(a, ".git", i + 1);
        }
      }
      RemoveGitSuffix(a[1..]);
      assert s[1..] == a[1..] + ".git";
      assert a == [a[0]] + a[1..];
    }
  }
}
