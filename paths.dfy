/**
 * POSIX path manipulation as Python's `os.path` (posixpath) does it:
 * `basename`, `dirname`, `splitext` and `join`. Paths are plain strings and
 * no filesystem is consulted.
 */
module Paths {
  import opened Text

  predicate IsSlash(c: char) { c == '/' }

  predicate AllSlashes(s: string)
  {
    forall i :: 0 <= i < |s| ==> s[i] == '/'
  }

  /** `os.path.basename`: the text after the last '/'. */
  function Basename(p: string): (b: string)
    ensures '/' !in b
    ensures |b| <= |p| && b == p[|p| - |b|..]
    ensures |b| < |p| ==> p[|p| - |b| - 1] == '/'
  {
    LastSegment(p, '/')
  }

  /**
   * `os.path.dirname`: the text up to and including the last '/', with
   * trailing slashes removed unless it consists of slashes only.
   */
  function Dirname(p: string): string
  {
    var head := p[..LastIndexOf(p, '/') + 1];
    if head != "" && !AllSlashes(head) then RStripBy(head, IsSlash) else head
  }

  /** What `dirname` can return: empty, all slashes, or not ending in a slash. */
  predicate CanonicalDir(d: string)
  {
    d == "" || AllSlashes(d) || d[|d| - 1] != '/'
  }

  /** True when `p` has a character other than '.' strictly between `lo` and `hi`. */
  predicate HasNonDotBetween(p: string, lo: int, hi: int)
    requires -1 <= lo && hi <= |p|
  {
    exists k :: lo < k < hi && p[k] != '.'
  }

  /**
   * `os.path.splitext`: splits at the last '.' of the last path component,
   * unless everything before that dot in the component is dots (".bashrc").
   */
  function Splitext(p: string): (string, string)
  {
    var sepIndex := LastIndexOf(p, '/');
    var dotIndex := LastIndexOf(p, '.');
    if dotIndex > sepIndex && HasNonDotBetween(p, sepIndex, dotIndex)
    then (p[..dotIndex], p[dotIndex..])
    else (p, "")
  }

  /** `os.path.splitext(os.path.basename(p))[0]`: the file name without its extension. */
  function Stem(p: string): string
  {
    Splitext(Basename(p)).0
  }

  /** `os.path.join(a, b)`. */
  function Join(a: string, b: string): string
  {
    if |b| > 0 && b[0] == '/' then b
    else if a == "" || a[|a| - 1] == '/' then a + b
    else a + "/" + b
  }

  /** The two parts of `splitext` put together give the path back; the extension is one dotted suffix. */
  lemma SplitextParts(p: string)
    ensures Splitext(p).0 + Splitext(p).1 == p
    ensures var ext := Splitext(p).1;
            ext == "" || (ext[0] == '.' && '/' !in ext && '.' !in ext[1..])
  {
    var sepIndex := LastIndexOf(p, '/');
    var dotIndex := LastIndexOf(p, '.');
    if dotIndex > sepIndex && HasNonDotBetween(p, sepIndex, dotIndex) {
      var ext := p[dotIndex..];
      assert p[..dotIndex] + ext == p;
      forall j | 0 <= j < |ext| ensures ext[j] != '/' && (j > 0 ==> ext[j] != '.') {
        assert ext[j] == p[dotIndex + j];
      }
    }
  }

  /** A path with a file name has a non-empty stem: `splitext` never leaves an empty root of a name. */
  lemma StemNonEmpty(p: string)
    requires Basename(p) != ""
    ensures Stem(p) != ""
  {
    var b := Basename(p);
    var sepIndex := LastIndexOf(b, '/');
    var dotIndex := LastIndexOf(b, '.');
    assert sepIndex == -1;
    if dotIndex > sepIndex && HasNonDotBetween(b, sepIndex, dotIndex) {
      var k :| sepIndex < k < dotIndex && b[k] != '.';
      assert |b[..dotIndex]| > 0;
    }
  }

  /** The stem of a path never contains a slash. */
  lemma StemHasNoSlash(p: string)
    ensures '/' !in Stem(p)
  {
    var b := Basename(p);
    SplitextParts(b);
    var r := Splitext(b).0;
    assert b[..|r|] == r;
    forall j | 0 <= j < |r| ensures r[j] != '/' {
      assert r[j] == b[j];
    }
  }

  /** `dirname` only returns canonical directory names. */
  lemma DirnameCanonical(p: string)
    ensures CanonicalDir(Dirname(p))
  {
  }

  /** A plain file name joined onto a directory is the basename of the result. */
  lemma BasenameOfJoin(d: string, n: string)
    requires n != "" && '/' !in n
    ensures Basename(Join(d, n)) == n
  {
    var j := Join(d, n);
    assert j[|j| - |n|..] == n;
    var k := LastIndexOf(j, '/');
    forall i | |j| - |n| <= i < |j| ensures j[i] != '/' {
      assert j[i] == n[i - (|j| - |n|)];
    }
    if |j| > |n| {
      assert j[|j| - |n| - 1] == '/' || d == "";
      assert j[|j| - |n| - 1] == '/';
      assert k == |j| - |n| - 1;
    } else {
      assert k == -1;
    }
  }

  /** Joining a plain file name onto a `dirname` result keeps that directory as the `dirname`. */
  lemma DirnameOfJoin(d: string, n: string)
    requires CanonicalDir(d)
    requires n != "" && '/' !in n
    ensures Dirname(Join(d, n)) == d
  {
    if d == "" {
      assert Join(d, n) == n;
      assert LastIndexOf(n, '/') == -1;
    } else if AllSlashes(d) {
      DirnameUnderSlashes(d, n);
    } else {
      DirnameUnderDirectory(d, n);
    }
  }

  /** After the last slash of `a + n` comes `n`, when `n` has no slash and `a` ends in one. */
  lemma LastSlashBefore(a: string, n: string)
    requires a != [] && a[|a| - 1] == '/' && '/' !in n
    ensures LastIndexOf(a + n, '/') == |a| - 1
  {
    var j := a + n;
    forall i | |a| <= i < |j| ensures j[i] != '/' {
      assert j[i] == n[i - |a|];
    }
    assert j[|a| - 1] == '/';
  }

  lemma DirnameUnderSlashes(d: string, n: string)
    requires d != "" && AllSlashes(d)
    requires n != "" && '/' !in n
    ensures Dirname(Join(d, n)) == d
  {
    var j := Join(d, n);
    assert j == d + n;
    LastSlashBefore(d, n);
    assert j[..|d|] == d;
  }

  lemma DirnameUnderDirectory(d: string, n: string)
    requires d != "" && d[|d| - 1] != '/'
    requires n != "" && '/' !in n
    ensures Dirname(Join(d, n)) == d
  {
    var j := Join(d, n);
    var a := d + "/";
    assert j == a + n;
    LastSlashBefore(a, n);
    var head := j[..|a|];
    assert head == a;
    assert !AllSlashes(head) by { assert head[|d| - 1] != '/'; }
    assert a[..|a| - 1] == d;
  }

  /** Joining a plain file name onto the directory of `p` yields a sibling of `p`. */
  lemma SiblingPath(p: string, n: string)
    requires n != "" && '/' !in n
    ensures Dirname(Join(Dirname(p), n)) == Dirname(p)
    ensures Basename(Join(Dirname(p), n)) == n
  {
    DirnameCanonical(p);
    DirnameOfJoin(Dirname(p), n);
    BasenameOfJoin(Dirname(p), n);
  }
}
