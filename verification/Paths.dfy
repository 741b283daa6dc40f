/** Absolute paths as FUSE hands them over, and what dirname(3) and basename(3) make of them. */
module Paths {

  type Path = string

  const ROOT_DIR: Path := "/"

  /** A single path component. */
  predicate ValidName(n: string) {
    n != "" && '/' !in n
  }

  /** Starts with a slash; no empty components; no trailing slash except for the root itself. */
  predicate Normal(p: Path) {
    p == ROOT_DIR ||
    (p != "" && p[0] == '/' && p[|p| - 1] != '/' && forall i :: 0 <= i < |p| - 1 ==> p[i] != '/' || p[i + 1] != '/')
  }

  /** Position of the last slash. */
  function LastSlash(p: Path): (k: nat)
    requires '/' in p
    ensures k < |p| && p[k] == '/' && '/' !in p[k + 1..]
  {
    if p[|p| - 1] == '/' then |p| - 1
    else
      assert p == p[..|p| - 1] + [p[|p| - 1]];
      var k := LastSlash(p[..|p| - 1]);
      assert p[k + 1..] == p[..|p| - 1][k + 1..] + [p[|p| - 1]];
      k
  }

  function Dirname(p: Path): Path
    requires Normal(p)
  {
    var k := LastSlash(p);
    if k == 0 then ROOT_DIR else p[..k]
  }

  function Basename(p: Path): string
    requires Normal(p)
  {
    if p == ROOT_DIR then ROOT_DIR else p[LastSlash(p) + 1..]
  }

  /** The path of entry `n` of directory `d`. */
  function Join(d: Path, n: string): Path {
    if d == ROOT_DIR then d + n else d + "/" + n
  }

  lemma LastSlashUnique(p: Path, k: nat)
    requires k < |p| && p[k] == '/' && '/' !in p[k + 1..]
    ensures LastSlash(p) == k
  {
  }

  lemma PrefixNormal(p: Path, k: nat)
    requires Normal(p) && p != ROOT_DIR && 0 < k < |p| && p[k] == '/'
    ensures Normal(p[..k]) && p[..k] != ROOT_DIR
  {
  }

  lemma SplitAt(p: Path, k: nat)
    requires k < |p| && p[k] == '/'
    ensures p[..k] + "/" + p[k + 1..] == p
  {
  }

  /** A path splits into a shorter normal directory and a valid name, and joining them gives it back. */
  lemma {:induction false} SplitJoin(p: Path)
    requires Normal(p) && p != ROOT_DIR
    ensures Normal(Dirname(p)) && |Dirname(p)| < |p|
    ensures ValidName(Basename(p))
    ensures Join(Dirname(p), Basename(p)) == p
  {
    var k := LastSlash(p);
    assert k < |p| - 1;
    assert p[k + 1..][0] == p[k + 1];
    SplitAt(p, k);
    if k == 0 {
      assert p[..k] + "/" == "/";
    } else {
      PrefixNormal(p, k);
    }
  }

  lemma JoinNormal(d: Path, n: string)
    requires Normal(d) && ValidName(n)
    ensures Normal(Join(d, n)) && Join(d, n) != ROOT_DIR
  {
    var p := Join(d, n);
    var k := if d == ROOT_DIR then 0 else |d|;
    assert p[k + 1..] == n && p[|p| - 1] == n[|n| - 1];
    forall i | 0 <= i < |p| - 1
      ensures p[i] != '/' || p[i + 1] != '/'
    {
      if i >= k { assert p[i + 1] == n[i - k]; }
      else { assert p[i] == d[i] && (i + 1 < k ==> p[i + 1] == d[i + 1]); }
    }
  }

  /** Joining a normal directory and a valid name is normal and splits back into the two, so different
      pairs never give the same path. */
  lemma JoinSplit(d: Path, n: string)
    requires Normal(d) && ValidName(n)
    ensures Normal(Join(d, n)) && Join(d, n) != ROOT_DIR
    ensures Dirname(Join(d, n)) == d && Basename(Join(d, n)) == n
  {
    JoinNormal(d, n);
    hide Normal, LastSlash;
    var p := Join(d, n);
    var k := if d == ROOT_DIR then 0 else |d|;
    assert p[k] == '/' && p[k + 1..] == n;
    LastSlashUnique(p, k);
    if d != ROOT_DIR { NotEmpty(d); assert p[..k] == d; }
  }

  lemma NotEmpty(d: Path)
    requires Normal(d)
    ensures d != ""
  {
  }
}
