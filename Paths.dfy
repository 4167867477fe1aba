/** POSIX `path.basename` as the pipeline uses it to name the downloaded file. */
module Paths {

  predicate NoSlash(s: string) {
    forall i :: 0 <= i < |s| ==> s[i] != '/'
  }

  predicate IsSuffix(s: string, t: string) {
    |s| <= |t| && t[|t| - |s|..] == s
  }

  predicate IsPrefix(s: string, t: string) {
    |s| <= |t| && t[..|s|] == s
  }

  /** The index of the last '/' among the first `n` characters of `p`, or -1. */
  function LastSlash(p: string, n: nat): (k: int)
    requires n <= |p|
    ensures -1 <= k < n
    ensures k >= 0 ==> p[k] == '/'
    ensures forall i :: k < i < n ==> p[i] != '/'
  {
    if n == 0 then -1
    else if p[n - 1] == '/' then n - 1
    else LastSlash(p, n - 1)
  }

  /** The longest suffix of `p` that holds no '/': the text after its last slash. */
  function AfterLastSlash(p: string): (r: string)
    ensures NoSlash(r)
    ensures IsSuffix(r, p)
    ensures |r| < |p| ==> p[|p| - |r| - 1] == '/'
  {
    p[LastSlash(p, |p|) + 1..]
  }

  /** The length of the first `n` characters of `p` without the slashes they end with. */
  function TrimmedLength(p: string, n: nat): (m: nat)
    requires n <= |p|
    ensures m <= n
    ensures forall i :: m <= i < n ==> p[i] == '/'
    ensures m == 0 || p[m - 1] != '/'
  {
    if n == 0 || p[n - 1] != '/' then n else TrimmedLength(p, n - 1)
  }

  /** `p` without the slashes it ends with. */
  function TrimTrailingSlashes(p: string): (r: string)
    ensures IsPrefix(r, p)
    ensures forall i :: |r| <= i < |p| ==> p[i] == '/'
    ensures r == [] || r[|r| - 1] != '/'
  {
    p[..TrimmedLength(p, |p|)]
  }

  /** Node's posix `path.basename(p)`: trailing slashes are ignored, and the last
      segment of what remains is returned ("" for "" and for "/"). */
  function Basename(p: string): (r: string)
    ensures NoSlash(r)
    ensures IsSuffix(r, TrimTrailingSlashes(p))
    ensures var t := TrimTrailingSlashes(p); |r| < |t| ==> t[|t| - |r| - 1] == '/'
  {
    AfterLastSlash(TrimTrailingSlashes(p))
  }

  /** A path that does not end in '/' has the text after its last slash as basename. */
  lemma BasenameOfUnslashed(p: string)
    requires p != [] && p[|p| - 1] != '/'
    ensures Basename(p) == AfterLastSlash(p)
  {
    assert TrimmedLength(p, |p|) == |p|;
    assert TrimTrailingSlashes(p) == p[..|p|] == p;
  }

  /** Appending slash-free text does not move the last slash. */
  lemma {:induction false} LastSlashAppend(a: string, b: string, n: nat)
    requires NoSlash(b) && n <= |b|
    ensures LastSlash(a + b, |a| + n) == LastSlash(a, |a|)
  {
    if n == 0 {
      LastSlashPrefix(a + b, a, |a|);
    } else {
      assert (a + b)[|a| + n - 1] == b[n - 1];
      LastSlashAppend(a, b, n - 1);
    }
  }

  /** The last slash among the first `n` characters depends only on them. */
  lemma {:induction false} LastSlashPrefix(p: string, q: string, n: nat)
    requires n <= |p| && n <= |q| && p[..n] == q[..n]
    ensures LastSlash(p, n) == LastSlash(q, n)
  {
    if n > 0 {
      assert p[n - 1] == p[..n][n - 1] == q[..n][n - 1] == q[n - 1];
      assert p[..n - 1] == p[..n][..n - 1] && q[..n - 1] == q[..n][..n - 1];
      LastSlashPrefix(p, q, n - 1);
    }
  }

  /** Appending slash-free text extends the last segment by exactly that text. */
  lemma AfterLastSlashAppend(a: string, b: string)
    requires NoSlash(b)
    ensures AfterLastSlash(a + b) == AfterLastSlash(a) + b
  {
    var ab := a + b;
    var k := LastSlash(a, |a|);
    LastSlashAppend(a, b, |b|);
    assert LastSlash(ab, |ab|) == k;
    assert AfterLastSlash(ab) == ab[k + 1..];
    assert AfterLastSlash(a) == a[k + 1..];
    assert ab[k + 1..] == a[k + 1..] + b;
  }

  /** The basename of `dir + "/" + name` is `name`, for a non-empty slash-free name. */
  lemma BasenameOfJoin(dir: string, name: string)
    requires NoSlash(name) && name != []
    ensures Basename(dir + "/" + name) == name
  {
    var p := dir + "/" + name;
    assert p[|p| - 1] == name[|name| - 1];
    BasenameOfUnslashed(p);
    assert AfterLastSlash(dir + "/") == [];
    AfterLastSlashAppend(dir + "/", name);
  }
}
