/** POSIX `os.path.join` (two arguments) and `os.path.basename`. */
module Paths {

  /** `os.path.join(a, b)`: an absolute `b` replaces `a`; otherwise `b` is
      appended after a separator, unless `a` is empty or already ends in one. */
  function PathJoin(a: string, b: string): (r: string)
    ensures |r| >= |b| && r[|r| - |b|..] == b
    ensures (b == [] || b[0] != '/') ==> a <= r
    ensures (b != [] && b[0] == '/') ==> r == b
  {
    if b != [] && b[0] == '/' then b
    else if a == [] || a[|a| - 1] == '/' then a + b
    else a + "/" + b
  }

  /** `os.path.basename(p)`: everything after the last `/`. */
  function Basename(p: string): (r: string)
    ensures |r| <= |p| && r == p[|p| - |r|..]
    ensures '/' !in r
    ensures |r| < |p| ==> p[|p| - |r| - 1] == '/'
    decreases |p|
  {
    if p == [] || p[|p| - 1] == '/' then []
    else Basename(p[..|p| - 1]) + [p[|p| - 1]]
  }

  /** Appending text without `/` extends the last component. */
  lemma {:induction false} BasenameAppend(s: string, y: string)
    requires '/' !in y
    ensures Basename(s + y) == Basename(s) + y
    decreases |y|
  {
    if y == [] {
      assert s + y == s;
    } else {
      var c := y[|y| - 1];
      var y' := y[..|y| - 1];
      assert y == y' + [c];
      assert s + y == (s + y') + [c];
      BasenameAppend(s, y');
      BasenameSnoc(s + y', c);
    }
  }

  lemma BasenameSnoc(s: string, c: char)
    requires c != '/'
    ensures Basename(s + [c]) == Basename(s) + [c]
  {
    assert (s + [c])[..|s|] == s;
  }

  /** Joining a directory with a plain file name (no `/`) puts the file
      inside the directory: the directory is a prefix of the result and the
      result's last component is the name again. */
  lemma BasenameOfJoin(a: string, b: string)
    requires '/' !in b
    ensures a <= PathJoin(a, b)
    ensures Basename(PathJoin(a, b)) == b
  {
    if a == [] || a[|a| - 1] == '/' {
      assert PathJoin(a, b) == a + b;
      assert Basename(a) == [];
      BasenameAppend(a, b);
    } else {
      var d := a + "/";
      assert PathJoin(a, b) == d + b;
      assert d[|d| - 1] == '/';
      assert Basename(d) == [];
      BasenameAppend(d, b);
    }
  }

  /** Joining the same directory with distinct relative names gives
      distinct paths. */
  lemma PathJoinInjective(a: string, b: string, c: string)
    requires b == [] || b[0] != '/'
    requires c == [] || c[0] != '/'
    requires PathJoin(a, b) == PathJoin(a, c)
    ensures b == c
  {
    var r := PathJoin(a, b);
    var k := |r| - |b|;
    assert k == |PathJoin(a, c)| - |c|;
    assert b == r[k..] == c;
  }
}
