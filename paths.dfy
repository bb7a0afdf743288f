/** File paths as `java.io.File` builds and splits them: `File(dir, name)`,
    `File(path).name` and `File(path).parentFile`, with `/` as the separator. */
module Paths {
  import opened Wrappers

  type Path = string

  /** Index of the last separator in `p`, or -1 when there is none. */
  function LastSlash(p: Path): (k: int)
    ensures -1 <= k < |p|
    ensures k >= 0 ==> p[k] == '/'
    ensures forall i :: k < i < |p| ==> p[i] != '/'
  {
    if |p| == 0 then -1
    else if p[|p| - 1] == '/' then |p| - 1
    else LastSlash(p[..|p| - 1])
  }

  /** `File(p).name`: what follows the last separator. */
  function BaseName(p: Path): (name: string)
    ensures '/' !in name
    ensures |name| <= |p| && p[|p| - |name|..] == name
    ensures |name| == |p| || p[|p| - |name| - 1] == '/'
  {
    p[LastSlash(p) + 1..]
  }

  /** `File(p).parentFile`: what precedes the last separator, or null. */
  function Parent(p: Path): (r: Option<Path>)
    ensures r.Some? <==> '/' in p
    ensures r.Some? ==> p == r.value + "/" + BaseName(p)
  {
    var k := LastSlash(p);
    if k < 0 then None else Some(p[..k])
  }

  /** `File(dir, name).absolutePath` for an absolute `dir`; an empty name
      denotes the directory itself. */
  function Join(dir: Path, name: string): Path {
    if name == "" then dir else dir + "/" + name
  }

  /** A path built from a directory and a plain file name has that name as its
      base name and that directory as its parent. */
  lemma JoinSplits(dir: Path, name: string)
    requires name != "" && '/' !in name
    ensures BaseName(Join(dir, name)) == name
    ensures Parent(Join(dir, name)) == Some(dir)
  {
    var p := Join(dir, name);
    var k := LastSlash(p);
    assert p[|dir|] == '/';
    assert forall i :: |dir| < i < |p| ==> p[i] == name[i - |dir| - 1];
    assert k == |dir|;
    assert p[k + 1..] == name;
    assert p[..k] == dir;
  }

  /** Joining the same directory with different plain names gives different
      paths, and the name can be read back. */
  lemma JoinInjective(dir: Path, a: string, b: string)
    requires Join(dir, a) == Join(dir, b)
    ensures a == b
  {
    var p := Join(dir, a);
    if a != "" && b != "" {
      assert a == p[|dir| + 1..];
    }
  }
}
