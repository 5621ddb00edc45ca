/** The parts of Node's `path` module the services use: join, dirname and
    basename over '/'-separated paths, and the archive location derived from
    an item directory. */
module Paths {
  import opened Common

  type Path = string

  /** path.join(dir, name) for a directory and one entry name. */
  function Join(dir: Path, name: string): Path {
    dir + "/" + name
  }

  /** The index of the last separator in p. */
  function LastSlash(p: Path): (r: Option<nat>)
    ensures r.Some? ==> r.value < |p| && p[r.value] == '/'
    ensures r.Some? ==> forall k :: r.value < k < |p| ==> p[k] != '/'
    ensures r.None? ==> forall k :: 0 <= k < |p| ==> p[k] != '/'
  {
    if p == [] then None
    else if p[|p| - 1] == '/' then Some(|p| - 1)
    else LastSlash(p[..|p| - 1])
  }

  /** path.dirname: everything before the last separator. */
  function Dirname(p: Path): Path {
    match LastSlash(p)
    case None => "."
    case Some(i) => if i == 0 then "/" else p[..i]
  }

  /** path.basename: everything after the last separator. */
  function Basename(p: Path): string {
    match LastSlash(p)
    case None => p
    case Some(i) => p[i + 1..]
  }

  /** A directory entry joined onto its directory splits back into the two. */
  lemma SplitJoin(dir: Path, name: string)
    requires dir != [] && '/' !in name
    ensures Dirname(Join(dir, name)) == dir
    ensures Basename(Join(dir, name)) == name
  {
    var p := Join(dir, name);
    assert p[|dir|] == '/';
    var r := LastSlash(p);
    assert r.Some?;
    assert r.value == |dir|;
    assert p[..|dir|] == dir;
    assert p[|dir| + 1..] == name;
  }

  /** Where the upload pipeline archives an item directory:
      dirname(folder)/archive/basename(folder). */
  function ArchivePath(folder: Path): Path {
    Join(Join(Dirname(folder), "archive"), Basename(folder))
  }

  /** The archive of an item listed under root is root/archive/item, a
      different path from the item itself. */
  lemma ArchivePathOfItem(root: Path, item: string)
    requires root != [] && '/' !in item
    ensures ArchivePath(Join(root, item)) == Join(Join(root, "archive"), item)
    ensures ArchivePath(Join(root, item)) != Join(root, item)
  {
    SplitJoin(root, item);
    assert |ArchivePath(Join(root, item))| == |Join(root, item)| + 8;
  }

  lemma JoinInjective(dir: Path, a: string, b: string)
    requires Join(dir, a) == Join(dir, b)
    ensures a == b
  {
    assert a == Join(dir, a)[|dir| + 1..];
  }
}
