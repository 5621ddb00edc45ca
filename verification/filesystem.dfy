/** The slice of the filesystem (Node's fs.promises) the trigger handler and
    the upload pipeline touch: directory listings, reading an item's
    metadata.json, and the mkdir / rename / rmdir steps that archive an item. */
module FileSystem {
  import opened Common
  import opened Paths

  /** A directory tree. `dirs` maps each directory to its listing in the order
      readdir returns it; an entry whose joined path is not a key of `dirs` is
      a file. `json` maps the path of every well-formed metadata.json to its
      decoded content. `locked` holds the paths a rename is refused on (the
      permission and busy-file faults the archive step must survive). */
  datatype Fs = Fs(dirs: map<Path, seq<string>>, json: map<Path, Metadata>, locked: set<Path>)

  datatype FsError =
    | NoEntry(path: Path)        // ENOENT / ENOTDIR
    | NotEmpty(path: Path)       // ENOTEMPTY
    | AlreadyExists(path: Path)  // EEXIST, or a directory in the way of a rename
    | Denied(path: Path)         // EACCES / EPERM / EBUSY

  /** The state a sequence of filesystem calls leaves behind, and the error
      that stopped it, if any; calls made before the failing one stay done. */
  datatype Step = Step(fs: Fs, error: Option<FsError>)

  /** fs.readdir(dir). */
  function ReadDir(fs: Fs, dir: Path): Result<seq<string>, FsError> {
    if dir in fs.dirs then Ok(fs.dirs[dir]) else Err(NoEntry(dir))
  }

  /** JSON.parse(await fs.readFile(file)): absent when the file is missing or
      is not well-formed JSON. */
  function ReadJson(fs: Fs, file: Path): Option<Metadata> {
    if file in fs.json then Some(fs.json[file]) else None
  }

  /** A listing with one name taken out. */
  function Without(listing: seq<string>, name: string): (r: seq<string>)
    ensures forall n :: n in r <==> n in listing && n != name
    ensures name !in listing ==> r == listing
  {
    if listing == [] then []
    else (if listing[0] == name then [] else [listing[0]]) + Without(listing[1..], name)
  }

  /** A listing with one name added at the end unless it is there already. */
  function With(listing: seq<string>, name: string): seq<string> {
    if name in listing then listing else listing + [name]
  }

  function MoveKey<V>(m: map<Path, V>, from: Path, to: Path): map<Path, V> {
    if from in m then (m - {from})[to := m[from]] else m
  }

  /** fs.mkdir(parent/name, {recursive: true}) for the last missing level: an
      existing directory is accepted, a file of that name is an error. */
  function MakeDir(fs: Fs, parent: Path, name: string): Result<Fs, FsError> {
    var p := Join(parent, name);
    if p in fs.dirs then Ok(fs)
    else if parent !in fs.dirs then Err(NoEntry(parent))
    else if name in fs.dirs[parent] then Err(AlreadyExists(p))
    else Ok(fs.(dirs := fs.dirs[parent := fs.dirs[parent] + [name]][p := []]))
  }

  /** fs.rename(srcDir/name, dstDir/name). A file already at the destination is
      replaced; a directory there is not. */
  function Rename(fs: Fs, srcDir: Path, dstDir: Path, name: string): Result<Fs, FsError> {
    var src := Join(srcDir, name);
    var dst := Join(dstDir, name);
    if src in fs.locked then Err(Denied(src))
    else if srcDir !in fs.dirs || name !in fs.dirs[srcDir] then Err(NoEntry(src))
    else if dstDir !in fs.dirs then Err(NoEntry(dstDir))
    else if dst in fs.dirs then Err(AlreadyExists(dst))
    else
      var unlisted := fs.dirs[srcDir := Without(fs.dirs[srcDir], name)];
      var relisted := unlisted[dstDir := With(unlisted[dstDir], name)];
      Ok(Fs(MoveKey(relisted, src, dst), MoveKey(fs.json, src, dst), fs.locked))
  }

  /** fs.rmdir(dir): only an empty directory is removed. */
  function RemoveDir(fs: Fs, dir: Path): Result<Fs, FsError> {
    if dir !in fs.dirs then Err(NoEntry(dir))
    else if fs.dirs[dir] != [] then Err(NotEmpty(dir))
    else
      var parent := Dirname(dir);
      var rest := fs.dirs - {dir};
      Ok(fs.(dirs := if parent in rest then rest[parent := Without(rest[parent], Basename(dir))] else rest))
  }

  /** Renaming the names one after another, in order, until one fails. */
  function MoveAll(fs: Fs, srcDir: Path, dstDir: Path, names: seq<string>): (r: Step)
    ensures r.fs.locked == fs.locked
    decreases |names|
  {
    if names == [] then Step(fs, None)
    else
      match Rename(fs, srcDir, dstDir, names[0])
      case Err(e) => Step(fs, Some(e))
      case Ok(next) => MoveAll(next, srcDir, dstDir, names[1..])
  }

  /** The archival of an item directory: create dirname/archive/basename,
      move every entry listed in the item there, then remove the item
      directory. The first failing call ends it. */
  function Archive(fs: Fs, folder: Path): (r: Step)
    ensures r.fs.locked == fs.locked
    ensures r.error == None ==> folder !in r.fs.dirs
  {
    var parent := Dirname(folder);
    var archiveDir := Join(parent, "archive");
    var dest := ArchivePath(folder);
    match MakeDir(fs, parent, "archive")
    case Err(e) => Step(fs, Some(e))
    case Ok(fs1) =>
      match MakeDir(fs1, archiveDir, Basename(folder))
      case Err(e) => Step(fs1, Some(e))
      case Ok(fs2) =>
        match ReadDir(fs2, folder)
        case Err(e) => Step(fs2, Some(e))
        case Ok(files) =>
          var moved := MoveAll(fs2, folder, dest, files);
          if moved.error.Some? then moved
          else
            match RemoveDir(moved.fs, folder)
            case Err(e) => Step(moved.fs, Some(e))
            case Ok(fs3) => Step(fs3, None)
  }

  /** An entry of an item directory is neither root/archive nor
      root/archive/item. */
  lemma EntryNotInArchive(root: Path, item: string, n: string)
    requires '/' !in item && item != "archive"
    ensures Join(Join(root, item), n) != Join(root, "archive")
    ensures Join(Join(root, item), n) != Join(Join(root, "archive"), item)
  {
    var p := Join(Join(root, item), n);
    var k := |root| + 1 + |item|;
    assert p[k] == '/';
    if |item| < 7 {
      assert Join(root, "archive")[k] == "archive"[|item|];
      assert Join(Join(root, "archive"), item)[k] == "archive"[|item|];
    } else if |item| > 7 {
      assert Join(Join(root, "archive"), item)[|root| + 8] == '/';
      assert p[|root| + 8] == item[7];
    } else {
      assert p[|root| + 1..k] == item;
      assert Join(Join(root, "archive"), item)[|root| + 1..k] == "archive";
    }
  }

  lemma WithoutHead(names: seq<string>)
    requires names != [] && Distinct(names)
    ensures Without(names, names[0]) == names[1..]
  {
    assert names[0] !in names[1..];
  }

  /** One rename of a file from a listing into a different directory that does
      not hold it: the name leaves the one listing and joins the other. */
  lemma RenameFile(fs: Fs, src: Path, dst: Path, names: seq<string>, moved: seq<string>)
    requires src != dst && src in fs.dirs && dst in fs.dirs
    requires fs.dirs[src] == names && fs.dirs[dst] == moved
    requires names != [] && Distinct(names) && names[0] !in moved
    requires Join(src, names[0]) !in fs.locked && Join(src, names[0]) !in fs.dirs && Join(dst, names[0]) !in fs.dirs
    ensures Rename(fs, src, dst, names[0]).Ok?
    ensures Rename(fs, src, dst, names[0]).value.dirs == fs.dirs[src := names[1..]][dst := moved + [names[0]]]
    ensures Rename(fs, src, dst, names[0]).value.locked == fs.locked
  {
    WithoutHead(names);
  }

  /** Moving every name of a flat directory listing into a directory that
      holds none of them empties the source and appends the names, in order,
      to the destination; no directory appears or disappears. */
  lemma {:induction false} MoveAllMovesEverything(fs: Fs, src: Path, dst: Path, names: seq<string>, moved: seq<string>)
    requires src != dst && src in fs.dirs && dst in fs.dirs
    requires fs.dirs[src] == names && fs.dirs[dst] == moved
    requires Distinct(names) && forall n :: n in names ==> n !in moved
    requires forall n :: n in names ==> Join(src, n) !in fs.locked && Join(src, n) !in fs.dirs && Join(dst, n) !in fs.dirs
    ensures MoveAll(fs, src, dst, names).error == None
    ensures MoveAll(fs, src, dst, names).fs.dirs.Keys == fs.dirs.Keys
    ensures MoveAll(fs, src, dst, names).fs.dirs[src] == []
    ensures MoveAll(fs, src, dst, names).fs.dirs[dst] == moved + names
    ensures forall d :: d in fs.dirs && d != src && d != dst ==> MoveAll(fs, src, dst, names).fs.dirs[d] == fs.dirs[d]
    decreases |names|
  {
    if names != [] {
      var n := names[0];
      RenameFile(fs, src, dst, names, moved);
      var next := Rename(fs, src, dst, n).value;
      assert (moved + [n]) + names[1..] == moved + names;
      MoveAllMovesEverything(next, src, dst, names[1..], moved + [n]);
    }
  }

  /** Archiving an item listed under root, when nothing is in the way (no
      archived copy of it yet, no refused rename, no subdirectory in it),
      succeeds: the item's entries end up, in listing order, in
      root/archive/item, and the item is gone from root. */
  lemma ArchiveCompletes(fs: Fs, root: Path, item: string)
    requires root != [] && '/' !in item && item != "archive"
    requires root in fs.dirs && Join(root, item) in fs.dirs
    requires Join(root, "archive") in fs.dirs || "archive" !in fs.dirs[root]
    requires Join(Join(root, "archive"), item) !in fs.dirs
    requires Join(root, "archive") in fs.dirs ==> item !in fs.dirs[Join(root, "archive")]
    requires Distinct(fs.dirs[Join(root, item)])
    requires forall n :: n in fs.dirs[Join(root, item)] ==>
               Join(Join(root, item), n) !in fs.locked && Join(Join(root, item), n) !in fs.dirs &&
               Join(Join(Join(root, "archive"), item), n) !in fs.dirs
    ensures Archive(fs, Join(root, item)).error == None
    ensures Join(root, item) !in Archive(fs, Join(root, item)).fs.dirs
    ensures Join(Join(root, "archive"), item) in Archive(fs, Join(root, item)).fs.dirs
    ensures Archive(fs, Join(root, item)).fs.dirs[Join(Join(root, "archive"), item)] == fs.dirs[Join(root, item)]
    ensures root in Archive(fs, Join(root, item)).fs.dirs && item !in Archive(fs, Join(root, item)).fs.dirs[root]
  {
    var folder := Join(root, item);
    var archiveDir := Join(root, "archive");
    var dest := Join(archiveDir, item);
    SplitJoin(root, item);
    ArchivePathOfItem(root, item);
    assert folder != archiveDir by {
      if folder == archiveDir { JoinInjective(root, item, "archive"); }
    }
    assert |dest| > |folder| && |folder| > |root| && |archiveDir| > |root| && |dest| > |archiveDir|;
    var files := fs.dirs[folder];
    var fs1 := MakeDir(fs, root, "archive").value;
    assert fs1.dirs.Keys == fs.dirs.Keys + {archiveDir};
    assert fs1.dirs[folder] == files && fs1.locked == fs.locked;
    assert archiveDir in fs1.dirs && (dest in fs1.dirs || item !in fs1.dirs[archiveDir]);
    var fs2 := MakeDir(fs1, archiveDir, item).value;
    assert fs2.dirs.Keys == fs.dirs.Keys + {archiveDir, dest};
    assert fs2.dirs[folder] == files && fs2.dirs[dest] == [] && fs2.locked == fs.locked;
    forall n | n in files
      ensures Join(folder, n) !in fs2.locked && Join(folder, n) !in fs2.dirs && Join(dest, n) !in fs2.dirs
    {
      assert |Join(dest, n)| > |dest|;
      EntryNotInArchive(root, item, n);
    }
    MoveThenRemove(fs2, root, folder, dest, item);
  }

  /** The last two stages of Archive: with the destination empty and nothing
      in the way, every entry moves and the emptied folder is removed from
      its parent's listing. */
  lemma MoveThenRemove(fs: Fs, parent: Path, folder: Path, dest: Path, base: string)
    requires Dirname(folder) == parent && Basename(folder) == base
    requires parent != folder && parent != dest && folder != dest
    requires parent in fs.dirs && folder in fs.dirs && dest in fs.dirs && fs.dirs[dest] == []
    requires Distinct(fs.dirs[folder])
    requires forall n :: n in fs.dirs[folder] ==>
               Join(folder, n) !in fs.locked && Join(folder, n) !in fs.dirs && Join(dest, n) !in fs.dirs
    ensures MoveAll(fs, folder, dest, fs.dirs[folder]).error == None
    ensures RemoveDir(MoveAll(fs, folder, dest, fs.dirs[folder]).fs, folder).Ok?
    ensures folder !in RemoveDir(MoveAll(fs, folder, dest, fs.dirs[folder]).fs, folder).value.dirs
    ensures dest in RemoveDir(MoveAll(fs, folder, dest, fs.dirs[folder]).fs, folder).value.dirs
    ensures RemoveDir(MoveAll(fs, folder, dest, fs.dirs[folder]).fs, folder).value.dirs[dest] == fs.dirs[folder]
    ensures parent in RemoveDir(MoveAll(fs, folder, dest, fs.dirs[folder]).fs, folder).value.dirs
    ensures base !in RemoveDir(MoveAll(fs, folder, dest, fs.dirs[folder]).fs, folder).value.dirs[parent]
  {
    var files := fs.dirs[folder];
    MoveAllMovesEverything(fs, folder, dest, files, []);
    assert [] + files == files;
  }
}
