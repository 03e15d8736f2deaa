/** The SFTP-based transfer backend: its own copy of the path mapping, the
    identifier it logs items under, the recursive remote listing, the
    existence check, and the single-file copy with its destination-directory
    derivation. The SFTP server is a set of oracles; a remote directory tree
    is a value. */
module Scp {
  import opened Wrappers
  import opened Strs
  import opened Paths
  import opened SyncTypes
  import Config

  /** The three path settings the backend copies out of the configuration. */
  datatype Mapping = Mapping(replaceFrom: string, replaceTo: string, destRootDir: string)

  function MappingOf(c: Config.Config): Mapping {
    Mapping(c.replaceFrom, c.replaceTo, c.destRootDir)
  }

  /** SCPTransfer.MapSourcePathToLocal: unchanged when either replacement
      setting is empty, otherwise a raw-prefix replacement joined onto the
      local root. */
  function MapSourcePathToLocal(m: Mapping, p: string): (r: Result<string>)
    ensures p == "" ==> r.Err?
    ensures p != "" && (m.replaceFrom == "" || m.replaceTo == "") ==> r == Ok(p)
  {
    if p == "" then Err("source path is empty")
    else if m.replaceFrom == "" || m.replaceTo == "" then Ok(p)
    else if !HasPrefix(p, m.replaceFrom) then Err("source path " + p + " does not start with replacement pattern " + m.replaceFrom)
    else Ok(Join(m.replaceTo, Config.RelPart(p, m.replaceFrom)))
  }

  /** SCPTransfer.MapLocalPathToDest: like the configuration's mapping but
      without the branch that strips the source prefix. */
  function MapLocalPathToDest(m: Mapping, local: string): (r: Result<string>)
    ensures r.Err? <==> local == "" || m.destRootDir == "" || (m.replaceTo != "" && !HasPrefix(local, m.replaceTo))
    ensures r.Ok? && m.replaceTo == "" ==> r.value == TrimSuffix(m.destRootDir, "/") + "/" + Base(local)
  {
    if local == "" then Err("local path is empty")
    else if m.destRootDir == "" then Err("destination root directory not configured")
    else if m.replaceTo != "" then
      if !HasPrefix(local, m.replaceTo) then Err("local path " + local + " does not start with source replacement root " + m.replaceTo)
      else Ok(TrimSuffix(m.destRootDir, "/") + "/" + Config.RelPart(local, m.replaceTo))
    else Ok(TrimSuffix(m.destRootDir, "/") + "/" + Base(local))
  }

  /** The backend's source mapping is the configuration's, for every
      configuration and path. */
  lemma SourceMappingsAgree(c: Config.Config, p: string)
    ensures MapSourcePathToLocal(MappingOf(c), p) == Config.MapSourcePathToLocal(c, p)
  {
  }

  /** The backend's destination mapping agrees with the configuration's
      except when only the source prefix is set, which validation rejects. */
  lemma LocalMappingsAgree(c: Config.Config, local: string)
    requires !Config.Broken(c, Config.HalfPathMapping)
    ensures MapLocalPathToDest(MappingOf(c), local) == Config.MapLocalPathToDest(c, local)
  {
    var m := MappingOf(c);
    var mine := MapLocalPathToDest(m, local);
    var theirs := Config.MapLocalPathToDest(c, local);
    if local != "" && c.destRootDir != "" {
      if c.replaceTo != "" {
        if HasPrefix(local, c.replaceTo) {
          assert mine == Ok(Config.DestPrefix(c) + Config.RelPart(local, c.replaceTo));
        }
      } else {
        assert c.replaceFrom == "";
        assert mine == Ok(Config.DestPrefix(c) + Base(local));
      }
    }
  }

  /** With only the source prefix set (a configuration validation
      rejects), the backend keeps just the file name where the
      configuration keeps the path below the prefix, so the two disagree
      whenever that path has a sub-directory. */
  lemma LocalMappingsDiverge(c: Config.Config, local: string)
    requires c.replaceFrom != "" && c.replaceTo == "" && c.destRootDir != ""
    requires local != "" && HasPrefix(local, c.replaceFrom)
    ensures MapLocalPathToDest(MappingOf(c), local) == Ok(Config.DestPrefix(c) + Base(local))
    ensures Config.MapLocalPathToDest(c, local) == Ok(Config.DestPrefix(c) + Config.RelPart(local, c.replaceFrom))
    ensures '/' in Config.RelPart(local, c.replaceFrom) && Base(local) != "/" ==>
              MapLocalPathToDest(MappingOf(c), local) != Config.MapLocalPathToDest(c, local)
  {
    var rel := Config.RelPart(local, c.replaceFrom);
    if '/' in rel && Base(local) != "/" {
      var a := Config.DestPrefix(c) + Base(local);
      var b := Config.DestPrefix(c) + rel;
      assert a[|Config.DestPrefix(c)|..] == Base(local);
      assert b[|Config.DestPrefix(c)|..] == rel;
    }
  }

  /** getItemIdentifier: the rating key, else the title, else "unknown". */
  function ItemIdentifier(item: SyncableItem): (r: string)
    ensures r != ""
    ensures item.ratingKey != "" ==> r == item.ratingKey
    ensures item.ratingKey == "" && item.title != "" ==> r == item.title
  {
    if item.ratingKey != "" then item.ratingKey
    else if item.title != "" then item.title
    else "unknown"
  }

  // ---- remote listing ----------------------------------------------------

  /** A remote directory tree. A directory the server will not list is
      marked unreadable. */
  datatype Node = FileNode(name: string) | DirNode(name: string, readable: bool, children: seq<Node>)

  /** Every directory at or below `n` can be listed. */
  predicate Readable(n: Node) {
    match n
    case FileNode(_) => true
    case DirNode(_, ok, cs) => ok && forall i :: 0 <= i < |cs| ==> Readable(cs[i])
  }

  function FileCount(n: Node): nat {
    match n
    case FileNode(_) => 1
    case DirNode(_, _, cs) => FileCountAll(cs)
  }

  function FileCountAll(cs: seq<Node>): nat {
    if |cs| == 0 then 0 else FileCount(cs[0]) + FileCountAll(cs[1..])
  }

  /** The parent of every entry listed under `path`. */
  function Under(path: string): string {
    TrimRightChar(path, '/') + "/"
  }

  lemma UnderNested(path: string, name: string)
    ensures HasPrefix(Under(TrimRightChar(path, '/') + "/" + name), Under(path))
  {
    var t := TrimRightChar(path, '/');
    var e := t + "/" + name;
    var r := TrimRightChar(e, '/');
    if |t| > 0 {
      assert e[|t| - 1] == t[|t| - 1];
      assert e[|t| - 1] != '/';
    }
    assert |r| >= |t|;
    if |r| == |t| {
      assert r == e[..|t|] == t;
    } else {
      assert Under(e)[..|t| + 1] == e[..|t| + 1];
    }
  }

  /** The path under which directory `dir` lists its entry `name`. */
  function Child(dir: string, name: string): string {
    TrimRightChar(dir, '/') + "/" + name
  }

  /** Reference listing of the files at or below `n`, which sits at `p`:
      a file is its own path, and a directory contributes its entries'
      listings in entry order, so sub-directories are expanded in place
      (pre-order) and never listed themselves. Built from the last entry
      backwards, independently of the walk. */
  function Listing(p: string, n: Node): seq<string>
    decreases n, 1
  {
    match n
    case FileNode(_) => [p]
    case DirNode(_, _, cs) => ListingAll(p, cs)
  }

  function ListingAll(dir: string, cs: seq<Node>): seq<string>
    decreases cs, 0
  {
    if |cs| == 0 then []
    else ListingAll(dir, cs[..|cs| - 1]) + Listing(Child(dir, cs[|cs| - 1].name), cs[|cs| - 1])
  }

  /** `f` names a file at or below `n`, which sits at `p`. */
  predicate FileBelow(p: string, n: Node, f: string)
    decreases n
  {
    match n
    case FileNode(_) => f == p
    case DirNode(_, _, cs) => exists i :: 0 <= i < |cs| && FileBelow(Child(p, cs[i].name), cs[i], f)
  }

  /** A directory's listing is its entries' listings concatenated in
      entry order. */
  lemma {:induction false} ListingAllAppend(dir: string, a: seq<Node>, b: seq<Node>)
    ensures ListingAll(dir, a + b) == ListingAll(dir, a) + ListingAll(dir, b)
    decreases |b|
  {
    if |b| == 0 {
      assert a + b == a;
    } else {
      var c := a + b;
      assert c[..|c| - 1] == a + b[..|b| - 1];
      assert c[|c| - 1] == b[|b| - 1];
      ListingAllAppend(dir, a, b[..|b| - 1]);
    }
  }

  /** A directory's listing is its first entry's listing, then the rest's. */
  lemma ListingAllCons(dir: string, cs: seq<Node>)
    requires |cs| > 0
    ensures ListingAll(dir, cs) == Listing(Child(dir, cs[0].name), cs[0]) + ListingAll(dir, cs[1..])
  {
    assert cs == [cs[0]] + cs[1..];
    ListingAllAppend(dir, [cs[0]], cs[1..]);
    ListingAllOne(dir, cs[0]);
  }

  /** A single entry contributes exactly its own listing. */
  lemma ListingAllOne(dir: string, c: Node)
    ensures ListingAll(dir, [c]) == Listing(Child(dir, c.name), c)
  {
    assert [c][..0] == [];
  }

  /** The listing holds exactly the paths of the files below the node:
      no directory, nothing outside the tree, no file missing. */
  lemma {:induction false} ListingMembers(p: string, n: Node, f: string)
    ensures f in Listing(p, n) <==> FileBelow(p, n, f)
    decreases n, 1
  {
    match n
    case FileNode(_) =>
    case DirNode(_, _, cs) => ListingAllMembers(p, cs, f);
  }

  lemma {:induction false} ListingAllMembers(dir: string, cs: seq<Node>, f: string)
    ensures f in ListingAll(dir, cs) <==> exists i :: 0 <= i < |cs| && FileBelow(Child(dir, cs[i].name), cs[i], f)
    decreases cs, 0
  {
    if |cs| > 0 {
      var init := cs[..|cs| - 1];
      var last := cs[|cs| - 1];
      ListingAllMembers(dir, init, f);
      ListingMembers(Child(dir, last.name), last, f);
      if f in ListingAll(dir, cs) {
        if f in ListingAll(dir, init) {
          var i :| 0 <= i < |init| && FileBelow(Child(dir, init[i].name), init[i], f);
          assert cs[i] == init[i];
        } else {
          assert FileBelow(Child(dir, cs[|cs| - 1].name), cs[|cs| - 1], f);
        }
      }
      if exists i :: 0 <= i < |cs| && FileBelow(Child(dir, cs[i].name), cs[i], f) {
        var i :| 0 <= i < |cs| && FileBelow(Child(dir, cs[i].name), cs[i], f);
        if i < |cs| - 1 {
          assert init[i] == cs[i];
        }
      }
    }
  }

  /** walkDirectory on directory `n` at `path`, keeping the files it
      visits: the reference listing of `n`. It fails exactly when some
      directory cannot be read, a file included, since listing a file
      fails. */
  function WalkDir(path: string, n: Node): (r: Result<seq<string>>)
    ensures r.Ok? <==> n.DirNode? && Readable(n)
    ensures r.Ok? ==> |r.value| == FileCount(n)
    ensures r.Ok? ==> forall i :: 0 <= i < |r.value| ==> HasPrefix(r.value[i], Under(path))
    decreases n, 1
  {
    match n
    case FileNode(_) => Err("failed to read directory " + path + ": not a directory")
    case DirNode(_, ok, cs) =>
      if !ok then Err("failed to read directory " + path + ": permission denied")
      else WalkEntries(path, cs)
  }

  function WalkEntries(path: string, cs: seq<Node>): (r: Result<seq<string>>)
    ensures r.Ok? <==> forall i :: 0 <= i < |cs| ==> Readable(cs[i])
    ensures r.Ok? ==> |r.value| == FileCountAll(cs)
    ensures r.Ok? ==> forall i :: 0 <= i < |r.value| ==> HasPrefix(r.value[i], Under(path))
    decreases cs, 0
  {
    if |cs| == 0 then Ok([])
    else
      var e := cs[0];
      var entryPath := TrimRightChar(path, '/') + "/" + e.name;
      var here := if e.FileNode? then Ok([entryPath]) else WalkDir(entryPath, e);
      if here.Err? then here
      else
        var rest := WalkEntries(path, cs[1..]);
        if rest.Err? then rest
        else
          UnderNested(path, e.name);
          assert forall j :: 0 <= j < |cs| - 1 ==> cs[1..][j] == cs[j + 1];
          Ok(here.value + rest.value)
  }

  /** The walk yields exactly the reference listing. */
  lemma {:induction false} WalkIsListing(path: string, n: Node)
    ensures WalkDir(path, n).Ok? ==> WalkDir(path, n).value == Listing(path, n)
    decreases n, 1
  {
    if n.DirNode? && n.readable {
      WalkEntriesIsListing(path, n.children);
    }
  }

  lemma {:induction false} WalkEntriesIsListing(path: string, cs: seq<Node>)
    ensures WalkEntries(path, cs).Ok? ==> WalkEntries(path, cs).value == ListingAll(path, cs)
    decreases cs, 0
  {
    if |cs| > 0 && WalkEntries(path, cs).Ok? {
      var e := cs[0];
      if e.DirNode? {
        WalkIsListing(Child(path, e.name), e);
      }
      WalkEntriesIsListing(path, cs[1..]);
      ListingAllCons(path, cs);
    }
  }

  /** SCPTransfer.ListDirectoryContents: the reference listing of the
      tree's files, or the walk's error. */
  function ListDirectoryContents(root: string, tree: Node): (r: Result<seq<string>>)
    ensures r.Ok? <==> tree.DirNode? && Readable(tree)
    ensures r.Ok? ==> r.value == Listing(root, tree)
    ensures r.Ok? ==> |r.value| == FileCount(tree)
  {
    WalkIsListing(root, tree);
    var w := WalkDir(root, tree);
    if w.Err? then Err("failed to walk directory: " + w.error) else w
  }

  // ---- existence and single-file copy -----------------------------------

  datatype StatError = NotExist | StatFailed(message: string)

  /** FileExists: a missing file is a plain "no", any other stat error is
      reported. */
  function FileExists(stat: Outcome<StatError>): (r: Result<bool>)
    ensures r == Ok(true) <==> stat.Pass?
    ensures r == Ok(false) <==> stat == Fail(NotExist)
    ensures r.Err? <==> stat.Fail? && stat.error.StatFailed?
  {
    match stat
    case Pass => Ok(true)
    case Fail(NotExist) => Ok(false)
    case Fail(StatFailed(msg)) => Err(msg)
  }

  /** The directory the copy creates: the text before the last "/"; a path
      without one is refused. */
  function DestDir(dst: string): (r: Result<string>)
    ensures r.Err? <==> '/' !in dst
    ensures r.Ok? ==> HasPrefix(dst, r.value + "/") && '/' !in dst[|r.value| + 1..]
  {
    var i := LastIndexOf(dst, '/');
    if i == -1 then Err("invalid destination path format: " + dst)
    else
      assert dst[..i + 1] == dst[..i] + "/";
      Ok(dst[..i])
  }

  /** For a file below a plain directory other than the root, the copy's
      directory is exactly filepath.Dir of the destination. */
  lemma DestDirIsDir(dir: string, name: string)
    requires PlainDir(dir) && dir != "/" && Segment(name)
    ensures DestDir(Join(dir, name)) == Ok(dir)
    ensures Dir(Join(dir, name)) == dir
  {
    DirBaseOfJoin(dir, name);
    SplitNoSep(name, '/');
    JoinPlain(dir, name);
    DestDirOfSlash(dir, name);
  }

  /** The copy's directory of `prefix/name` is `prefix`. */
  lemma DestDirOfSlash(prefix: string, name: string)
    requires '/' !in name
    ensures DestDir(prefix + "/" + name) == Ok(prefix)
  {
    var p := prefix + "/" + name;
    LastSlashBeforeName(prefix, name);
    assert p[..|prefix|] == prefix;
  }

  /** For a file directly under "/", the copy's directory is the empty
      string while filepath.Dir gives "/". */
  lemma DestDirAtRoot()
    ensures DestDir("/movie.mkv") == Ok("")
    ensures Dir("/movie.mkv") == "/"
  {
    assert "/movie.mkv" == "" + "/" + "movie.mkv";
    LastSlashBeforeName("", "movie.mkv");
    assert "/movie.mkv"[..1] == "/";
    CleanPlainAbs("/");
  }

  /** The SFTP server and local file system as seen by one copy. */
  datatype CopyEnv = CopyEnv(
    localSize: string -> Result<int>,
    mkdirAll: string -> Outcome<string>,
    statDir: string -> Result<bool>,
    openLocal: string -> Outcome<string>,
    create: string -> Outcome<string>,
    copy: (string, string) -> Result<int>)

  /** Remote operations performed, in order. `Probe` is the write test that
      creates and removes a scratch file; its result is only logged. */
  datatype RemoteOp = MkdirAll(dir: string) | StatDir(dir: string) | Probe(dir: string) | Create(path: string) | Copy(src: string, dst: string)

  datatype CopyReport = CopyReport(result: Outcome<string>, ops: seq<RemoteOp>)

  /** SCPTransfer.doTransferFile. */
  function CopyFile(env: CopyEnv, src: string, dst: string): (r: CopyReport)
    ensures env.localSize(src).Err? || '/' !in dst ==> r.result.Fail? && r.ops == []
    ensures r.result.Pass? ==> env.copy(src, dst) == Ok(env.localSize(src).value)
    ensures r.result.Pass? ==> DestDir(dst).Ok? && r.ops == [MkdirAll(DestDir(dst).value), StatDir(DestDir(dst).value),
                                                    Probe(DestDir(dst).value), Create(dst), Copy(src, dst)]
    ensures Copy(src, dst) in r.ops ==> Create(dst) in r.ops && env.create(dst).Pass?
  {
    match env.localSize(src)
    case Err(e) => CopyReport(Fail("failed to stat source file: " + e), [])
    case Ok(size) =>
      match DestDir(dst)
      case Err(e) => CopyReport(Fail(e), [])
      case Ok(dir) =>
        var mk := [MkdirAll(dir)];
        if env.mkdirAll(dir).Fail? then CopyReport(Fail("failed to create destination directory " + dir), mk)
        else
          var checked := mk + [StatDir(dir)];
          match env.statDir(dir)
          case Err(e) => CopyReport(Fail("destination directory " + dir + " was not created successfully: " + e), checked)
          case Ok(isDir) =>
            if !isDir then CopyReport(Fail("destination path " + dir + " exists but is not a directory"), checked)
            else
              var probed := checked + [Probe(dir)];
              if env.openLocal(src).Fail? then CopyReport(Fail("failed to open source file"), probed)
              else if env.create(dst).Fail? then CopyReport(Fail("failed to create destination file " + dst), probed + [Create(dst), StatDir(dir)])
              else
                var copied := probed + [Create(dst), Copy(src, dst)];
                match env.copy(src, dst)
                case Err(e) => CopyReport(Fail("failed to copy file contents: " + e), copied)
                case Ok(n) =>
                  if n != size then CopyReport(Fail("file size mismatch"), copied)
                  else CopyReport(Pass, copied)
  }
}
