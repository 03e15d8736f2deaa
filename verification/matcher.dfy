/** Matching source items to destination items by file name: every
    destination item is indexed under the base names of its part files (a
    later item overwrites an earlier one under the same name), and each
    source item is paired with the indexed item of its first part file
    whose base name is in the index. */
module Matcher {
  import opened Wrappers
  import opened Paths
  import opened Catalog
  import Discovery

  /** extractFilePaths: the non-empty part files, for all three kinds, in
      media order and, within one media entry, in part order. */
  function ExtractFilePaths(item: Item): (r: seq<string>)
    ensures forall f :: f in r <==> f != "" && exists p :: p in AllParts(item.media) && p.file == f
    ensures |item.media| > 0 ==> r == NonEmptyFiles(item.media[0].parts) + PartFiles(item.media[1..])
  {
    if |item.media| > 0 then
      assert item.media == [item.media[0]] + item.media[1..];
      PartFilesAppend([item.media[0]], item.media[1..]);
      PartFilesOne(item.media[0]);
      PartFiles(item.media)
    else PartFiles(item.media)
  }

  /** Discovery's GetItemFilePaths and the matcher's extractFilePaths read
      the same files, except that discovery reads none for an episode. */
  lemma FilePathsAgreeOffEpisodes(item: Item)
    ensures !item.Episode? ==> Discovery.GetItemFilePaths(item) == ExtractFilePaths(item)
    ensures item.Episode? ==> Discovery.GetItemFilePaths(item) == []
  {
  }

  /** The non-empty base names of a path list, in order. */
  function NameList(paths: seq<string>): (r: seq<string>)
    ensures forall n :: n in r ==> n != ""
    ensures forall i :: 0 <= i < |paths| && Base(paths[i]) != "" ==> Base(paths[i]) in r
  {
    if |paths| == 0 then []
    else
      var rest := NameList(paths[1..]);
      assert forall j :: 0 <= j < |paths| - 1 ==> paths[1..][j] == paths[j + 1];
      if Base(paths[0]) != "" then [Base(paths[0])] + rest else rest
  }

  /** The names an item is indexed under. */
  function Names(e: EnhancedItem): seq<string> {
    NameList(ExtractFilePaths(e.item))
  }

  /** File name to destination item. */
  type Index = map<string, EnhancedItem>

  /** Indexing names one after the other, all pointing at `e`. */
  function IndexNames(idx: Index, names: seq<string>, e: EnhancedItem): (r: Index)
    ensures forall n :: n in r <==> n in idx || n in names
    ensures forall n :: n in names ==> r[n] == e
    ensures forall n :: n in idx && n !in names ==> r[n] == idx[n]
    decreases |names|
  {
    if |names| == 0 then idx
    else
      assert forall n :: n in names <==> n == names[0] || n in names[1..];
      IndexNames(idx[names[0] := e], names[1..], e)
  }

  /** Indexing items in order, each under the names `names` gives it. The
      naming is a parameter so that the index laws hold for any naming. */
  function IndexAll(names: EnhancedItem -> seq<string>, dest: seq<EnhancedItem>): Index
    decreases |dest|
  {
    if |dest| == 0 then map[]
    else
      var m := |dest| - 1;
      IndexNames(IndexAll(names, dest[..m]), names(dest[m]), dest[m])
  }

  /** `dest[j]` is the last item named `name`. */
  predicate LastNamed(names: EnhancedItem -> seq<string>, dest: seq<EnhancedItem>, name: string, j: int) {
    0 <= j < |dest| && name in names(dest[j]) && forall k :: j < k < |dest| ==> name !in names(dest[k])
  }

  /** The index holds exactly the names some item carries. */
  lemma {:induction false} IndexAllKeys(names: EnhancedItem -> seq<string>, dest: seq<EnhancedItem>)
    ensures forall n :: n in IndexAll(names, dest) <==> exists j :: 0 <= j < |dest| && n in names(dest[j])
    decreases |dest|
  {
    if |dest| > 0 {
      var m := |dest| - 1;
      var init := dest[..m];
      IndexAllKeys(names, init);
      assert forall j :: 0 <= j < m ==> init[j] == dest[j];
      forall n | n !in names(dest[m]) && exists j :: 0 <= j < |dest| && n in names(dest[j])
        ensures n in IndexAll(names, init)
      {
        var j :| 0 <= j < |dest| && n in names(dest[j]);
        assert n in names(init[j]);
      }
    }
  }

  /** Each indexed name points at the last item carrying it. */
  lemma {:induction false} IndexAllLast(names: EnhancedItem -> seq<string>, dest: seq<EnhancedItem>)
    ensures forall n :: n in IndexAll(names, dest) ==> exists j :: LastNamed(names, dest, n, j) && IndexAll(names, dest)[n] == dest[j]
    decreases |dest|
  {
    if |dest| > 0 {
      var m := |dest| - 1;
      var init := dest[..m];
      IndexAllLast(names, init);
      var prev := IndexAll(names, init);
      var idx := IndexAll(names, dest);
      forall n | n in idx
        ensures exists j :: LastNamed(names, dest, n, j) && idx[n] == dest[j]
      {
        if n in names(dest[m]) {
          assert LastNamed(names, dest, n, m);
        } else {
          var j :| LastNamed(names, init, n, j) && prev[n] == init[j];
          assert init[j] == dest[j];
          assert LastNamed(names, dest, n, j);
        }
      }
    }
  }

  /** The destination file index, built in destination-item order. */
  function BuildIndex(dest: seq<EnhancedItem>): Index {
    IndexAll(Names, dest)
  }

  /** `dest[j]` is the last item indexed under `name`. */
  predicate LastCarrier(dest: seq<EnhancedItem>, name: string, j: int) {
    LastNamed(Names, dest, name, j)
  }

  /** The index holds exactly the names some item carries, and each name
      points at the last item that carries it. */
  lemma BuildIndexLastWriter(dest: seq<EnhancedItem>)
    ensures forall n :: n in BuildIndex(dest) <==> exists j :: 0 <= j < |dest| && n in Names(dest[j])
    ensures forall n :: n in BuildIndex(dest) ==> exists j :: LastCarrier(dest, n, j) && BuildIndex(dest)[n] == dest[j]
  {
    IndexAllKeys(Names, dest);
    IndexAllLast(Names, dest);
  }

  /** A path whose base name is in the index. */
  predicate Hit(idx: Index, p: string) {
    Base(p) != "" && Base(p) in idx
  }

  /** The position of the first path from `k` on that `hit` accepts, or -1
      when it accepts none. */
  function FirstFrom(hit: string -> bool, paths: seq<string>, k: nat): (r: int)
    requires k <= |paths|
    ensures r == -1 || k <= r < |paths|
    ensures r == -1 <==> forall i :: k <= i < |paths| ==> !hit(paths[i])
    ensures r != -1 ==> hit(paths[r]) && forall i :: k <= i < r ==> !hit(paths[i])
    decreases |paths| - k
  {
    if k == |paths| then -1
    else if hit(paths[k]) then k
    else FirstFrom(hit, paths, k + 1)
  }

  /** The base name of the first path that hits the index. */
  function FirstHit(idx: Index, paths: seq<string>): (r: Option<string>)
    ensures r.None? <==> forall i :: 0 <= i < |paths| ==> !Hit(idx, paths[i])
    ensures r.Some? ==> r.value != "" && r.value in idx
    ensures r.Some? ==> exists i :: 0 <= i < |paths| && Hit(idx, paths[i]) && Base(paths[i]) == r.value
                                    && forall k :: 0 <= k < i ==> !Hit(idx, paths[k])
  {
    var i := FirstFrom((p: string) => Hit(idx, p), paths, 0);
    if i == -1 then None else Some(Base(paths[i]))
  }

  /** The match of one source item, if any. */
  function MatchItem(idx: Index, source: EnhancedItem): (r: Option<ItemMatch>)
    ensures r.None? <==> FirstHit(idx, ExtractFilePaths(source.item)).None?
    ensures r.Some? ==> var name := FirstHit(idx, ExtractFilePaths(source.item)).value;
                        r.value == ItemMatch(source, idx[name], name)
  {
    match FirstHit(idx, ExtractFilePaths(source.item))
    case None => None
    case Some(name) => Some(ItemMatch(source, idx[name], name))
  }

  /** The matches of all source items, in source order. */
  function MatchAll(idx: Index, sources: seq<EnhancedItem>): (r: seq<ItemMatch>)
    ensures |r| <= |sources|
    ensures forall m :: m in r ==> m.source in sources && m.filename in idx && m.dest == idx[m.filename]
  {
    if |sources| == 0 then []
    else
      var rest := MatchAll(idx, sources[1..]);
      assert forall s :: s in sources[1..] ==> s in sources;
      match MatchItem(idx, sources[0])
      case None => rest
      case Some(m) => [m] + rest
  }

  lemma {:induction false} MatchAllAppend(idx: Index, a: seq<EnhancedItem>, b: seq<EnhancedItem>)
    ensures MatchAll(idx, a + b) == MatchAll(idx, a) + MatchAll(idx, b)
    decreases |a|
  {
    if |a| == 0 {
      assert a + b == b;
    } else {
      assert (a + b)[1..] == a[1..] + b;
      MatchAllAppend(idx, a[1..], b);
    }
  }

  /** One source item gives at most one match, and none exactly when no
      part file of it hits the index. */
  lemma MatchAllOne(idx: Index, s: EnhancedItem)
    ensures |MatchAll(idx, [s])| <= 1
    ensures MatchAll(idx, [s]) == [] <==> forall p :: p in ExtractFilePaths(s.item) ==> !Hit(idx, p)
  {
    assert [s][1..] == [];
    var paths := ExtractFilePaths(s.item);
    assert forall p :: p in paths <==> exists i :: 0 <= i < |paths| && paths[i] == p;
  }

  /** MatchItemsByFilename: only a failed destination library list is an
      error; every match pairs the source with the last destination item
      carrying the matched name. */
  function MatchItemsByFilename(d: Discovery.Details, content: Discovery.Listing, destLibraries: Result<seq<Library>>,
                                sources: seq<EnhancedItem>): (r: Result<seq<ItemMatch>>)
    ensures r.Err? <==> destLibraries.Err?
    ensures r.Ok? ==> r.value == MatchAll(BuildIndex(Discovery.Collect(d, content, destLibraries.value)), sources)
    ensures r.Ok? ==> forall m :: m in r.value ==>
              var dest := Discovery.Collect(d, content, destLibraries.value);
              m.source in sources && exists j :: LastCarrier(dest, m.filename, j) && m.dest == dest[j]
  {
    match destLibraries
    case Err(e) => Err("failed to get destination libraries: " + e)
    case Ok(libs) =>
      var dest := Discovery.Collect(d, content, libs);
      BuildIndexLastWriter(dest);
      Ok(MatchAll(BuildIndex(dest), sources))
  }
}
