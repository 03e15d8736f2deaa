/** Content discovery on one server: list the libraries, ask each for its
    items, hydrate every item with its full metadata and tag it with the
    library it came from. A library whose listing fails and an item whose
    hydration fails are dropped; only the library list itself is fatal.
    The same walk, with the plain content listing, collects the
    destination items for matching. */
module Discovery {
  import opened Wrappers
  import opened Catalog

  /** GetMovieDetails and GetTVShowDetails of one server, by rating key. */
  datatype Details = Details(movie: string -> Result<Item>, show: string -> Result<Item>)

  /** A per-library item listing: GetItemsWithLabel on the source side,
      GetLibraryContent on the destination side. */
  type Listing = string -> Result<seq<Item>>

  /** loadFullMetadata / loadDestinationFullMetadata: movies and shows are
      fetched again by key, episodes are kept as listed. */
  function LoadFullMetadata(d: Details, item: Item, libraryId: string): (r: Result<EnhancedItem>)
    ensures item.key == "" ==> r.Err?
    ensures item.key != "" && item.Movie? ==> (r.Ok? <==> d.movie(item.key).Ok?)
    ensures item.key != "" && item.Show? ==> (r.Ok? <==> d.show(item.key).Ok?)
    ensures item.key != "" && item.Episode? ==> r == Ok(EnhancedItem(item, libraryId, "episode"))
    ensures r.Ok? ==> r.value.libraryId == libraryId && r.value.itemType == KindName(item)
    ensures r.Ok? && item.Movie? ==> r.value.item == d.movie(item.key).value
    ensures r.Ok? && item.Show? ==> r.value.item == d.show(item.key).value
  {
    if item.key == "" then Err("item has no rating key")
    else
      match item
      case Movie(_, _, _, _, _, _, _, _, _, _, _, _, _, _, _, _, _) =>
        (match d.movie(item.key)
         case Err(e) => Err("failed to load full movie metadata: " + e)
         case Ok(full) => Ok(EnhancedItem(full, libraryId, "movie")))
      case Show(_, _, _, _, _, _, _, _, _, _, _, _, _, _, _, _, _, _) =>
        (match d.show(item.key)
         case Err(e) => Err("failed to load full TV show metadata: " + e)
         case Ok(full) => Ok(EnhancedItem(full, libraryId, "show")))
      case Episode(_, _, _, _, _, _, _, _, _, _, _, _) =>
        Ok(EnhancedItem(item, libraryId, "episode"))
  }

  /** The hydrated items of one listing, in listing order, with the items
      whose hydration failed left out. */
  function HydrateAll(d: Details, items: seq<Item>, libraryId: string): (r: seq<EnhancedItem>)
    ensures |r| <= |items|
    ensures forall e :: e in r ==> e.libraryId == libraryId
    ensures forall e :: e in r <==> exists i :: 0 <= i < |items| && LoadFullMetadata(d, items[i], libraryId) == Ok(e)
  {
    if |items| == 0 then []
    else
      var rest := HydrateAll(d, items[1..], libraryId);
      assert forall j :: 0 <= j < |items| - 1 ==> items[1..][j] == items[j + 1];
      match LoadFullMetadata(d, items[0], libraryId)
      case Err(_) => rest
      case Ok(e) => [e] + rest
  }

  lemma {:induction false} HydrateAllAppend(d: Details, a: seq<Item>, b: seq<Item>, libraryId: string)
    ensures HydrateAll(d, a + b, libraryId) == HydrateAll(d, a, libraryId) + HydrateAll(d, b, libraryId)
    decreases |a|
  {
    if |a| == 0 {
      assert a + b == b;
    } else {
      assert (a + b)[1..] == a[1..] + b;
      HydrateAllAppend(d, a[1..], b, libraryId);
    }
  }

  /** What one library contributes: nothing when its listing fails. */
  function LibraryItems(d: Details, listing: Listing, lib: Library): (r: seq<EnhancedItem>)
    ensures listing(lib.key).Err? ==> r == []
    ensures listing(lib.key).Ok? ==> r == HydrateAll(d, listing(lib.key).value, lib.key)
  {
    match listing(lib.key)
    case Err(_) => []
    case Ok(items) => HydrateAll(d, items, lib.key)
  }

  /** The walk over the libraries, in library order. */
  function Collect(d: Details, listing: Listing, libs: seq<Library>): (r: seq<EnhancedItem>)
    ensures forall e :: e in r ==> exists l :: l in libs && e.libraryId == l.key
    decreases |libs|
  {
    if |libs| == 0 then []
    else
      var first := LibraryItems(d, listing, libs[0]);
      var rest := Collect(d, listing, libs[1..]);
      assert forall l :: l in libs[1..] ==> l in libs;
      assert forall e :: e in first ==> e.libraryId == libs[0].key;
      first + rest
  }

  /** The walk is a concatenation: libraries contribute their items in
      library order, one after the other. */
  lemma {:induction false} CollectAppend(d: Details, listing: Listing, a: seq<Library>, b: seq<Library>)
    ensures Collect(d, listing, a + b) == Collect(d, listing, a) + Collect(d, listing, b)
    decreases |a|
  {
    if |a| == 0 {
      assert a + b == b;
    } else {
      assert (a + b)[1..] == a[1..] + b;
      CollectAppend(d, listing, a[1..], b);
    }
  }

  lemma CollectOne(d: Details, listing: Listing, lib: Library)
    ensures Collect(d, listing, [lib]) == LibraryItems(d, listing, lib)
  {
    assert [lib][1..] == [];
  }

  /** DiscoverSyncableContent: only a failed library list is an error. */
  function DiscoverSyncableContent(d: Details, labelled: Listing, libraries: Result<seq<Library>>): (r: Result<seq<EnhancedItem>>)
    ensures r.Err? <==> libraries.Err?
    ensures r.Ok? ==> r.value == Collect(d, labelled, libraries.value)
    ensures r.Ok? ==> forall e :: e in r.value ==> exists l :: l in libraries.value && e.libraryId == l.key
  {
    match libraries
    case Err(e) => Err("failed to get libraries: " + e)
    case Ok(libs) => Ok(Collect(d, labelled, libs))
  }

  /** GetItemFilePaths: the part files of movies and shows; an episode has
      none. It never fails. */
  function GetItemFilePaths(item: Item): (r: seq<string>)
    ensures item.Episode? ==> r == []
    ensures !item.Episode? ==> forall f :: f in r <==> f != "" && exists p :: p in AllParts(item.media) && p.file == f
  {
    if item.Episode? then [] else PartFiles(item.media)
  }
}
