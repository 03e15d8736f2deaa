/** The media catalogue as the two Plex servers report it: libraries, the
    three kinds of item the engine handles, their media parts, tags, watch
    state and server activities. Only the fields the engine reads are kept.
    Ratings are exact reals; Go's float64 rounding is not modelled. */
module Catalog {

  datatype Tag = Tag(tag: string)

  datatype Part = Part(file: string, size: int)

  datatype Media = Media(parts: seq<Part>)

  datatype Library = Library(key: string, kind: string, title: string)

  /** A movie, a TV show or a TV episode. Field names shared between
      constructors carry the same meaning in each. */
  datatype Item =
    | Movie(
        key: string, title: string, originalTitle: string, year: int, studio: string,
        contentRating: string, summary: string, tagline: string, userRating: real,
        thumb: string, art: string, labels: seq<Tag>, genres: seq<Tag>,
        collections: seq<Tag>, viewCount: int, lastViewedAt: int, media: seq<Media>)
    | Show(
        key: string, title: string, originalTitle: string, year: int, studio: string,
        network: string, contentRating: string, summary: string, tagline: string,
        userRating: real, thumb: string, art: string, labels: seq<Tag>, genres: seq<Tag>,
        collections: seq<Tag>, viewCount: int, lastViewedAt: int, media: seq<Media>)
    | Episode(
        key: string, title: string, summary: string, year: int, contentRating: string,
        userRating: real, thumb: string, art: string, labels: seq<Tag>, genres: seq<Tag>,
        collections: seq<Tag>, media: seq<Media>)

  /** The item-type word the engine attaches to a hydrated item. */
  function KindName(item: Item): (r: string)
    ensures r in {"movie", "show", "episode"}
    ensures r == "episode" <==> item.Episode?
  {
    match item
    case Movie(_, _, _, _, _, _, _, _, _, _, _, _, _, _, _, _, _) => "movie"
    case Show(_, _, _, _, _, _, _, _, _, _, _, _, _, _, _, _, _, _) => "show"
    case Episode(_, _, _, _, _, _, _, _, _, _, _, _) => "episode"
  }

  /** An item together with the library it came from and its type word. */
  datatype EnhancedItem = EnhancedItem(item: Item, libraryId: string, itemType: string)

  /** A source item paired with the destination item holding a file of the
      same name. */
  datatype ItemMatch = ItemMatch(source: EnhancedItem, dest: EnhancedItem, filename: string)

  datatype WatchState = WatchState(watched: bool, viewCount: int, viewOffset: int, lastViewedAt: int)

  datatype Activity = Activity(uuid: string, kind: string, title: string, progress: int, librarySectionId: string)

  /** The tag values of a tag list, in order. */
  function Tags(ts: seq<Tag>): (r: seq<string>)
    ensures |r| == |ts|
    ensures forall i :: 0 <= i < |ts| ==> r[i] == ts[i].tag
  {
    if |ts| == 0 then [] else [ts[0].tag] + Tags(ts[1..])
  }

  /** Every part of every media entry, media first, then parts. */
  function AllParts(media: seq<Media>): (r: seq<Part>)
    ensures forall p :: p in r <==> exists i :: 0 <= i < |media| && p in media[i].parts
  {
    if |media| == 0 then []
    else
      var rest := AllParts(media[1..]);
      assert forall j :: 0 <= j < |media| - 1 ==> media[1..][j] == media[j + 1];
      media[0].parts + rest
  }

  /** The non-empty file names of a part list, in order. */
  function NonEmptyFiles(parts: seq<Part>): (r: seq<string>)
    ensures forall f :: f in r <==> f != "" && exists p :: p in parts && p.file == f
    ensures |r| <= |parts|
  {
    if |parts| == 0 then []
    else
      var rest := NonEmptyFiles(parts[1..]);
      assert forall p :: p in parts <==> p == parts[0] || p in parts[1..];
      if parts[0].file != "" then [parts[0].file] + rest else rest
  }

  /** The file paths of an item's media parts: every non-empty part file,
      in media/part order. */
  function PartFiles(media: seq<Media>): (r: seq<string>)
    ensures forall f :: f in r <==> f != "" && exists p :: p in AllParts(media) && p.file == f
  {
    NonEmptyFiles(AllParts(media))
  }

  /** The parts of a media list are those of its first part followed by
      those of the rest: media order, then part order. */
  lemma {:induction false} AllPartsAppend(a: seq<Media>, b: seq<Media>)
    ensures AllParts(a + b) == AllParts(a) + AllParts(b)
    decreases |a|
  {
    if |a| == 0 {
      assert a + b == b;
    } else {
      assert (a + b)[0] == a[0];
      assert (a + b)[1..] == a[1..] + b;
      AllPartsAppend(a[1..], b);
    }
  }

  /** A single media entry contributes its parts in order. */
  lemma AllPartsOne(m: Media)
    ensures AllParts([m]) == m.parts
  {
    assert [m][1..] == [];
  }

  /** A single part contributes its file exactly when the file is named. */
  lemma NonEmptyFilesOne(p: Part)
    ensures NonEmptyFiles([p]) == if p.file != "" then [p.file] else []
  {
    assert [p][1..] == [];
  }

  /** Part files keep media order: those of the first media come before
      those of the rest. */
  lemma PartFilesAppend(a: seq<Media>, b: seq<Media>)
    ensures PartFiles(a + b) == PartFiles(a) + PartFiles(b)
  {
    AllPartsAppend(a, b);
    NonEmptyFilesAppend(AllParts(a), AllParts(b));
  }

  /** One media entry lists its named part files in part order. */
  lemma PartFilesOne(m: Media)
    ensures PartFiles([m]) == NonEmptyFiles(m.parts)
  {
    AllPartsOne(m);
  }

  lemma {:induction false} NonEmptyFilesAppend(a: seq<Part>, b: seq<Part>)
    ensures NonEmptyFiles(a + b) == NonEmptyFiles(a) + NonEmptyFiles(b)
    decreases |a|
  {
    if |a| == 0 {
      assert a + b == b;
    } else {
      assert (a + b)[1..] == a[1..] + b;
      NonEmptyFilesAppend(a[1..], b);
    }
  }
}
