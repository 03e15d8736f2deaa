/** The pure part of the Plex HTTP client: the media-type codes, the shape
    of request URLs and query parameters, the scan-activity and label
    filters, the server-side/client-side label query fallback and the
    rating range guard. Sending a request is an oracle `Send`; a query is
    the parameter map the server receives (its percent-encoding is not
    modelled). */
module PlexClient {
  import opened Wrappers
  import opened Strs
  import opened Decimal
  import opened Catalog
  import Config

  /** An HTTP request: verb, URL without its query, query parameters. */
  datatype Request = Request(verb: string, url: string, query: map<Param, string>)

  /** Delivers a request; `Fail` covers transport errors and non-200 replies. */
  type Send = Request -> Outcome<string>

  /** The requests a call sent, in order, and its outcome. */
  datatype Sent = Sent(result: Outcome<string>, requests: seq<Request>)

  // ---- codes and URLs -------------------------------------------------------

  /** getMediaTypeForLibraryType: "show" is 2, every other library type 1. */
  function MediaTypeCode(libraryType: string): (r: int)
    ensures r == 1 || r == 2
    ensures r == 2 <==> libraryType == "show"
  {
    match libraryType
    case "movie" => 1
    case "show" => 2
    case _ => 1
  }

  /** buildURL: the scheme is chosen by RequireHTTPS alone. */
  function BuildUrl(s: Config.Server, path: string): (r: string)
    ensures HasPrefix(r, "https://") <==> s.requireHttps
    ensures HasSuffix(r, ":" + s.port + path)
  {
    var scheme := if s.requireHttps then "https" else "http";
    var r := scheme + "://" + s.host + ":" + s.port + path;
    assert s.requireHttps ==> r[..8] == "https://";
    assert !s.requireHttps ==> r[4] == ':';
    assert r[|r| - |":" + s.port + path|..] == ":" + s.port + path;
    r
  }

  /** With the protocol LoadConfig derives from RequireHTTPS, every request
      URL is the configured server URL followed by the path. */
  lemma BuildUrlExtendsServerUrl(s: Config.Server, path: string)
    requires s.protocol == (if s.requireHttps then "https" else "http")
    ensures BuildUrl(s, path) == Config.ServerUrl(s) + path
  {
  }

  /** The path of the bulk-edit endpoint of a library section. */
  function SectionPath(libraryId: string): string {
    "/library/sections/" + libraryId + "/all"
  }

  // ---- scan activities ------------------------------------------------------

  const ScanKind: string := "library.update.section"

  /** The activities that are library scans, in server order. */
  function ScanActivities(acts: seq<Activity>): (r: seq<Activity>)
    ensures forall a :: a in r <==> a in acts && a.kind == ScanKind
    ensures |r| <= |acts|
  {
    if |acts| == 0 then []
    else
      var rest := ScanActivities(acts[1..]);
      assert forall a :: a in acts <==> a == acts[0] || a in acts[1..];
      if acts[0].kind == ScanKind then [acts[0]] + rest else rest
  }

  /** The filter keeps the relative order: it distributes over concatenation. */
  lemma {:induction false} ScanActivitiesAppend(a: seq<Activity>, b: seq<Activity>)
    ensures ScanActivities(a + b) == ScanActivities(a) + ScanActivities(b)
    decreases |a|
  {
    if |a| == 0 {
      assert a + b == b;
    } else {
      assert (a + b)[1..] == a[1..] + b;
      ScanActivitiesAppend(a[1..], b);
    }
  }

  datatype ScanStatus = ScanStatus(inProgress: bool, scans: seq<Activity>)

  /** IsLibraryScanInProgress over one GetActivities answer. */
  function IsLibraryScanInProgress(activities: Result<seq<Activity>>): (r: Result<ScanStatus>)
    ensures r.Err? <==> activities.Err?
    ensures r.Ok? ==> (r.value.inProgress <==> exists a :: a in activities.value && a.kind == ScanKind)
    ensures r.Ok? ==> r.value.scans == ScanActivities(activities.value)
  {
    match activities
    case Err(e) => Err(e)
    case Ok(acts) =>
      var scans := ScanActivities(acts);
      assert scans != [] ==> scans[0] in scans;
      Ok(ScanStatus(|scans| > 0, scans))
  }

  // ---- label filter ---------------------------------------------------------

  /** Some tag of the list has the given value. */
  function HasTag(ts: seq<Tag>, value: string): (r: bool)
    ensures r <==> value in Tags(ts)
  {
    if |ts| == 0 then false
    else
      assert Tags(ts) == [ts[0].tag] + Tags(ts[1..]);
      ts[0].tag == value || HasTag(ts[1..], value)
  }

  /** itemHasLabel: only movies and shows carry labels the filter looks at. */
  function ItemHasLabel(item: Item, name: string): (r: bool)
    ensures r <==> !item.Episode? && name in Tags(item.labels)
  {
    match item
    case Movie(_, _, _, _, _, _, _, _, _, _, _, labels, _, _, _, _, _) => HasTag(labels, name)
    case Show(_, _, _, _, _, _, _, _, _, _, _, _, labels, _, _, _, _, _) => HasTag(labels, name)
    case Episode(_, _, _, _, _, _, _, _, _, _, _, _) => false
  }

  /** The client-side filter of GetItemsWithLabelClientSide. */
  function LabelFilter(items: seq<Item>, name: string): (r: seq<Item>)
    ensures forall x :: x in r <==> x in items && ItemHasLabel(x, name)
    ensures |r| <= |items|
  {
    if |items| == 0 then []
    else
      var rest := LabelFilter(items[1..], name);
      assert forall x :: x in items <==> x == items[0] || x in items[1..];
      if ItemHasLabel(items[0], name) then [items[0]] + rest else rest
  }

  lemma {:induction false} LabelFilterAppend(a: seq<Item>, b: seq<Item>, name: string)
    ensures LabelFilter(a + b, name) == LabelFilter(a, name) + LabelFilter(b, name)
    decreases |a|
  {
    if |a| == 0 {
      assert a + b == b;
    } else {
      assert (a + b)[1..] == a[1..] + b;
      LabelFilterAppend(a[1..], b, name);
    }
  }

  /** Episodes never survive the client-side filter. */
  lemma LabelFilterDropsEpisodes(items: seq<Item>, name: string)
    ensures forall x :: x in LabelFilter(items, name) ==> !x.Episode?
  {
  }

  /** GetItemsWithLabelClientSide over one GetLibraryContent answer. */
  function ItemsWithLabelClientSide(content: Result<seq<Item>>, name: string): (r: Result<seq<Item>>)
    ensures r.Err? <==> content.Err?
    ensures content.Err? ==> r == content
    ensures r.Ok? ==> forall x :: x in r.value <==> x in content.value && ItemHasLabel(x, name)
  {
    match content
    case Err(e) => Err(e)
    case Ok(items) => Ok(LabelFilter(items, name))
  }

  /** GetItemsWithLabel: the server-side answer when it succeeds, the
      client-side filter only when it fails. */
  function ItemsWithLabel(direct: Result<seq<Item>>, content: Result<seq<Item>>, name: string): (r: Result<seq<Item>>)
    ensures direct.Ok? ==> r == direct
    ensures direct.Err? ==> (r.Ok? <==> content.Ok?)
    ensures direct.Err? && r.Ok? ==> forall x :: x in r.value <==> x in content.value && ItemHasLabel(x, name)
  {
    if direct.Ok? then direct else ItemsWithLabelClientSide(content, name)
  }

  // ---- query parameters of the tag edits -------------------------------------

  /** The query parameter names the client sets, as a closed vocabulary;
      `WireName` is the text each one goes out as. */
  datatype Param =
    | TypeCode | Id | IncludeExternalMedia | Token | RatingKey | Rating | Identifier
    | Locked(field: string) | TagAt(field: string, index: nat) | TagRemoval(field: string)

  /** The indexed parameter name `field[i].tag.tag`. */
  function IndexKey(field: string, i: nat): (r: string)
    ensures |r| >= 11 && r[|r| - 1] == 'g'
  {
    field + "[" + NatText(i) + "].tag.tag"
  }

  function WireName(p: Param): (r: string)
    ensures p.TagAt? ==> r == IndexKey(p.field, p.index)
  {
    match p
    case TypeCode => "type"
    case Id => "id"
    case IncludeExternalMedia => "includeExternalMedia"
    case Token => "X-Plex-Token"
    case RatingKey => "key"
    case Rating => "rating"
    case Identifier => "identifier"
    case Locked(field) => field + ".locked"
    case TagAt(field, i) => IndexKey(field, i)
    case TagRemoval(field) => field + "[].tag.tag-"
  }

  lemma IndexKeyInjective(field: string, i: nat, j: nat)
    requires i != j
    ensures IndexKey(field, i) != IndexKey(field, j)
  {
    NatTextInjective(i, j);
    var ti, tj := NatText(i), NatText(j);
    var n := |field| + 1;
    assert IndexKey(field, i)[n..n + |ti|] == ti;
    assert IndexKey(field, j)[n..n + |tj|] == tj;
  }

  /** The parameters of one tag edit on `field`. */
  predicate EditParam(field: string, p: Param) {
    p in {TypeCode, Id, IncludeExternalMedia, Token, Locked(field), TagRemoval(field)}
    || (p.TagAt? && p.field == field)
  }

  /** Within one tag edit no two parameters share a wire name, so the map
      keyed by `Param` is the query the server receives. */
  lemma EditWireNamesDistinct(field: string, p: Param, q: Param)
    requires EditParam(field, p) && EditParam(field, q) && p != q
    ensures WireName(p) != WireName(q)
  {
    var locked := field + ".locked";
    var removal := field + "[].tag.tag-";
    assert locked[|locked| - 1] == 'd' && removal[|removal| - 1] == '-';
    assert "type"[3] == 'e' && "id"[1] == 'd' && "includeExternalMedia"[19] == 'a' && "X-Plex-Token"[11] == 'n';
    if p.TagAt? && q.TagAt? {
      IndexKeyInjective(field, p.index, q.index);
    }
  }

  /** The `field[i].tag.tag = keywords[i]` parameters. */
  function IndexedParams(field: string, keywords: seq<string>): (r: map<Param, string>)
    ensures forall p :: p in r <==> p.TagAt? && p.field == field && p.index < |keywords|
    ensures forall i :: 0 <= i < |keywords| ==> r[TagAt(field, i)] == keywords[i]
    decreases |keywords|
  {
    if |keywords| == 0 then map[]
    else
      var n := |keywords| - 1;
      IndexedParams(field, keywords[..n])[TagAt(field, n) := keywords[n]]
  }

  /** updateMediaField's query. */
  function UpdateFieldQuery(mediaType: int, id: string, field: string, keywords: seq<string>, token: string): (r: map<Param, string>)
    ensures forall p :: p in r <==> EditParam(field, p) && !p.TagRemoval? && (p.TagAt? ==> p.index < |keywords|)
    ensures {TypeCode, Id, IncludeExternalMedia, Locked(field), Token} <= r.Keys
    ensures r[TypeCode] == IntText(mediaType) && r[Id] == id && r[IncludeExternalMedia] == "1"
    ensures r[Locked(field)] == "1" && r[Token] == token
    ensures forall i :: 0 <= i < |keywords| ==> TagAt(field, i) in r && r[TagAt(field, i)] == keywords[i]
  {
    var base := map[TypeCode := IntText(mediaType)][Id := id][IncludeExternalMedia := "1"];
    (base + IndexedParams(field, keywords))[Locked(field) := "1"][Token := token]
  }

  /** The server reads the indexed tags back from index 0 up to the first
      missing index: that gives exactly the keyword list. */
  lemma UpdateQueryReadBack(mediaType: int, id: string, field: string, keywords: seq<string>, token: string)
    ensures var q := UpdateFieldQuery(mediaType, id, field, keywords, token);
            TagAt(field, |keywords|) !in q
            && seq(|keywords|, i requires 0 <= i < |keywords| => q[TagAt(field, i)]) == keywords
  {
  }

  /** removeMediaFieldKeywords's query. */
  function RemoveFieldQuery(mediaType: int, id: string, field: string, values: seq<string>, lock: bool, token: string): (r: map<Param, string>)
    ensures forall p :: p in r <==> EditParam(field, p) && !p.TagAt?
    ensures {TypeCode, Id, IncludeExternalMedia, TagRemoval(field), Locked(field), Token} <= r.Keys
    ensures r[TypeCode] == IntText(mediaType) && r[Id] == id && r[IncludeExternalMedia] == "1"
    ensures r[TagRemoval(field)] == JoinWith(values, ",")
    ensures (r[Locked(field)] == "1" <==> lock) && (r[Locked(field)] == "0" <==> !lock)
    ensures r[Token] == token
  {
    map[TypeCode := IntText(mediaType)][Id := id][IncludeExternalMedia := "1"]
      [TagRemoval(field) := JoinWith(values, ",")][Locked(field) := if lock then "1" else "0"][Token := token]
  }

  /** Splitting the removal value on commas gives back the values, as long
      as there is at least one and none holds a comma. */
  lemma RemoveQueryReadBack(mediaType: int, id: string, field: string, values: seq<string>, lock: bool, token: string)
    requires |values| >= 1
    requires forall i :: 0 <= i < |values| ==> ',' !in values[i]
    ensures Split(RemoveFieldQuery(mediaType, id, field, values, lock, token)[TagRemoval(field)], ',') == values
  {
    SplitJoin(values, ',');
  }

  /** UpdateMediaField: one PUT to the section's bulk-edit endpoint, with
      the type code derived from the library type. */
  function UpdateMediaField(s: Config.Server, send: Send, mediaId: string, libraryId: string,
                            keywords: seq<string>, field: string, libraryType: string): (r: Sent)
    ensures |r.requests| == 1
    ensures r.requests[0].verb == "PUT" && r.requests[0].url == BuildUrl(s, SectionPath(libraryId))
    ensures r.requests[0].query == UpdateFieldQuery(MediaTypeCode(libraryType), mediaId, field, keywords, s.token)
    ensures r.result.Pass? <==> send(r.requests[0]).Pass?
  {
    var req := Request("PUT", BuildUrl(s, SectionPath(libraryId)),
                       UpdateFieldQuery(MediaTypeCode(libraryType), mediaId, field, keywords, s.token));
    match send(req)
    case Pass => Sent(Pass, [req])
    case Fail(e) => Sent(Fail("failed to update media field: " + e), [req])
  }

  /** RemoveMediaFieldKeywords: the same endpoint with the removal query. */
  function RemoveMediaFieldKeywords(s: Config.Server, send: Send, mediaId: string, libraryId: string,
                                    values: seq<string>, field: string, lock: bool, libraryType: string): (r: Sent)
    ensures |r.requests| == 1
    ensures r.requests[0].verb == "PUT" && r.requests[0].url == BuildUrl(s, SectionPath(libraryId))
    ensures r.requests[0].query == RemoveFieldQuery(MediaTypeCode(libraryType), mediaId, field, values, lock, s.token)
    ensures r.result.Pass? <==> send(r.requests[0]).Pass?
  {
    var req := Request("PUT", BuildUrl(s, SectionPath(libraryId)),
                       RemoveFieldQuery(MediaTypeCode(libraryType), mediaId, field, values, lock, s.token));
    match send(req)
    case Pass => Sent(Pass, [req])
    case Fail(e) => Sent(Fail("failed to remove media field keywords: " + e), [req])
  }

  /** SetLabels: the label edit always names the movie library type. */
  function SetLabels(s: Config.Server, send: Send, ratingKey: string, libraryId: string, labels: seq<string>): (r: Sent)
    ensures |r.requests| == 1
    ensures r.requests[0].query == UpdateFieldQuery(1, ratingKey, "label", labels, s.token)
  {
    UpdateMediaField(s, send, ratingKey, libraryId, labels, "label", "movie")
  }

  /** Labels on a show go out with type code 1, while its genres, sent with
      the "show" library type, go out with type code 2. */
  lemma ShowLabelsUseMovieCode(s: Config.Server, send: Send, key: string, lib: string, labels: seq<string>, genres: seq<string>)
    ensures SetLabels(s, send, key, lib, labels).requests[0].query[TypeCode] == "1"
    ensures UpdateMediaField(s, send, key, lib, genres, "genre", "show").requests[0].query[TypeCode] == "2"
  {
    assert NatText(1) == "1";
    assert NatText(2) == "2";
  }

  // ---- user rating ----------------------------------------------------------

  /** Go's `%.0f` on an exactly representable value: round to the nearest
      integer, halves to even. */
  function RoundHalfEven(x: real): (n: int)
    ensures (n as real) - 0.5 <= x <= (n as real) + 0.5
    ensures (x == (n as real) + 0.5 || x == (n as real) - 0.5) ==> n % 2 == 0
  {
    var f := x.Floor;
    var d := x - f as real;
    if d < 0.5 then f
    else if d > 0.5 then f + 1
    else if f % 2 == 0 then f else f + 1
  }

  /** SetUserRating: a rating outside [0, 10] is refused before any request;
      otherwise one GET to the rate endpoint with the rounded rating. */
  function SetUserRating(s: Config.Server, send: Send, ratingKey: string, rating: real): (r: Sent)
    ensures rating < 0.0 || rating > 10.0 ==> r.result.Fail? && r.requests == []
    ensures 0.0 <= rating <= 10.0 ==> |r.requests| == 1 && (r.result.Pass? <==> send(r.requests[0]).Pass?)
    ensures |r.requests| == 1 ==>
              var q := r.requests[0].query;
              r.requests[0].verb == "GET" && r.requests[0].url == BuildUrl(s, "/:/rate")
              && q.Keys == {RatingKey, Rating, Identifier, Token}
              && q[RatingKey] == ratingKey && q[Rating] == IntText(RoundHalfEven(rating))
              && q[Token] == s.token
  {
    if rating < 0.0 || rating > 10.0 then
      Sent(Fail("rating must be between 0 and 10"), [])
    else
      var q := map[RatingKey := ratingKey][Rating := IntText(RoundHalfEven(rating))]
                  [Identifier := "com.plexapp.plugins.library"][Token := s.token];
      var req := Request("GET", BuildUrl(s, "/:/rate"), q);
      match send(req)
      case Pass => Sent(Pass, [req])
      case Fail(e) => Sent(Fail("failed to set user rating: " + e), [req])
  }

  /** An accepted rating is sent as a whole number in the same range. */
  lemma SentRatingInRange(rating: real)
    requires 0.0 <= rating <= 10.0
    ensures 0 <= RoundHalfEven(rating) <= 10
  {
  }
}
