/** Metadata synchronisation between a source item and its matched
    destination item: reconcile the watched state in whichever direction
    is newer, push the user rating, labels and genres to the destination,
    and check two watch states for consistency. Watch-state reads and
    writes are oracles; the destination catalogue calls go through the
    catalogue client's request builders. */
module MetadataSync {
  import opened Wrappers
  import opened Catalog
  import Config
  import PlexClient

  // ---- watch state ----------------------------------------------------------

  /** Which way the watched flag is copied. */
  datatype WatchDecision = WatchDecision(toDest: bool, toSource: bool)

  /** Both sides watched: `a` wins over `b` by a higher view count, then by
      a later last view. */
  predicate Ahead(a: WatchState, b: WatchState) {
    a.viewCount > b.viewCount || (a.viewCount == b.viewCount && a.lastViewedAt > b.lastViewedAt)
  }

  /** One side watched: its flag is copied when the other side never
      recorded a view or viewed earlier. */
  predicate Fresher(watched: WatchState, unwatched: WatchState) {
    unwatched.lastViewedAt == 0 || watched.lastViewedAt > unwatched.lastViewedAt
  }

  /** The decision inside syncWatchedState. */
  function DecideWatch(src: WatchState, dst: WatchState): (r: WatchDecision)
    ensures !(r.toDest && r.toSource)
    ensures !src.watched && !dst.watched ==> r == WatchDecision(false, false)
    ensures src.watched && !dst.watched ==> !r.toSource && (r.toDest <==> Fresher(src, dst))
    ensures !src.watched && dst.watched ==> !r.toDest && (r.toSource <==> Fresher(dst, src))
    ensures src.watched && dst.watched ==> (r.toDest <==> Ahead(src, dst)) && (r.toSource <==> Ahead(dst, src))
  {
    var toDest := src.watched && !dst.watched && (dst.lastViewedAt == 0 || src.lastViewedAt > dst.lastViewedAt);
    var toSource := !src.watched && dst.watched && (src.lastViewedAt == 0 || dst.lastViewedAt > src.lastViewedAt);
    if src.watched && dst.watched then
      if src.viewCount > dst.viewCount then WatchDecision(true, toSource)
      else if dst.viewCount > src.viewCount then WatchDecision(toDest, true)
      else if src.lastViewedAt > dst.lastViewedAt then WatchDecision(true, toSource)
      else if dst.lastViewedAt > src.lastViewedAt then WatchDecision(toDest, true)
      else WatchDecision(toDest, toSource)
    else WatchDecision(toDest, toSource)
  }

  /** The rule treats both sides alike: swapping them swaps the directions. */
  lemma DecideWatchMirror(src: WatchState, dst: WatchState)
    ensures DecideWatch(dst, src) == WatchDecision(DecideWatch(src, dst).toSource, DecideWatch(src, dst).toDest)
  {
  }

  /** Two watched sides with equal view counts and last views stay as they
      are. */
  lemma FullTieSyncsNothing(src: WatchState, dst: WatchState)
    requires src.watched && dst.watched
    requires src.viewCount == dst.viewCount && src.lastViewedAt == dst.lastViewedAt
    ensures DecideWatch(src, dst) == WatchDecision(false, false)
  {
  }

  datatype Side = SourceSide | DestSide

  /** One SetWatchedState call: the side written, the key and the flag. */
  datatype WatchWrite = WatchWrite(side: Side, key: string, watched: bool)

  /** The watch-state calls of both servers. */
  datatype WatchApi = WatchApi(
    get: (Side, string) -> Result<WatchState>,
    write: WatchWrite -> Outcome<string>)

  /** What syncWatchedState did. */
  datatype WatchSync = WatchSync(result: Outcome<string>, writes: seq<WatchWrite>)

  /** syncWatchedState: read both states, decide, then write the
      destination before the source, stopping at the first failed write. */
  function SyncWatchedState(api: WatchApi, sourceKey: string, destKey: string): (r: WatchSync)
    ensures api.get(SourceSide, sourceKey).Err? || api.get(DestSide, destKey).Err? ==> r.result.Fail? && r.writes == []
    ensures |r.writes| <= 1
    ensures api.get(SourceSide, sourceKey).Ok? && api.get(DestSide, destKey).Ok? ==>
              var src := api.get(SourceSide, sourceKey).value;
              var dst := api.get(DestSide, destKey).value;
              var d := DecideWatch(src, dst);
              (d.toDest ==> r.writes == [WatchWrite(DestSide, destKey, src.watched)])
              && (d.toSource ==> r.writes == [WatchWrite(SourceSide, sourceKey, dst.watched)])
              && (!d.toDest && !d.toSource ==> r.writes == [] && r.result.Pass?)
    ensures r.result.Pass? ==> forall w :: w in r.writes ==> api.write(w).Pass?
    ensures |r.writes| == 1 ==> (r.result.Pass? <==> api.write(r.writes[0]).Pass?)
  {
    match api.get(SourceSide, sourceKey)
    case Err(e) => WatchSync(Fail("failed to get source watched state: " + e), [])
    case Ok(src) =>
      match api.get(DestSide, destKey)
      case Err(e) => WatchSync(Fail("failed to get destination watched state: " + e), [])
      case Ok(dst) =>
        var d := DecideWatch(src, dst);
        if d.toDest then
          var w := WatchWrite(DestSide, destKey, src.watched);
          match api.write(w)
          case Fail(e) => WatchSync(Fail("failed to sync watched state to destination: " + e), [w])
          case Pass => WatchSync(Pass, [w])
        else if d.toSource then
          var w := WatchWrite(SourceSide, sourceKey, dst.watched);
          match api.write(w)
          case Fail(e) => WatchSync(Fail("failed to sync watched state to source: " + e), [w])
          case Pass => WatchSync(Pass, [w])
        else WatchSync(Pass, [])
  }

  /** A write never goes to the source once the destination write failed;
      at most one side is written at all. */
  lemma FailedDestWriteStopsSource(api: WatchApi, sourceKey: string, destKey: string)
    ensures var r := SyncWatchedState(api, sourceKey, destKey);
            (exists i :: 0 <= i < |r.writes| && r.writes[i].side == DestSide && api.write(r.writes[i]).Fail?) ==>
              r.result.Fail? && forall w :: w in r.writes ==> w.side == DestSide
  {
  }

  // ---- push policy ----------------------------------------------------------

  /** The destination writes of the enhanced movie and show sync. */
  datatype Step = RatingStep | LabelsStep | GenresStep

  /** The steps attempted for an item: the rating only when positive, labels
      and genres only when the item has some. */
  function Plan(item: Item): (r: seq<Step>)
    ensures RatingStep in r <==> item.userRating > 0.0
    ensures LabelsStep in r <==> |item.labels| > 0
    ensures GenresStep in r <==> |item.genres| > 0
    ensures forall i, j :: 0 <= i < j < |r| ==> r[i] != r[j]
  {
    (if item.userRating > 0.0 then [RatingStep] else [])
    + (if |item.labels| > 0 then [LabelsStep] else [])
    + (if |item.genres| > 0 then [GenresStep] else [])
  }

  /** The client call of one step. Genres are sent with the item's own type
      word, labels through SetLabels. */
  function StepCall(s: Config.Server, send: PlexClient.Send, item: Item, destKey: string, destLib: string, step: Step): (r: PlexClient.Sent)
    requires !item.Episode?
    ensures step == LabelsStep ==> r == PlexClient.SetLabels(s, send, destKey, destLib, Tags(item.labels))
    ensures step == GenresStep ==>
              r == PlexClient.UpdateMediaField(s, send, destKey, destLib, Tags(item.genres), "genre", if item.Movie? then "movie" else "show")
    ensures step == RatingStep ==> r == PlexClient.SetUserRating(s, send, destKey, item.userRating)
  {
    match step
    case RatingStep => PlexClient.SetUserRating(s, send, destKey, item.userRating)
    case LabelsStep => PlexClient.SetLabels(s, send, destKey, destLib, Tags(item.labels))
    case GenresStep => PlexClient.UpdateMediaField(s, send, destKey, destLib, Tags(item.genres), "genre", KindName(item))
  }

  datatype Attempt = Attempt(step: Step, sent: PlexClient.Sent)

  /** Runs every step, whatever became of the earlier ones. */
  function RunSteps(s: Config.Server, send: PlexClient.Send, item: Item, destKey: string, destLib: string, steps: seq<Step>): (r: seq<Attempt>)
    requires !item.Episode?
    ensures |r| == |steps|
    ensures forall i :: 0 <= i < |r| ==> r[i] == Attempt(steps[i], StepCall(s, send, item, destKey, destLib, steps[i]))
  {
    if |steps| == 0 then []
    else [Attempt(steps[0], StepCall(s, send, item, destKey, destLib, steps[0]))]
         + RunSteps(s, send, item, destKey, destLib, steps[1..])
  }

  function Failures(attempts: seq<Attempt>): (r: nat)
    ensures r == 0 <==> forall i :: 0 <= i < |attempts| ==> attempts[i].sent.result.Pass?
    ensures r <= |attempts|
  {
    if |attempts| == 0 then 0
    else
      assert forall j :: 0 <= j < |attempts| - 1 ==> attempts[1..][j] == attempts[j + 1];
      (if attempts[0].sent.result.Fail? then 1 else 0) + Failures(attempts[1..])
  }

  datatype Push = Push(result: Outcome<string>, attempts: seq<Attempt>)

  /** syncEnhancedMovieMetadata / syncEnhancedTVShowMetadata: every planned
      step is attempted, and the push fails when any of them failed. */
  function PushMetadata(s: Config.Server, send: PlexClient.Send, item: Item, destKey: string, destLib: string): (r: Push)
    requires !item.Episode?
    ensures |r.attempts| == |Plan(item)|
    ensures forall i :: 0 <= i < |r.attempts| ==> r.attempts[i].step == Plan(item)[i]
    ensures r.result.Pass? <==> forall a :: a in r.attempts ==> a.sent.result.Pass?
  {
    var attempts := RunSteps(s, send, item, destKey, destLib, Plan(item));
    if Failures(attempts) == 0 then Push(Pass, attempts)
    else
      assert exists i :: 0 <= i < |attempts| && attempts[i].sent.result.Fail?;
      Push(Fail((if item.Movie? then "enhanced movie" else "enhanced TV show") + " metadata sync errors"), attempts)
  }

  /** An item with no positive rating, no labels and no genres causes no
      request at all. */
  lemma NothingToPush(s: Config.Server, send: PlexClient.Send, item: Item, destKey: string, destLib: string)
    requires !item.Episode? && item.userRating <= 0.0 && item.labels == [] && item.genres == []
    ensures PushMetadata(s, send, item, destKey, destLib) == Push(Pass, [])
  {
  }

  /** A failing label write does not keep the genres from being written. */
  lemma GenresPushedDespiteLabelFailure(s: Config.Server, send: PlexClient.Send, item: Item, destKey: string, destLib: string)
    requires !item.Episode? && |item.labels| > 0 && |item.genres| > 0
    ensures var r := PushMetadata(s, send, item, destKey, destLib);
            exists i :: 0 <= i < |r.attempts| && r.attempts[i].step == GenresStep
              && r.attempts[i].sent == StepCall(s, send, item, destKey, destLib, GenresStep)
  {
    var r := PushMetadata(s, send, item, destKey, destLib);
    var p := Plan(item);
    var i :| 0 <= i < |p| && p[i] == GenresStep;
    assert r.attempts[i].step == GenresStep;
  }

  // ---- whole item ------------------------------------------------------------

  /** What SyncEnhancedMetadata did. */
  datatype ItemSync = ItemSync(result: Outcome<string>, watch: Option<WatchSync>, push: Option<Push>)

  /** SyncEnhancedMetadata: both keys must be present before anything is
      called; the watch sync then always runs, and an episode is reported
      as unsupported after it. */
  function SyncEnhancedMetadata(api: WatchApi, s: Config.Server, send: PlexClient.Send,
                                source: EnhancedItem, dest: EnhancedItem): (r: ItemSync)
    ensures source.item.key == "" || dest.item.key == "" ==> r.result.Fail? && r.watch.None? && r.push.None?
    ensures source.item.key != "" && dest.item.key != "" ==>
              r.watch == Some(SyncWatchedState(api, source.item.key, dest.item.key))
    ensures r.push.Some? <==> source.item.key != "" && dest.item.key != "" && !source.item.Episode?
    ensures r.push.Some? ==> r.push.value == PushMetadata(s, send, source.item, dest.item.key, dest.libraryId)
    ensures source.item.Episode? ==> r.result.Fail?
    ensures r.result.Pass? <==> r.watch.Some? && r.watch.value.result.Pass? && r.push.Some? && r.push.value.result.Pass?
  {
    if source.item.key == "" || dest.item.key == "" then
      ItemSync(Fail("source or destination item has no rating key"), None, None)
    else
      var w := SyncWatchedState(api, source.item.key, dest.item.key);
      if source.item.Episode? then
        ItemSync(Fail("enhanced metadata sync partially failed: unsupported item type"), Some(w), None)
      else
        var p := PushMetadata(s, send, source.item, dest.item.key, dest.libraryId);
        if w.result.Pass? && p.result.Pass? then ItemSync(Pass, Some(w), Some(p))
        else ItemSync(Fail("enhanced metadata sync partially failed"), Some(w), Some(p))
  }

  // ---- consistency report ----------------------------------------------------

  datatype Issue =
    | FetchFailed(side: Side, error: string)
    | WatchedMismatch(sourceWatched: bool, destWatched: bool)
    | ViewCountGap(sourceCount: int, destCount: int)

  datatype Report = Report(consistent: bool, issues: seq<Issue>)

  function AbsDiff(a: int, b: int): nat {
    if a >= b then a - b else b - a
  }

  /** ValidateMetadataConsistency: never an error; a failed read is reported
      as the only issue. */
  function ValidateMetadataConsistency(api: WatchApi, sourceKey: string, destKey: string): (r: Report)
    ensures r.consistent <==> r.issues == []
    ensures api.get(SourceSide, sourceKey).Err? ==> r.issues == [FetchFailed(SourceSide, api.get(SourceSide, sourceKey).error)]
    ensures api.get(SourceSide, sourceKey).Ok? && api.get(DestSide, destKey).Err? ==>
              r.issues == [FetchFailed(DestSide, api.get(DestSide, destKey).error)]
    ensures api.get(SourceSide, sourceKey).Ok? && api.get(DestSide, destKey).Ok? ==>
              var src := api.get(SourceSide, sourceKey).value;
              var dst := api.get(DestSide, destKey).value;
              (WatchedMismatch(src.watched, dst.watched) in r.issues <==> src.watched != dst.watched)
              && (ViewCountGap(src.viewCount, dst.viewCount) in r.issues <==> AbsDiff(src.viewCount, dst.viewCount) > 1)
              && (r.consistent <==> src.watched == dst.watched && AbsDiff(src.viewCount, dst.viewCount) <= 1)
  {
    match api.get(SourceSide, sourceKey)
    case Err(e) => Report(false, [FetchFailed(SourceSide, e)])
    case Ok(src) =>
      match api.get(DestSide, destKey)
      case Err(e) => Report(false, [FetchFailed(DestSide, e)])
      case Ok(dst) =>
        var issues := (if src.watched != dst.watched then [WatchedMismatch(src.watched, dst.watched)] else [])
                      + (if AbsDiff(src.viewCount, dst.viewCount) > 1 then [ViewCountGap(src.viewCount, dst.viewCount)] else []);
        Report(|issues| == 0, issues)
  }

  /** The side roles of a consistency check do not matter to its verdict. */
  lemma ConsistencySymmetric(api: WatchApi, swapped: WatchApi, sourceKey: string, destKey: string)
    requires swapped.get(SourceSide, destKey) == api.get(DestSide, destKey)
    requires swapped.get(DestSide, sourceKey) == api.get(SourceSide, sourceKey)
    requires api.get(SourceSide, sourceKey).Ok? && api.get(DestSide, destKey).Ok?
    ensures ValidateMetadataConsistency(swapped, destKey, sourceKey).consistent
         == ValidateMetadataConsistency(api, sourceKey, destKey).consistent
  {
  }
}
