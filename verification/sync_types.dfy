/** The engine-neutral records shared between components: an item queued
    for synchronisation, a planned file transfer, and a failed item awaiting
    retry. Go's `interface{}` metadata holds one of the catalogue items, and
    custom fields are text-valued here. Times are seconds on an injected
    clock. */
module SyncTypes {
  import opened Wrappers
  import opened Catalog

  datatype SyncableItem = SyncableItem(
    ratingKey: string,
    title: string,
    libraryId: string,
    filePaths: seq<string>,
    customFields: map<string, string>,
    metadata: Option<Item>)

  datatype FileTransfer = FileTransfer(sourcePath: string, destPath: string, size: int)

  datatype FailedItem = FailedItem(
    id: string,
    item: SyncableItem,
    error: string,
    timestamp: int,
    retryCount: int,
    maxRetries: int,
    nextRetryTime: int,
    permanent: bool)

  const DefaultMaxRetries: int := 3
  const RetryDelaySeconds: int := 5 * 60

  /** A failed item that the retry policy may still pick up. */
  predicate Retryable(f: FailedItem) {
    !f.permanent && f.retryCount < f.maxRetries
  }

  /** NewSyncableItem: the given identity and files, no custom fields and
      no metadata. */
  function NewSyncableItem(ratingKey: string, title: string, libraryId: string, filePaths: seq<string>): (r: SyncableItem)
    ensures r.ratingKey == ratingKey && r.title == title && r.libraryId == libraryId
    ensures r.filePaths == filePaths
    ensures |r.customFields| == 0 && r.metadata.None?
  {
    SyncableItem(ratingKey, title, libraryId, filePaths, map[], None)
  }

  /** NewSyncableItemWithMetadata: the same record as NewSyncableItem except
      that it carries the metadata. */
  function NewSyncableItemWithMetadata(ratingKey: string, title: string, libraryId: string, filePaths: seq<string>, metadata: Item): (r: SyncableItem)
    ensures r.metadata == Some(metadata)
    ensures r.(metadata := None) == NewSyncableItem(ratingKey, title, libraryId, filePaths)
  {
    SyncableItem(ratingKey, title, libraryId, filePaths, map[], Some(metadata))
  }

  /** NewFailedItem: identified by the item's rating key, never retried yet,
      not permanent, and due for retry five minutes after the second clock
      reading. `now` and `later` are the two readings of the clock the
      constructor takes, in order. */
  function NewFailedItem(item: SyncableItem, error: string, now: int, later: int): (r: FailedItem)
    requires now <= later
    ensures r.id == item.ratingKey && r.item == item && r.error == error
    ensures r.timestamp == now && r.nextRetryTime >= r.timestamp + RetryDelaySeconds
    ensures r.retryCount == 0 && r.maxRetries == DefaultMaxRetries
    ensures Retryable(r)
  {
    FailedItem(item.ratingKey, item, error, now, 0, DefaultMaxRetries, later + RetryDelaySeconds, false)
  }
}
