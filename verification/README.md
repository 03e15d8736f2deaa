# syncarr sync engine, modelled in Dafny

syncarr keeps a destination Plex server in step with a source Plex server. Each sync cycle:

1. It checks that the destination answers.
2. It discovers the source items that carry the sync label.
3. It copies their media files, and the companion files beside them, over SSH. The copy uses rsync or SFTP.
4. It deletes destination files that no synced item accounts for.
5. It has the destination libraries rescanned and waits for the scans to finish.
6. It matches source items to destination items by file name.
7. It compares their metadata and reconciles watch state.

This project models the decision logic of that engine as pure Dafny functions over immutable datatypes. Each call to a Plex server, the SSH server, rsync, SFTP, the local file system or the clock becomes a function-typed parameter that returns a `Result` or an `Outcome`. An operation returns the calls it made, in order, so contracts can speak about them.

Modules:

- **Foundations.**
  - `Wrappers`: `Option`, `Result` and `Outcome`.
  - `Strs` and `Decimal`: the parts of Go's `strings` and `strconv` the engine relies on.
  - `Paths`: `filepath.Clean`, `Base`, `Dir` and `Join` on a Unix host.
- **Data.**
  - `Catalog`: libraries, `Item = Movie | Show | Episode`, media parts, tags, activities.
  - `SyncTypes`: the engine-neutral records.
  - `PlexJson`: the lenient JSON decoders of the Plex item types.
- **Configuration.** `Config`: the validator, the server URL and the two path mappings.
- **Transfer.**
  - `Transfer`: the skip-if-same-size decision and the choice of backend.
  - `Rsync`: argument lists, output classification and batching.
  - `Ssh`: shell quoting, remote commands and output parsing.
  - `Scp`: the SFTP backend's own path mapping, directory walk and copy steps.
- **Plex client.** `PlexClient`: media-type codes, URL shape, the scan and label filters, the query layout of tag edits, and the rating guard.
- **Discovery and matching.**
  - `Discovery`: content discovery.
  - `Matcher`: matching items by file name.
  - `LibraryManager`: the scan wait, as a clocked polling loop.
- **Sync.**
  - `Differ`: field-by-field metadata comparison.
  - `MetadataSync`: the watch-state decision and the push policy.
  - `Orchestrator`: the sync cycle, related files, cleanup and the metadata tally.

Behaviours of the code worth noting:

- **Rating tolerance.** Two ratings differ when the truncated difference of their tenths exceeds one. So 7.2 and 7.4 differ (`Differ.RatingExamples`).
- **Tag lists.** They are compared by length, then by whether every source tag occurs in the destination list. This is not symmetric when a list repeats a tag (`Differ.SameTagsAsymmetric`).
- **No refresh wait.** The refresh ends once the library scans are finished. There is no separate wait for a metadata refresh.

## Model

| member | source | states |
|---|---|---|
| Config.Validate | internal/config/config.go:136-200 | A config passes exactly when it breaks no rule: missing hosts, tokens or label, a half-set path mapping, SSH credentials without a destination root, bad log level or performance limits. A failure names a broken rule, and no earlier rule is broken. |
| Config.ValidateTableTest | internal/config/config_test.go:90-174 | The table test's cases: the full config passes, a missing source host and a missing destination token fail with those errors, and so on. |
| Config.MapSourcePathToLocal | internal/config/config.go:248-277 | An empty path is an error. Without both replacement strings the path is unchanged. Otherwise it is accepted exactly when it starts with the source prefix. |
| Config.MapLocalPathToDest | internal/config/config.go:280-320 | An error exactly when the local path or the destination root is empty, or when the path does not start with the local prefix, or, with no local prefix set, does not start with the source prefix. Every result lies under the destination root. With no mapping it is the root plus the base name. |
| Config.MapRoundTrip | internal/config/config.go:272-276 | Mapping a source path to this machine and then to the destination gives the destination root followed by the path's part after the source prefix. This holds for plain directories and relative parts. |
| Config.RawPrefixAccepted | internal/config/config.go:268-273 | The prefix test is on raw text: a path under a sibling directory whose name extends the prefix is accepted. |
| Scp.MapSourcePathToLocal | internal/transfer/scp.go:538-567 | The SFTP backend's source mapping: an empty path is an error, and without both replacements the path is unchanged. |
| Scp.SourceMappingsAgree | internal/transfer/scp.go:538-567 | The backend's source mapping equals the configuration's, for every configuration and path. |
| Scp.MapLocalPathToDest | internal/transfer/scp.go:570-601 | An error exactly for an empty path, an empty root, or a path outside the local prefix. With no local prefix, the result is the root plus the base name: directories are flattened. |
| Scp.LocalMappingsAgree | internal/transfer/scp.go:570-601 | On configurations without a half-set mapping, the backend's destination mapping equals the configuration's. |
| Scp.LocalMappingsDiverge | internal/transfer/scp.go:582-599 | With only the source prefix set, the backend keeps the base name while the configuration keeps the relative path, so nested files map differently. |
| Scp.ItemIdentifier | internal/transfer/scp.go:523-533 | The rating key when present, else the title, else "unknown"; never empty. |
| Scp.WalkDir | internal/transfer/scp.go:433-456 | The walk succeeds exactly when every directory below is readable. It then yields one path per file, each under the walked directory. |
| Scp.WalkIsListing | internal/transfer/scp.go:410-456 | A successful walk yields exactly the reference listing: each file once, named by its directory's path without trailing slashes, "/" and its name, depth first in entry order, with no directory listed. |
| Scp.ListingMembers | internal/transfer/scp.go:410-456 | A path is in the reference listing exactly when it names a file below the directory, reached through entry names joined by "/": nothing else and nothing missing. |
| Scp.ListingAllAppend | internal/transfer/scp.go:439-453 | A directory's listing is the listing of its first entries followed by that of the rest, so entries are visited in order. |
| Scp.ListingAllOne | internal/transfer/scp.go:439-453 | One entry contributes its own path when it is a file, and its whole subtree's listing, in place, when it is a directory. |
| Scp.ListDirectoryContents | internal/transfer/scp.go:410-431 | Listing succeeds exactly when the tree is a readable directory. It then returns the reference listing of the tree's files, one path per file. |
| Scp.FileExists | internal/transfer/scp.go:379-388 | A successful stat is "exists", a not-exist error is a plain "no", and any other stat error is an error. |
| Scp.DestDir | internal/transfer/scp.go:128-132 | The directory the copy creates is the text before the last "/". A destination without "/" is an error. |
| Scp.DestDirIsDir | internal/transfer/scp.go:128-132 | For a file below a plain directory other than the root, that directory is exactly `filepath.Dir` of the joined path. |
| Scp.DestDirAtRoot | internal/transfer/scp.go:128-132 | For a file directly under "/", the copy's directory is the empty string, while `filepath.Dir` gives "/". |
| Scp.CopyFile | internal/transfer/scp.go:119-230 | A failed local stat, or a destination without "/", fails before any remote operation. A success means the copied byte count equals the local size, after the directory steps in order. A copy only follows a successful create. |
| Transfer.NewTransferrer | internal/transfer/transfer.go:58-92 | "rsync" always gives the rsync backend. "scp" succeeds exactly when the SFTP connection comes up. Any other name is an "unsupported transfer method" error. |
| Transfer.GetOptimalTransferMethod | internal/transfer/transfer.go:173-183 | rsync exactly when rsync is available, SCP otherwise. |
| Transfer.OptimalMethodAccepted | internal/transfer/transfer.go:173-183 | The automatically chosen method is one that NewTransferrer accepts. |
| Transfer.TransferFile | internal/transfer/transfer.go:94-138 | A failed local stat fails with no remote call. An equal remote size succeeds after only the size query. Otherwise the destination directory is created, and then the backend runs once. A backend error containing "file_skipped" counts as success. |
| Transfer.SizeQueryErrorNotFatal | internal/transfer/transfer.go:102-110 | A failed remote size query does not stop the transfer: the directory step follows. |
| Transfer.RerunSkips | internal/transfer/transfer.go:102-110 | Once the remote copy has the local size, running the transfer again makes only the size query and succeeds. |
| Transfer.EnsureDestinationDir | internal/transfer/transfer.go:165-171 | The directory step is the SSH `mkdir -p` of `Dir(destPath)` and always reports success. |
| Transfer.SshMkdirNeverFatal | internal/transfer/transfer.go:113-130 | With the SSH mkdir, a transfer fails exactly when the local stat or the backend fails. |
| Rsync.SshOptions | internal/transfer/rsync.go:121-132 | The ssh options start with compression off and keep-alive on, and add the server-alive pair only in the single-file form. They name `-p port` exactly when the port is set and is not 22. |
| Rsync.SshCommand | internal/transfer/rsync.go:134-142 | The command starts with `sshpass -p` exactly when a password is set. It always ends with the plain ssh command. |
| Rsync.SshCommandAgrees | internal/transfer/rsync.go:134-142 | For a password without a single quote, the command equals the one the source formats. |
| Rsync.FlagsChoices | internal/transfer/rsync.go:100-119 | A positive compression level keeps "-avz" and names the level. Level zero switches to "-av". Skipping checksums adds "--no-whole-file" and "--no-compress". |
| Rsync.DefaultFlagsConflict | internal/transfer/rsync.go:30-43 | With the constructor's settings, the flags ask for compression level 1 and also for no compression. |
| Rsync.BuildRsyncArgsLayout | internal/transfer/rsync.go:94-149 | The flag list comes first. Then come "-e", the ssh command, the source path and `user@host:dest`, in that order. For a password without a single quote, the ssh command is the one the source formats. |
| Rsync.Scan | internal/transfer/rsync.go:151-198 | Over the trimmed output lines, the itemize flag is set exactly when some line starts with ">f" and names the file. The progress flag is set exactly when some line names the file with a rate or a percentage. |
| Rsync.IsFileSkipped | internal/transfer/rsync.go:151-198 | A file counts as skipped exactly when no trimmed output line shows either kind of transfer evidence for its base name. |
| Rsync.EmptyOutputSkipped | internal/transfer/rsync.go:151-198 | Empty output means the file was skipped. |
| Rsync.DoTransferFile | internal/transfer/rsync.go:45-76 | Only a failed rsync command is an error, prefixed "rsync failed: ". A skipped and a transferred file both succeed. |
| Rsync.Sequential | internal/transfer/rsync.go:78-92 | Files go one by one, in order, stopping at the first failing file: every file before it succeeded. The run succeeds exactly when every file does, after attempting them all. |
| Rsync.FileStepOk | internal/transfer/rsync.go:45-76 | One file of the loop succeeds exactly when its rsync run does. |
| Rsync.GroupByDirExact | internal/transfer/rsync.go:200-218 | Each group holds exactly the files of its source directory, in their original order, and no group is empty. |
| Rsync.GroupsPartition | internal/transfer/rsync.go:200-218 | Every file lies in the group of its own source directory and in no other group. |
| Rsync.GroupKeys | internal/transfer/rsync.go:200-218 | The groups are keyed by exactly the source directories of the files. |
| Rsync.BatchArgs | internal/transfer/rsync.go:237-275 | Ten arguments: `--include-from` naming the include file, then `--exclude=*`, then "-e" with the ssh command without keep-alive probes, then the source directory and the destination directory, each with a trailing slash. For a password without a single quote, the ssh command is the one the source formats. |
| Rsync.DirectoryBatch | internal/transfer/rsync.go:220-289 | An empty group does nothing. A failed include file is an error without an rsync run. Otherwise the batch succeeds exactly when its rsync run does. |
| Rsync.RunGroups | internal/transfer/rsync.go:209-217 | The groups run in the given order, stopping at the first failure. The run succeeds exactly when every group does. |
| Rsync.VisitEveryGroup | internal/transfer/rsync.go:209-217 | Whatever order Go's map iteration takes, the groups succeed together exactly when each group succeeds. |
| Rsync.TransferFilesBatchAllGroups | internal/transfer/rsync.go:200-218 | A batch transfer succeeds exactly when every directory group's batch succeeds, whatever the visit order. |
| Rsync.DoTransferFilesFew | internal/transfer/rsync.go:78-92 | Up to three files succeed exactly when each file's own rsync run does. |
| Rsync.DoTransferFilesMany | internal/transfer/rsync.go:78-92 | More than three files succeed exactly when every directory group does. |
| Ssh.Escape | internal/transfer/ssh.go:99 | A quote-free path is unchanged, and every single quote grows by four characters. |
| Ssh.QuoteArgRoundTrip | internal/transfer/ssh.go:99-100 | A POSIX shell reads the quoted, escaped argument back as exactly the original path. |
| Ssh.Execute | internal/transfer/ssh.go:33-95 | A cached connection is reused without dialing. Without one, the client dials first. The command runs exactly when a connection exists, and no connection means an error. |
| Ssh.ConnectionReused | internal/transfer/ssh.go:33-68 | Once a dial has succeeded, a whole run of commands dials at most once. |
| Ssh.Close | internal/transfer/ssh.go:198-207 | Close drops the cached connection. Closing with no connection succeeds, so a second Close succeeds. |
| Ssh.GetFileSize | internal/transfer/ssh.go:97-114 | A size is reported only when the command succeeded, and it is a 64-bit integer. |
| Ssh.FileSizeOfPrintedSize | internal/transfer/ssh.go:97-114 | When the remote prints a size and a newline, that size is the result. |
| Ssh.DeleteFile | internal/transfer/ssh.go:116-124 | The delete succeeds exactly when the `rm -f` command does. |
| Ssh.CreateDirectory | internal/transfer/ssh.go:178-196 | It always succeeds, whatever the `mkdir -p` command does. |
| Ssh.ParseListing | internal/transfer/ssh.go:162-175 | Trimmed empty output is the empty list. Otherwise the list joined by newlines is the trimmed output, and no entry contains a newline. |
| Ssh.ListDirectoryContents | internal/transfer/ssh.go:126-176 | It never fails: the find output, else the fallback's output, else the empty list. |
| Ssh.UnreachableListsEmpty | internal/transfer/ssh.go:126-176 | An unreachable host lists as an empty directory, after two dial attempts. |
| PlexClient.MediaTypeCode | internal/plex/client.go:634-644 | "show" is 2 and every other library type is 1. |
| PlexClient.BuildUrl | internal/plex/client.go:647-653 | The scheme is https exactly when HTTPS is required. The URL ends with the port and the path. |
| PlexClient.BuildUrlExtendsServerUrl | internal/config/config.go:202-210 | With the protocol the loader derives, every request URL is the server URL followed by the path. |
| PlexClient.IsLibraryScanInProgress | internal/plex/client.go:334-348 | A scan is in progress exactly when some activity is a library scan. Exactly the scan activities are returned, in order. |
| PlexClient.ScanActivitiesAppend | internal/plex/client.go:340-347 | The scan filter keeps the server's order. |
| PlexClient.ItemHasLabel | internal/plex/client.go:891-907 | An item has the label exactly when it is a movie or show with a label tag of that name. |
| PlexClient.LabelFilterDropsEpisodes | internal/plex/client.go:891-907 | Episodes never survive the client-side label filter. |
| PlexClient.ItemsWithLabelClientSide | internal/plex/client.go:872-888 | A failed content fetch is passed on. Otherwise exactly the labelled items are kept. |
| PlexClient.ItemsWithLabel | internal/plex/client.go:846-868 | The server-side answer when it succeeds. Otherwise the client-side filter, which fails only when the content fetch does, and otherwise returns exactly the fetched items that carry the label. |
| PlexClient.IndexKeyInjective | internal/plex/client.go:543-555 | Distinct indices give distinct `field[i].tag.tag` parameter names. |
| PlexClient.EditWireNamesDistinct | internal/plex/client.go:543-610 | No two parameters of one tag edit share a name on the wire. |
| PlexClient.UpdateFieldQuery | internal/plex/client.go:543-555 | The query sets the type code, id and external-media flag. It also sets `field[i].tag.tag` to keyword i for every index, the field lock to 1, and the token. |
| PlexClient.UpdateQueryReadBack | internal/plex/client.go:543-555 | Reading the indexed tags back from index 0 up to the first gap gives exactly the keywords. |
| PlexClient.RemoveFieldQuery | internal/plex/client.go:593-610 | The removal query comma-joins the values into the removal parameter. It sets the lock to 1 or 0 from the flag, and sets no indexed tags. |
| PlexClient.RemoveQueryReadBack | internal/plex/client.go:593-610 | Splitting the removal value on commas gives the values back, as long as none contains a comma. |
| PlexClient.UpdateMediaField | internal/plex/client.go:230-238 | One PUT to the section's bulk-edit endpoint with the update query. It succeeds exactly when that request does. |
| PlexClient.RemoveMediaFieldKeywords | internal/plex/client.go:242-244 | One PUT to the same endpoint with the removal query. It succeeds exactly when that request does. |
| PlexClient.SetLabels | internal/plex/client.go:472-474 | The label edit always uses the movie type code. |
| PlexClient.ShowLabelsUseMovieCode | internal/plex/client.go:472-474 | Labels on a show go out with type code 1, while its genres go out with 2. |
| PlexClient.SetUserRating | internal/plex/client.go:430-469 | A rating outside [0, 10] is refused before any request. Otherwise exactly one request is sent, and the call succeeds exactly when that request does. |
| PlexClient.SentRatingInRange | internal/plex/client.go:430-469 | An accepted rating is sent as a whole number from 0 to 10. |
| PlexJson.DecodeRatingKey | internal/plex/types.go:210-227 | A string decodes to itself, null to "", an in-range integer to its decimal text (which parses back to it), and anything else is an error. |
| PlexJson.RatingKeyRoundTrip | internal/plex/types.go:230-237 | Decoding an encoded key gives the key back. |
| PlexJson.RatingKeyIntegerForm | internal/plex/types.go:210-227 | An integer key and its decimal text decode to the same key. |
| PlexJson.DecodeRating | internal/plex/types.go:245-265 | A number is taken as the value. An array gives its first element, or leaves the old value when it is empty. Anything else sets zero; decoding never fails. |
| PlexJson.RatingRoundTrip | internal/plex/types.go:245-272 | Decoding an encoded rating gives the rating back. |
| PlexJson.RatingArrayOfOne | internal/plex/types.go:245-265 | A one-element array and the bare number decode to the same rating. |
| PlexJson.DecodeGuids | internal/plex/types.go:179-202 | Null is the empty list. A string becomes one GUID with that id. An array decodes element by element, and an object becomes a one-element list. Anything else is an error. |
| PlexJson.GuidsRoundTrip | internal/plex/types.go:179-202 | Decoding the written form of a GUID list gives the list back. |
| PlexJson.GuidLastIdWins | internal/plex/types.go:161-164 | When an object names the id twice, in any letter case, the later value wins. |
| Catalog.KindName | internal/discovery/discovery.go:141-166 | Every item is tagged "movie", "show" or "episode", and "episode" exactly for episodes. |
| Catalog.Tags | internal/metadata/sync.go:389-422 | The tag values of a tag list, one per tag, in the original order. |
| Catalog.PartFiles | internal/discovery/content_matcher.go:136-167 | Exactly the non-empty part file names of an item's media. |
| Catalog.AllPartsAppend | internal/discovery/content_matcher.go:142-148 | The parts of a media list are those of its first media followed by those of the rest. |
| Catalog.AllPartsOne | internal/discovery/content_matcher.go:142-148 | One media entry contributes its parts in order. |
| Catalog.NonEmptyFilesAppend | internal/discovery/content_matcher.go:142-148 | Filtering out empty file names keeps the order of the parts. |
| Catalog.NonEmptyFilesOne | internal/discovery/content_matcher.go:142-148 | One part contributes its file exactly when the file is named. |
| Catalog.PartFilesAppend | internal/discovery/content_matcher.go:136-167 | The part files of a media list are those of its first media followed by those of the rest, so they come in media order. |
| Catalog.PartFilesOne | internal/discovery/content_matcher.go:136-167 | One media entry lists its named part files in part order. |
| SyncTypes.NewSyncableItem | pkg/types/types.go:79-88 | The given identity and files, no custom fields and no metadata. |
| SyncTypes.NewSyncableItemWithMetadata | pkg/types/types.go:91-100 | The same record as NewSyncableItem, except that it carries the given metadata. |
| SyncTypes.NewFailedItem | pkg/types/types.go:103-114 | The item and error unchanged, and the id is the rating key. It has not been retried yet, allows three retries and is not permanent. The next retry is at least five minutes after the failure. |
| Discovery.LoadFullMetadata | internal/discovery/discovery.go:127-170 | An empty key is an error. Movies and shows are re-fetched and fail exactly when the fetch does. An episode passes through un-fetched. The library id is the one passed in. |
| Discovery.HydrateAll | internal/discovery/discovery.go:78-90 | Exactly the items whose hydration succeeded, in listing order, each tagged with the library. |
| Discovery.HydrateAllAppend | internal/discovery/discovery.go:78-90 | Hydration keeps order: it distributes over concatenation. |
| Discovery.LibraryItems | internal/discovery/discovery.go:57-64 | A library whose label query fails contributes nothing. |
| Discovery.CollectAppend | internal/discovery/discovery.go:50-93 | Libraries contribute their items in library order. |
| Discovery.DiscoverSyncableContent | internal/discovery/discovery.go:37-98 | Only a failed library list is an error. Every item found belongs to one of the libraries. |
| Discovery.GetItemFilePaths | internal/discovery/discovery.go:101-124 | The non-empty part files of a movie or show; an episode has none. |
| Matcher.ExtractFilePaths | internal/discovery/content_matcher.go:136-167 | Exactly the non-empty part files, for all three kinds. The first media entry's named files come first, in part order, and then those of the later media. |
| Matcher.FilePathsAgreeOffEpisodes | internal/discovery/content_matcher.go:136-167 | The matcher and discovery read the same files, except that discovery reads none for an episode. |
| Matcher.BuildIndexLastWriter | internal/discovery/content_matcher.go:78-88 | The index holds exactly the base names some destination item carries. Each name points at the last item carrying it. |
| Matcher.FirstHit | internal/discovery/content_matcher.go:99-122 | The base name of the first file, in media and part order, that is in the index. None when no file is. |
| Matcher.MatchItem | internal/discovery/content_matcher.go:96-125 | A source item matches exactly when one of its files hits the index. It is paired with that name's destination item. |
| Matcher.MatchAllAppend | internal/discovery/content_matcher.go:96-125 | Matches keep source-item order. |
| Matcher.MatchAllOne | internal/discovery/content_matcher.go:96-125 | Each source item gives at most one match. It gives none, without error, exactly when no file of it hits the index. |
| Matcher.MatchItemsByFilename | internal/discovery/content_matcher.go:35-133 | Only a failed destination library list is an error. Every match pairs a source item with the last destination item carrying the matched name. |
| LibraryManager.Classify | internal/plex/client.go:334-348 | A check is unknown exactly when the activity fetch failed, and idle exactly when no activity is a library scan. |
| LibraryManager.WaitLoop | internal/discovery/library_manager.go:88-185 | The loop polls from the start time within the limit, with polls at least the sleep interval apart. Every poll but the last found scans running. It ends clear exactly on an idle poll, and with a poll failure exactly on a failed poll when failures stop it. |
| LibraryManager.WaitLoopPollBound | internal/discovery/library_manager.go:88-185 | A loop fits no more polls than its time limit allows at the sleep interval. |
| LibraryManager.WaitForExistingScans | internal/discovery/library_manager.go:88-126 | Only the first status check can fail. The loop runs only when scans are running, stops on a quiet or failed poll or after five minutes, and polls at most 31 times. |
| LibraryManager.WaitForAllScans | internal/discovery/library_manager.go:129-185 | Poll failures are retried. The wait succeeds exactly at a quiet poll, never ends on a poll failure, and polls 1 to 121 times in ten minutes. |
| LibraryManager.AnyScanKeepsWaiting | internal/discovery/library_manager.go:149 | Any running library scan keeps the final wait going, whichever library it belongs to. |
| LibraryManager.Triggered | internal/discovery/library_manager.go:47-81 | Exactly the libraries whose scan trigger succeeded, in order. |
| LibraryManager.TriggerRefreshAndWait | internal/discovery/library_manager.go:26-85 | A failed library list is an error. No successful trigger is an error without waiting. Otherwise the outcome is the final wait's. |
| LibraryManager.ExistingWaitNeverFatal | internal/discovery/library_manager.go:31-33 | The wait for already-running scans never decides the refresh's outcome. |
| LibraryManager.OutcomeIgnoresWhichTriggered | internal/discovery/library_manager.go:57-84 | As long as one scan was triggered, which ones were does not change the outcome. |
| Differ.SameTags | internal/orchestrator/sync.go:639-696 | Two tag lists are the same exactly when their lengths agree and every source tag occurs in the destination list. |
| Differ.SameTagsIsSetEquality | internal/orchestrator/sync.go:639-666 | For lists without repeated tags, the comparison is set equality. |
| Differ.SameTagsAsymmetric | internal/orchestrator/sync.go:639-666 | With repeated tags the comparison is not symmetric: ["a","a"] against ["a","b"] passes, and the reverse does not. |
| Differ.SameTagsReflexive | internal/orchestrator/sync.go:639-666 | A list is the same as itself. |
| Differ.Trunc | internal/orchestrator/sync.go:545 | Go's float-to-int conversion truncates toward zero. |
| Differ.RatingTolerance | internal/orchestrator/sync.go:544-547 | Ratings differ exactly when their tenths are at least two apart. |
| Differ.RatingExamples | internal/orchestrator/sync.go:545 | 7.2 and 7.3 are equal, 7.2 and 7.4 differ, 7.2 and 7.39 are equal. |
| Differ.FieldDiffs | internal/orchestrator/sync.go:518-636 | Between items of one kind, a difference is reported exactly when its field differs. The network is compared for shows only. |
| Differ.FindDifferences | internal/orchestrator/sync.go:490-515 | Movies and shows are compared field by field. A movie or show against another kind gives one kind mismatch, and an episode source gives "unsupported". |
| Differ.NoDifferencesWithItself | internal/orchestrator/sync.go:518-636 | A movie or show compared with itself has no differences. |
| Differ.NeedsSyncMeaning | internal/orchestrator/sync.go:820-839 | An identical movie or show needs no sync, and an episode always does. Between items of one kind, a sync is needed exactly when some field differs. |
| MetadataSync.DecideWatch | internal/metadata/sync.go:157-187 | Never both directions, and nothing when both sides are unwatched. With one side watched, the write goes toward the unwatched side exactly when it never viewed or viewed earlier. With both watched, the higher view count wins, then the later view. |
| MetadataSync.DecideWatchMirror | internal/metadata/sync.go:161-187 | Swapping the two sides swaps the two directions. |
| MetadataSync.FullTieSyncsNothing | internal/metadata/sync.go:177-187 | A full tie syncs nothing. |
| MetadataSync.SyncWatchedState | internal/metadata/sync.go:143-205 | A failed read fails without writing. At most one write is made, in the decided direction, and the sync succeeds exactly when that write does. |
| MetadataSync.FailedDestWriteStopsSource | internal/metadata/sync.go:189-204 | A failed write to the destination ends the sync, and nothing is written to the source. |
| MetadataSync.Plan | internal/metadata/sync.go:269-386 | The rating is pushed only when positive, and labels and genres only when non-empty. No step appears twice. |
| MetadataSync.StepCall | internal/metadata/sync.go:276-311 | The rating goes through SetUserRating and the labels through SetLabels. The genres go through UpdateMediaField with the "movie" or "show" type. |
| MetadataSync.PushMetadata | internal/metadata/sync.go:269-386 | Every planned step is attempted, in order. The push succeeds exactly when all attempts do. |
| MetadataSync.GenresPushedDespiteLabelFailure | internal/metadata/sync.go:294-311 | A failed label push does not stop the genre push. |
| MetadataSync.NothingToPush | internal/metadata/sync.go:269-386 | An item with no rating, labels or genres pushes nothing and succeeds. |
| MetadataSync.SyncEnhancedMetadata | internal/metadata/sync.go:85-140 | An empty rating key fails before any call. Otherwise the watch sync always runs, and the push runs for movies and shows only. An episode is reported as an error. Success requires both parts to succeed. |
| MetadataSync.ValidateMetadataConsistency | internal/metadata/sync.go:458-493 | Consistent exactly when there are no issues. A failed fetch is a single issue. A watched mismatch is reported exactly when the flags differ, and a view-count gap exactly when the counts are more than one apart. |
| MetadataSync.ConsistencySymmetric | internal/metadata/sync.go:458-493 | The consistency verdict is the same whichever side is called the source. |
| Orchestrator.Companions | internal/orchestrator/sync.go:315-340 | Exactly the non-directory entries whose name starts with the main file's stem and a dot, other than the main file. |
| Orchestrator.CompanionsAppend | internal/orchestrator/sync.go:328-344 | The companions of a listing are those of its first entries followed by those of the rest, so they keep the listing's order. |
| Orchestrator.FindRelatedFiles | internal/orchestrator/sync.go:295-347 | The main file always comes first. Without a listing there is nothing else. Otherwise the rest are exactly its companions in the same directory. |
| Orchestrator.CompanionShape | internal/orchestrator/sync.go:315-340 | Every related file lies in the main file's directory and shares its stem. |
| Orchestrator.RelatedAll | internal/orchestrator/sync.go:350-361 | Every main file is included, each with its related files. |
| Orchestrator.RelatedAllMembers | internal/orchestrator/sync.go:350-361 | A path is included exactly when it is one of the main files or a companion of one. |
| Orchestrator.EpisodeFiles | internal/orchestrator/sync.go:233-243 | Every episode's part files are included. |
| Orchestrator.EpisodeFilesMembers | internal/orchestrator/sync.go:233-243 | A path is included exactly when it is a part file of one of the episodes or a companion of one. |
| Orchestrator.ItemPaths | internal/orchestrator/sync.go:350-375 | A show whose episode listing fails is an error. Otherwise every part file of the item or its episodes is included. |
| Orchestrator.ItemPathsMembers | internal/orchestrator/sync.go:226-245 | An item's paths are exactly its part files, or its episodes' part files for a show, together with their companions. |
| Orchestrator.CopiesOf | internal/orchestrator/sync.go:251-291 | Exactly the related files whose source and destination mappings succeed and whose local file exists. |
| Orchestrator.TransferItemFiles | internal/orchestrator/sync.go:226-292 | A failed episode listing copies nothing. Otherwise exactly the copies of the item's files are made. |
| Orchestrator.MainFileShips | internal/orchestrator/sync.go:251-291 | A part file whose mappings succeed and whose local copy exists is copied. |
| Orchestrator.TransferAll | internal/orchestrator/sync.go:135-175 | Every item is attempted. Items transferred plus items failed is the item count, and the failures are exactly the shows whose episode listing failed. The recorded copies are exactly those of the items, whatever each copy's own outcome: a path is recorded before its copy. |
| Orchestrator.Orphans | internal/orchestrator/sync.go:378-413 | Exactly the listed files that are not in the synced set. |
| Orchestrator.OrphansAreSetDifference | internal/orchestrator/sync.go:378-413 | Cleanup deletes the listing minus the synced set. |
| Orchestrator.CleanupOrphanedFiles | internal/orchestrator/sync.go:378-413 | An empty root does nothing, and a failed listing is an error. A delete is attempted exactly for each listed file that was not synced. The removal count equals the attempts exactly when every delete succeeds, and is zero exactly when every delete fails. |
| Orchestrator.CountPassed | internal/orchestrator/sync.go:395-405 | The count is all of the files exactly when every delete succeeds, and zero exactly when every delete fails. |
| Orchestrator.CountPassedAppend | internal/orchestrator/sync.go:395-405 | The count over two runs of deletes is the sum of their counts. |
| Orchestrator.CountPassedOne | internal/orchestrator/sync.go:398-404 | One file counts exactly when its delete succeeds. |
| Orchestrator.CleanupExample | internal/orchestrator/sync.go:378-413 | With a.mkv synced and a.mkv and b.mkv listed, only b.mkv is deleted. |
| Orchestrator.CountMatch | internal/orchestrator/sync.go:416-485 | An empty destination key is an error. A pair that needs a sync is a success, without any write, and the rest are skipped. |
| Orchestrator.SyncAllMetadata | internal/orchestrator/sync.go:416-485 | Successes, errors and skips add up to the number of matches. |
| Orchestrator.SyncAllMetadataAppend | internal/orchestrator/sync.go:416-485 | The tally of two lists of matches is the sum of their tallies. |
| Orchestrator.IdenticalPairsSkipped | internal/orchestrator/sync.go:416-485 | A pair of identical movies or shows is skipped. |
| Orchestrator.IsSshConfigured | internal/orchestrator/sync.go:877-897 | SSH counts as configured exactly when a user and a password are set and neither is its placeholder value. |
| Orchestrator.MetadataOnlyWithoutSsh | internal/orchestrator/sync.go:59-70 | With the transferrer present exactly when SSH is configured, a cycle without usable credentials copies, cleans and refreshes nothing. With them, a cycle that discovers items copies them. |
| Orchestrator.SshCheckStricterThanValidation | internal/orchestrator/sync.go:877-897 | The orchestrator's SSH check implies the validator's. |
| Orchestrator.RunSyncCycle | internal/orchestrator/sync.go:103-223 | An unreachable destination fails before discovery. A failed discovery, refresh or matching is fatal. Nothing discovered ends the cycle successfully. Transfer, cleanup and refresh run together, only with a transferrer and items. A cleanup error only warns. |
| Orchestrator.SyncedNeverDeleted | internal/orchestrator/sync.go:135-182 | No file recorded as synced in a cycle is deleted by that cycle's cleanup. |
| Orchestrator.CleanupNeverFatal | internal/orchestrator/sync.go:178-182 | The cleanup's outcome never decides the cycle. |
| Orchestrator.FailedShowFilesAreOrphans | internal/orchestrator/sync.go:378-413 | A show whose episode listing fails records no files, so cleanup deletes its existing destination files. |

## Left out

- Network and process I/O:
  - HTTP requests, status codes and XML/JSON bodies are not modelled.
  - SSH sessions, the SFTP byte copy and the rsync subprocess are not modelled.
  - Every remote answer is an oracle parameter.
- `GetWatchedState` in internal/plex/client.go is a stub that answers zeros. The watch-state reads are therefore an abstract oracle.
- `RunContinuous` (the ticker loop) and `HandleForceFullSync` are left out. They only schedule cycles.
- `TransferFilesParallel` runs transfers concurrently in goroutines, and concurrency is outside the model.
- `IsRsyncAvailable` and `testRsyncExecution` probe PATH and the file system. Their answer is the boolean argument of `Transfer.GetOptimalTransferMethod`.
- `createIncludeFile` writes a temporary file. It is an oracle that returns the file name or an error.
- `ForceTransferMethod` only logs and forwards to `NewTransferrer`.
- `CopyDirectory` is left out, because no modelled operation calls it.
- Dead code is left out:
  - `TransferItemFiles`, `calculateDestPath` and `generatePlaceholderFilePaths` in scp.go;
  - the commented-out metadata writes in the orchestrator;
  - `SyncMetadata`, `syncMovieMetadata`, `syncTVShowMetadata` and `SyncBulkMetadata` in the metadata syncer, which the orchestrator does not call.
- The orchestrator calls the path mappings through the transferrer interface, which does not declare them. Its mappings are therefore oracles in `Orchestrator.Files`.
- In the cycle, the refresh outcome and the matching function are inputs of `Orchestrator.World`. They are modelled separately in `LibraryManager` and `Matcher`.
- `LoadConfig` and its environment parsing helpers are left out, and so is cmd/syncarr/main.go.
- Logging and the wording of most error messages are left out. An error carries a string, and only the prefixes that other code tests are fixed.
- Ratings are exact `real` numbers, not IEEE doubles. Truncation toward zero is modelled explicitly.
- Differ.RatingTolerance: it holds in exact arithmetic. Binary rounding of the tenths is not modelled.
- PlexClient.SetUserRating: `%.0f` is modelled as round-half-to-even on the exact value.
- The JSON decoders work on a parsed JSON value, not on bytes. Integer keys outside the 64-bit range are rejected. Percent-encoding of query values is not modelled.
- `Paths` models `filepath` for a Unix host only, with "/" as the separator and no volume names.
- Rsync.SshCommand: it quotes the password the way ssh.go quotes paths, which is the corrected form from Findings. Its contract does not itself describe the password word; `Rsync.PasswordWordRecovered` states that the word reads back as the password. The form the source writes is `Rsync.SshCommandAsWritten`, and the two agree for passwords without a single quote (`Rsync.SshCommandAgrees`).
- Rsync.BuildRsyncArgsLayout: the "-e" argument is the corrected `Rsync.SshCommand`. It is the source's argument only for passwords without a single quote.
- Rsync.BatchArgs: the "-e" argument is the corrected `Rsync.SshCommand`. It is the source's argument only for passwords without a single quote.
- Ssh.GetFileSize: the size is stated to be in range and to come from a successful command. The full parse is stated only for a printed size followed by a newline (`Ssh.FileSizeOfPrintedSize`).

## Findings

| source | as written | input that shows it | evidently intended | confidence | as-written member | corrected member |
|---|---|---|---|---|---|---|
| internal/transfer/rsync.go:137 | The password is put between single quotes without escaping, inside the `-e` value. No shell runs; rsync itself splits that value into words, honouring single and double quotes. | The password `x'y` becomes the word `'x'y'`. The password's quote ends the quoted part early, so the word is not read back as `x'y`. | Quote the password the way ssh.go quotes paths, so the word reads back as exactly the password, whatever quotes it contains. | not executed | Rsync.PasswordWordMisread | Rsync.PasswordWordRecovered |
