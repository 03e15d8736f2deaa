/** One synchronisation cycle of the orchestrator: probe the destination,
    discover the labelled source items, copy their files (main files and
    their companions) while recording every destination path, delete the
    destination files not recorded, refresh the destination libraries,
    match items by file name and count the matched pairs whose metadata
    differs. Every remote and file-system call is an oracle. */
module Orchestrator {
  import opened Wrappers
  import opened Strs
  import opened Paths
  import opened Catalog
  import Config
  import Differ

  // ---- companion files ---------------------------------------------------------

  /** One entry of a local directory listing. */
  datatype Entry = Entry(name: string, isDir: bool)

  /** The source host as the transfer phase sees it: the two path mappings,
      whether a local file is missing, and local directory listings. */
  datatype Files = Files(
    toLocal: string -> Result<string>,
    toDest: string -> Result<string>,
    missing: string -> bool,
    readDir: string -> Result<seq<Entry>>)

  /** The file name up to its first dot, when it has one. */
  function Stem(filename: string): Option<string> {
    var dot := IndexOf(filename, '.');
    if dot < 0 then None else Some(filename[..dot])
  }

  /** A directory entry that accompanies the file `filename`: a plain file
      named like it up to the first dot, then a dot, but not the file
      itself. */
  predicate Companion(filename: string, e: Entry) {
    Stem(filename).Some? && !e.isDir && HasPrefix(e.name, Stem(filename).value + ".") && e.name != filename
  }

  /** The companions among `entries`, in listing order, as paths in `dir`. */
  function Companions(dir: string, filename: string, entries: seq<Entry>): (r: seq<string>)
    ensures |r| <= |entries|
    ensures forall p :: p in r <==> exists i :: 0 <= i < |entries| && Companion(filename, entries[i]) && p == Join(dir, entries[i].name)
  {
    if |entries| == 0 then []
    else
      var rest := Companions(dir, filename, entries[1..]);
      assert forall j :: 0 <= j < |entries| - 1 ==> entries[1..][j] == entries[j + 1];
      if Companion(filename, entries[0]) then [Join(dir, entries[0].name)] + rest else rest
  }

  /** The companions of a listing are those of its first part followed by
      those of the rest, so they keep the listing's order. */
  lemma {:induction false} CompanionsAppend(dir: string, filename: string, a: seq<Entry>, b: seq<Entry>)
    ensures Companions(dir, filename, a + b) == Companions(dir, filename, a) + Companions(dir, filename, b)
    decreases |a|
  {
    if |a| == 0 {
      assert a + b == b;
    } else {
      assert (a + b)[0] == a[0];
      assert (a + b)[1..] == a[1..] + b;
      CompanionsAppend(dir, filename, a[1..], b);
    }
  }

  /** The listing findRelatedFiles reads for `main`, if it gets that far. */
  function Listing(files: Files, main: string): Option<seq<Entry>> {
    if Stem(Base(main)).None? then None
    else match files.toLocal(Dir(main))
      case Err(_) => None
      case Ok(localDir) =>
        match files.readDir(localDir)
        case Err(_) => None
        case Ok(entries) => Some(entries)
  }

  /** findRelatedFiles: the main file first, then its companions; a name
      without a dot, an unmappable directory or an unreadable one gives the
      main file alone. */
  function FindRelatedFiles(files: Files, main: string): (r: seq<string>)
    ensures |r| >= 1 && r[0] == main
    ensures Listing(files, main).None? ==> r == [main]
    ensures Listing(files, main).Some? ==> forall p :: p in r[1..] <==>
              exists e :: e in Listing(files, main).value && Companion(Base(main), e) && p == Join(Dir(main), e.name)
  {
    match Listing(files, main)
    case None => [main]
    case Some(entries) =>
      var c := Companions(Dir(main), Base(main), entries);
      assert ([main] + c)[1..] == c;
      [main] + c
  }

  /** A companion lies in the main file's directory, shares its stem and
      is not the main file, whenever the directory is a plain absolute
      path and listed names are plain elements. */
  lemma CompanionShape(main: string, e: Entry)
    requires PlainDir(Dir(main)) && Segment(e.name) && Companion(Base(main), e)
    ensures Dir(Join(Dir(main), e.name)) == Dir(main)
    ensures Base(Join(Dir(main), e.name)) == e.name != Base(main)
    ensures HasPrefix(Base(Join(Dir(main), e.name)), Stem(Base(main)).value + ".")
  {
    DirBaseOfJoin(Dir(main), e.name);
  }

  /** `p` is the main file or a companion of one of the files `mains`. */
  predicate RelatedTo(files: Files, mains: seq<string>, p: string) {
    exists m :: m in mains && p in FindRelatedFiles(files, m)
  }

  lemma RelatedToCons(files: Files, mains: seq<string>, p: string)
    requires |mains| > 0
    ensures RelatedTo(files, mains, p) <==> p in FindRelatedFiles(files, mains[0]) || RelatedTo(files, mains[1..], p)
  {
    if RelatedTo(files, mains, p) && p !in FindRelatedFiles(files, mains[0]) {
      var m :| m in mains && p in FindRelatedFiles(files, m);
      assert m in mains[1..];
    }
    if RelatedTo(files, mains[1..], p) {
      var m :| m in mains[1..] && p in FindRelatedFiles(files, m);
      assert m in mains;
    }
  }

  /** The main files of an item with their companions, in order. */
  function RelatedAll(files: Files, mains: seq<string>): (r: seq<string>)
    ensures forall m :: m in mains ==> m in r
    ensures |r| >= |mains|
  {
    if |mains| == 0 then []
    else
      var first := FindRelatedFiles(files, mains[0]);
      var rest := RelatedAll(files, mains[1..]);
      assert first[0] in first;
      assert forall m :: m in mains ==> m == mains[0] || m in mains[1..];
      first + rest
  }

  /** RelatedAll holds nothing but the related files of the main files. */
  lemma {:induction false} RelatedAllMembers(files: Files, mains: seq<string>, p: string)
    ensures p in RelatedAll(files, mains) <==> RelatedTo(files, mains, p)
    decreases |mains|
  {
    if |mains| > 0 {
      RelatedAllMembers(files, mains[1..], p);
      RelatedToCons(files, mains, p);
    }
  }

  /** The episodes of a show, by its rating key. */
  type Episodes = string -> Result<seq<Item>>

  /** `p` is a part file of the episode or a companion of one. */
  predicate EpisodeHas(files: Files, e: Item, p: string) {
    RelatedTo(files, PartFiles(e.media), p)
  }

  /** `p` is a related file of a part file of one of the episodes. */
  predicate EpisodeRelated(files: Files, eps: seq<Item>, p: string) {
    exists k :: 0 <= k < |eps| && EpisodeHas(files, eps[k], p)
  }

  lemma EpisodeRelatedCons(files: Files, eps: seq<Item>, p: string)
    requires |eps| > 0
    ensures EpisodeRelated(files, eps, p) <==> EpisodeHas(files, eps[0], p) || EpisodeRelated(files, eps[1..], p)
  {
    if EpisodeRelated(files, eps, p) && !EpisodeHas(files, eps[0], p) {
      var k :| 0 <= k < |eps| && EpisodeHas(files, eps[k], p);
      assert eps[1..][k - 1] == eps[k];
    }
    if EpisodeRelated(files, eps[1..], p) {
      var k :| 0 <= k < |eps[1..]| && EpisodeHas(files, eps[1..][k], p);
      assert eps[1..][k] == eps[k + 1];
    }
  }

  /** The related files of every episode's part files, episode by episode. */
  function EpisodeFiles(files: Files, eps: seq<Item>): (r: seq<string>)
    ensures forall k :: 0 <= k < |eps| ==> forall m :: m in PartFiles(eps[k].media) ==> m in r
  {
    if |eps| == 0 then []
    else
      var rest := EpisodeFiles(files, eps[1..]);
      assert forall k :: 0 < k < |eps| ==> eps[k] == eps[1..][k - 1];
      RelatedAll(files, PartFiles(eps[0].media)) + rest
  }

  /** EpisodeFiles holds nothing but files related to an episode's part
      files. */
  lemma {:induction false} EpisodeFilesMembers(files: Files, eps: seq<Item>, p: string)
    ensures p in EpisodeFiles(files, eps) <==> EpisodeRelated(files, eps, p)
    decreases |eps|
  {
    if |eps| > 0 {
      EpisodeFilesMembers(files, eps[1..], p);
      RelatedAllMembers(files, PartFiles(eps[0].media), p);
      EpisodeRelatedCons(files, eps, p);
    }
  }

  /** The source paths of one item: its own part files for a movie or an
      episode, every episode's part files for a show. */
  function ItemPaths(files: Files, episodes: Episodes, item: Item): (r: Result<seq<string>>)
    ensures r.Err? <==> item.Show? && episodes(item.key).Err?
    ensures r.Ok? && !item.Show? ==> forall m :: m in PartFiles(item.media) ==> m in r.value
    ensures r.Ok? && item.Show? ==> forall k :: 0 <= k < |episodes(item.key).value| ==>
              forall m :: m in PartFiles(episodes(item.key).value[k].media) ==> m in r.value
  {
    if item.Show? then
      match episodes(item.key)
      case Err(e) => Err("failed to get episodes for TV show " + item.title + ": " + e)
      case Ok(eps) => Ok(EpisodeFiles(files, eps))
    else Ok(RelatedAll(files, PartFiles(item.media)))
  }

  /** Every path of an item is a part file, of the item or of one of its
      episodes, or a companion of one. */
  lemma ItemPathsMembers(files: Files, episodes: Episodes, item: Item, p: string)
    requires ItemPaths(files, episodes, item).Ok?
    ensures !item.Show? ==> (p in ItemPaths(files, episodes, item).value <==> RelatedTo(files, PartFiles(item.media), p))
    ensures item.Show? ==>
              (p in ItemPaths(files, episodes, item).value <==> EpisodeRelated(files, episodes(item.key).value, p))
  {
    if item.Show? {
      EpisodeFilesMembers(files, episodes(item.key).value, p);
    } else {
      RelatedAllMembers(files, PartFiles(item.media), p);
    }
  }

  // ---- recording and copying -------------------------------------------------

  /** One TransferFile call. */
  datatype Copy = Copy(local: string, dest: string)

  /** A source path is copied as `c` when it is non-empty, maps to a local
      file that is not missing, and that maps to a destination path. */
  predicate Ships(files: Files, p: string, c: Copy) {
    p != "" && files.toLocal(p) == Ok(c.local) && !files.missing(c.local) && files.toDest(c.local) == Ok(c.dest)
  }

  /** The copies of a path list, in order; a path failing any step is
      skipped without error. */
  function CopiesOf(files: Files, paths: seq<string>): (r: seq<Copy>)
    ensures |r| <= |paths|
    ensures forall c :: c in r <==> exists i :: 0 <= i < |paths| && Ships(files, paths[i], c)
  {
    if |paths| == 0 then []
    else
      var rest := CopiesOf(files, paths[1..]);
      assert forall j :: 0 <= j < |paths| - 1 ==> paths[1..][j] == paths[j + 1];
      var p := paths[0];
      if p == "" then rest
      else match files.toLocal(p)
        case Err(_) => rest
        case Ok(local) =>
          if files.missing(local) then rest
          else match files.toDest(local)
            case Err(_) => rest
            case Ok(dest) => [Copy(local, dest)] + rest
  }

  /** What transferEnhancedItemFiles did for one item. */
  datatype ItemTransfer = ItemTransfer(result: Outcome<string>, copies: seq<Copy>)

  /** transferEnhancedItemFiles: only a failed episode list is an error;
      a copy's own outcome never is, and its destination path is recorded
      before it is attempted. */
  function TransferItemFiles(files: Files, episodes: Episodes, item: Item): (r: ItemTransfer)
    ensures r.result.Fail? <==> item.Show? && episodes(item.key).Err?
    ensures r.result.Fail? ==> r.copies == []
    ensures r.result.Pass? ==> r.copies == CopiesOf(files, ItemPaths(files, episodes, item).value)
  {
    match ItemPaths(files, episodes, item)
    case Err(e) => ItemTransfer(Fail(e), [])
    case Ok(paths) => ItemTransfer(Pass, CopiesOf(files, paths))
  }

  /** The part file of a movie is copied whenever its mappings succeed and
      the local file is there. */
  lemma MainFileShips(files: Files, episodes: Episodes, item: Item, p: string, c: Copy)
    requires !item.Show? && p in PartFiles(item.media) && Ships(files, p, c)
    ensures c in TransferItemFiles(files, episodes, item).copies
  {
    var paths := ItemPaths(files, episodes, item).value;
    var i :| 0 <= i < |paths| && paths[i] == p;
  }

  /** What the transfer phase did over all items. */
  datatype TransferPhase = TransferPhase(copies: seq<Copy>, transferred: nat, errors: nat)

  /** The destination paths the phase recorded as synced. */
  function Synced(t: TransferPhase): set<string> {
    set c | c in t.copies :: c.dest
  }

  function FailedItems(files: Files, episodes: Episodes, items: seq<EnhancedItem>): nat {
    if |items| == 0 then 0
    else (if items[0].item.Show? && episodes(items[0].item.key).Err? then 1 else 0) + FailedItems(files, episodes, items[1..])
  }

  /** Some item's transfer records the copy. */
  predicate CopiedFrom(files: Files, episodes: Episodes, items: seq<EnhancedItem>, c: Copy) {
    exists i :: 0 <= i < |items| && c in TransferItemFiles(files, episodes, items[i].item).copies
  }

  /** A copy comes from the first item or from one of the rest. */
  lemma CopiedFromCons(files: Files, episodes: Episodes, items: seq<EnhancedItem>, c: Copy)
    requires |items| > 0
    ensures CopiedFrom(files, episodes, items, c) <==>
              c in TransferItemFiles(files, episodes, items[0].item).copies || CopiedFrom(files, episodes, items[1..], c)
  {
    if CopiedFrom(files, episodes, items, c) && c !in TransferItemFiles(files, episodes, items[0].item).copies {
      var i :| 0 <= i < |items| && c in TransferItemFiles(files, episodes, items[i].item).copies;
      assert items[1..][i - 1] == items[i];
    }
    if CopiedFrom(files, episodes, items[1..], c) {
      var i :| 0 <= i < |items[1..]| && c in TransferItemFiles(files, episodes, items[1..][i].item).copies;
      assert items[1..][i] == items[i + 1];
    }
  }

  /** The transfer phase: every item is attempted; a failed item counts as
      an error and records nothing. */
  function TransferAll(files: Files, episodes: Episodes, items: seq<EnhancedItem>): (r: TransferPhase)
    ensures r.transferred + r.errors == |items|
    ensures r.errors == FailedItems(files, episodes, items)
    ensures forall c :: c in r.copies <==> CopiedFrom(files, episodes, items, c)
  {
    if |items| == 0 then TransferPhase([], 0, 0)
    else
      var t := TransferItemFiles(files, episodes, items[0].item);
      var rest := TransferAll(files, episodes, items[1..]);
      forall c ensures CopiedFrom(files, episodes, items, c) <==> c in t.copies || CopiedFrom(files, episodes, items[1..], c) {
        CopiedFromCons(files, episodes, items, c);
      }
      if t.result.Pass? then TransferPhase(t.copies + rest.copies, rest.transferred + 1, rest.errors)
      else TransferPhase(rest.copies, rest.transferred, rest.errors + 1)
  }

  // ---- orphan cleanup -----------------------------------------------------------

  /** The listed files that were not recorded, in listing order. */
  function Orphans(listing: seq<string>, synced: set<string>): (r: seq<string>)
    ensures |r| <= |listing|
    ensures forall f :: f in r <==> f in listing && f !in synced
  {
    if |listing| == 0 then []
    else
      var rest := Orphans(listing[1..], synced);
      assert forall f :: f in listing <==> f == listing[0] || f in listing[1..];
      if listing[0] !in synced then [listing[0]] + rest else rest
  }

  /** Cleanup deletes exactly the set difference of the listing and the
      recorded paths. */
  lemma OrphansAreSetDifference(listing: seq<string>, synced: set<string>)
    ensures (set f | f in Orphans(listing, synced)) == (set f | f in listing) - synced
  {
  }

  /** The number of files whose deletion succeeds: all of them exactly
      when every deletion succeeds, none exactly when every one fails. */
  function CountPassed(files: seq<string>, delete: string -> Outcome<string>): (r: nat)
    ensures r <= |files|
    ensures r == |files| <==> forall i :: 0 <= i < |files| ==> delete(files[i]).Pass?
    ensures r == 0 <==> forall i :: 0 <= i < |files| ==> delete(files[i]).Fail?
  {
    if |files| == 0 then 0
    else
      assert forall j :: 0 <= j < |files| - 1 ==> files[1..][j] == files[j + 1];
      (if delete(files[0]).Pass? then 1 else 0) + CountPassed(files[1..], delete)
  }

  /** One file counts exactly when its deletion succeeds. */
  lemma CountPassedOne(f: string, delete: string -> Outcome<string>)
    ensures CountPassed([f], delete) == if delete(f).Pass? then 1 else 0
  {
  }

  /** The count over two runs of deletions is the sum of their counts. */
  lemma {:induction false} CountPassedAppend(a: seq<string>, b: seq<string>, delete: string -> Outcome<string>)
    ensures CountPassed(a + b, delete) == CountPassed(a, delete) + CountPassed(b, delete)
    decreases |a|
  {
    if |a| == 0 {
      assert a + b == b;
    } else {
      assert (a + b)[0] == a[0];
      assert (a + b)[1..] == a[1..] + b;
      CountPassedAppend(a[1..], b, delete);
    }
  }

  /** What cleanupOrphanedFiles did. */
  datatype CleanupRun = CleanupRun(result: Outcome<string>, attempts: seq<string>, removed: nat)

  /** cleanupOrphanedFiles: nothing without a destination root; a failed
      listing is an error; otherwise every orphan is deleted, and a failed
      deletion is passed over. */
  function CleanupOrphanedFiles(destRoot: string, list: string -> Result<seq<string>>, synced: set<string>,
                                delete: string -> Outcome<string>): (r: CleanupRun)
    ensures destRoot == "" ==> r == CleanupRun(Pass, [], 0)
    ensures destRoot != "" && list(destRoot).Err? ==> r.result.Fail? && r.attempts == []
    ensures destRoot != "" && list(destRoot).Ok? ==>
              r.result.Pass? && forall f :: f in r.attempts <==> f in list(destRoot).value && f !in synced
    ensures forall f :: f in r.attempts ==> f !in synced
    ensures r.removed <= |r.attempts|
    // a failed deletion is passed over and not counted as removed
    ensures r.removed == |r.attempts| <==> forall f :: f in r.attempts ==> delete(f).Pass?
    ensures r.removed == 0 <==> forall f :: f in r.attempts ==> delete(f).Fail?
  {
    if destRoot == "" then CleanupRun(Pass, [], 0)
    else match list(destRoot)
      case Err(e) => CleanupRun(Fail("failed to list destination directory contents: " + e), [], 0)
      case Ok(listing) =>
        var orphans := Orphans(listing, synced);
        CleanupRun(Pass, orphans, CountPassed(orphans, delete))
  }

  /** An example: of two listed files, the recorded one is kept. */
  lemma CleanupExample(delete: string -> Outcome<string>)
    ensures CleanupOrphanedFiles("/d", (root: string) => Ok(["/d/a.mkv", "/d/b.mkv"]), {"/d/a.mkv"}, delete).attempts == ["/d/b.mkv"]
  {
    assert "/d/a.mkv" != "/d/b.mkv";
    assert ["/d/a.mkv", "/d/b.mkv"][1..] == ["/d/b.mkv"];
  }

  // ---- metadata phase ---------------------------------------------------------

  /** The counts syncAllMetadata returns. */
  datatype Tally = Tally(success: nat, errors: nat, skipped: nat)

  function Total(t: Tally): nat {
    t.success + t.errors + t.skipped
  }

  /** How one match is counted: a missing destination key is an error, a
      differing pair a success, an equal pair skipped. */
  function CountMatch(m: ItemMatch): (r: Tally)
    ensures Total(r) == 1
    ensures r.errors == 1 <==> m.dest.item.key == ""
    ensures r.success == 1 <==> m.dest.item.key != "" && Differ.NeedsSync(m.source, m.dest)
  {
    if m.dest.item.key == "" then Tally(0, 1, 0)
    else if Differ.NeedsSync(m.source, m.dest) then Tally(1, 0, 0)
    else Tally(0, 0, 1)
  }

  function Add(a: Tally, b: Tally): Tally {
    Tally(a.success + b.success, a.errors + b.errors, a.skipped + b.skipped)
  }

  /** The counts of a match list under a per-match count, summed in
      order. */
  function TallyAll(count: ItemMatch -> Tally, matches: seq<ItemMatch>): Tally {
    if |matches| == 0 then Tally(0, 0, 0)
    else Add(count(matches[0]), TallyAll(count, matches[1..]))
  }

  lemma {:induction false} TallyAllTotal(count: ItemMatch -> Tally, matches: seq<ItemMatch>)
    requires forall m :: m in matches ==> Total(count(m)) == 1
    ensures Total(TallyAll(count, matches)) == |matches|
    decreases |matches|
  {
    if |matches| > 0 {
      assert forall m :: m in matches[1..] ==> m in matches;
      TallyAllTotal(count, matches[1..]);
    }
  }

  lemma {:induction false} TallyAllAppend(count: ItemMatch -> Tally, a: seq<ItemMatch>, b: seq<ItemMatch>)
    ensures TallyAll(count, a + b) == Add(TallyAll(count, a), TallyAll(count, b))
    decreases |a|
  {
    if |a| == 0 {
      assert a + b == b;
    } else {
      assert (a + b)[1..] == a[1..] + b;
      TallyAllAppend(count, a[1..], b);
    }
  }

  /** syncAllMetadata: every match falls in exactly one count. No write is
      made: the write call is commented out in the source. */
  function SyncAllMetadata(matches: seq<ItemMatch>): (r: Tally)
    ensures Total(r) == |matches|
  {
    TallyAllTotal(CountMatch, matches);
    TallyAll(CountMatch, matches)
  }

  /** The counts of a list are the sums of the counts of its parts. */
  lemma SyncAllMetadataAppend(a: seq<ItemMatch>, b: seq<ItemMatch>)
    ensures SyncAllMetadata(a + b) == Add(SyncAllMetadata(a), SyncAllMetadata(b))
  {
    TallyAllAppend(CountMatch, a, b);
  }

  /** Matches whose movie or show already agrees with its copy are all
      skipped. */
  lemma {:induction false} IdenticalPairsSkipped(matches: seq<ItemMatch>)
    requires forall m :: m in matches ==> m.dest.item.key != "" && !m.source.item.Episode? && m.source.item == m.dest.item
    ensures SyncAllMetadata(matches) == Tally(0, 0, |matches|)
    decreases |matches|
  {
    if |matches| > 0 {
      Differ.NeedsSyncMeaning(matches[0].source, matches[0].dest);
      assert forall m :: m in matches[1..] ==> m in matches;
      IdenticalPairsSkipped(matches[1..]);
      assert TallyAll(CountMatch, matches) == Add(CountMatch(matches[0]), TallyAll(CountMatch, matches[1..]));
    }
  }

  // ---- SSH setting check ------------------------------------------------------

  /** isSSHConfigured: user and password set, and neither the sample
      placeholder. */
  function IsSshConfigured(ssh: Config.SshSettings): (r: bool)
    ensures r ==> ssh.user != "" && ssh.password != ""
    ensures ssh.user == "your-ssh-username" || ssh.password == "your-ssh-password" ==> !r
    ensures ssh.user != "" && ssh.password != "" && ssh.user != "your-ssh-username" && ssh.password != "your-ssh-password" ==> r
  {
    ssh.user != "" && ssh.password != "" && ssh.user != "your-ssh-username" && ssh.password != "your-ssh-password"
  }

  /** The orchestrator's check is stricter than the validator's notion of a
      configured SSH login: placeholders pass validation but disable
      transfers. */
  lemma SshCheckStricterThanValidation(c: Config.Config)
    ensures IsSshConfigured(c.ssh) ==> Config.SshConfigured(c)
    ensures c.ssh.user == "your-ssh-username" && c.ssh.password != "" ==> Config.SshConfigured(c) && !IsSshConfigured(c.ssh)
  {
  }

  // ---- the cycle ------------------------------------------------------------------

  /** The orchestrator has a transferrer exactly when the SSH settings pass
      isSSHConfigured: a failing NewTransferrer stops construction, so no
      cycle runs with the check passed but no transferrer. */
  predicate TransferrerFrom(hasTransferrer: bool, ssh: Config.SshSettings) {
    hasTransferrer == IsSshConfigured(ssh)
  }

  datatype Phase = Probe | Discover | Transfer | Cleanup | Refresh | Match | MetadataPhase

  /** Everything a cycle observes. `refresh` is the outcome of the library
      refresh and `matching` the matcher's answer for the discovered items. */
  datatype World = World(
    reachable: Outcome<string>,
    discovered: Result<seq<EnhancedItem>>,
    hasTransferrer: bool,
    files: Files,
    episodes: Episodes,
    destRoot: string,
    list: string -> Result<seq<string>>,
    delete: string -> Outcome<string>,
    refresh: Outcome<string>,
    matching: seq<EnhancedItem> -> Result<seq<ItemMatch>>)

  /** What one cycle did. */
  datatype Cycle = Cycle(result: Outcome<string>, phases: seq<Phase>, transfer: Option<TransferPhase>,
                         cleanup: Option<CleanupRun>, tally: Option<Tally>)

  /** The phases run after discovery: the copy, cleanup and refresh phases
      when there is a transferrer, then matching, then the metadata phase. */
  function LaterPhases(transferred: bool, matched: bool, synced: bool): seq<Phase> {
    (if transferred then [Transfer, Cleanup, Refresh] else []) + (if matched then [Match] else [])
    + (if synced then [MetadataPhase] else [])
  }

  lemma LaterPhasesMembers(transferred: bool, matched: bool, synced: bool)
    ensures var ps := LaterPhases(transferred, matched, synced);
            Probe !in ps && Discover !in ps
            && (Transfer in ps <==> transferred) && (Cleanup in ps <==> transferred) && (Refresh in ps <==> transferred)
            && (MetadataPhase in ps <==> synced)
  {
  }

  /** Matching and the metadata phase, after the phases already run. */
  function MatchAndSync(w: World, items: seq<EnhancedItem>, transferred: bool, transfer: Option<TransferPhase>,
                        cleanup: Option<CleanupRun>): (c: Cycle)
    ensures c.phases == LaterPhases(transferred, true, c.tally.Some?)
    ensures c.transfer == transfer && c.cleanup == cleanup
    ensures c.result.Pass? <==> w.matching(items).Ok?
    ensures c.tally.Some? <==> w.matching(items).Ok? && w.matching(items).value != []
    ensures c.tally.Some? ==>
              (c.tally.value == SyncAllMetadata(w.matching(items).value)
               && Total(c.tally.value) == |w.matching(items).value| > 0)
  {
    match w.matching(items)
    case Err(e) => Cycle(Fail("content matching failed: " + e), LaterPhases(transferred, true, false), transfer, cleanup, None)
    case Ok(matches) =>
      if |matches| == 0 then Cycle(Pass, LaterPhases(transferred, true, false), transfer, cleanup, None)
      else Cycle(Pass, LaterPhases(transferred, true, true), transfer, cleanup, Some(SyncAllMetadata(matches)))
  }

  /** The phases after discovery, for a non-empty item list. */
  function AfterDiscovery(w: World, items: seq<EnhancedItem>): (c: Cycle)
    ensures c.transfer.Some? <==> w.hasTransferrer
    ensures c.cleanup.Some? <==> w.hasTransferrer
    ensures c.transfer.Some? ==> c.transfer.value == TransferAll(w.files, w.episodes, items)
    ensures c.cleanup.Some? ==>
              c.cleanup.value == CleanupOrphanedFiles(w.destRoot, w.list, Synced(c.transfer.value), w.delete)
    ensures c.phases == LaterPhases(w.hasTransferrer, !(w.hasTransferrer && w.refresh.Fail?), c.tally.Some?)
    ensures c.result.Pass? <==> (!w.hasTransferrer || w.refresh.Pass?) && w.matching(items).Ok?
    ensures c.tally.Some? ==>
              (w.matching(items).Ok? && c.tally.value == SyncAllMetadata(w.matching(items).value)
               && Total(c.tally.value) == |w.matching(items).value| > 0)
  {
    if w.hasTransferrer then
      var t := TransferAll(w.files, w.episodes, items);
      var cleanup := CleanupOrphanedFiles(w.destRoot, w.list, Synced(t), w.delete);
      if w.refresh.Fail? then
        Cycle(Fail("library refresh failed: " + w.refresh.error), LaterPhases(true, false, false), Some(t), Some(cleanup), None)
      else MatchAndSync(w, items, true, Some(t), Some(cleanup))
    else MatchAndSync(w, items, false, None, None)
  }

  /** RunSyncCycle. */
  function RunSyncCycle(w: World): (c: Cycle)
    // an unreachable destination stops the cycle before discovery
    ensures w.reachable.Fail? ==> c.result.Fail? && c.phases == [Probe]
    ensures w.reachable.Pass? && w.discovered.Err? ==> c.result.Fail? && c.phases == [Probe, Discover]
    ensures w.reachable.Pass? && w.discovered == Ok([]) ==> c.result.Pass? && c.phases == [Probe, Discover]
    // files are copied, orphans cleaned and libraries refreshed only with a transferrer
    ensures Transfer in c.phases <==> Cleanup in c.phases
    ensures Cleanup in c.phases <==> Refresh in c.phases
    ensures Transfer in c.phases <==> w.reachable.Pass? && w.discovered.Ok? && w.discovered.value != [] && w.hasTransferrer
    ensures c.cleanup.Some? <==> Cleanup in c.phases
    // the fatal failures, and nothing else
    ensures c.result.Pass? <==>
              w.reachable.Pass? && w.discovered.Ok? &&
              (w.discovered.value == [] ||
               ((!w.hasTransferrer || w.refresh.Pass?) && w.matching(w.discovered.value).Ok?))
    ensures MetadataPhase in c.phases <==> c.tally.Some?
    ensures c.tally.Some? ==>
              (w.matching(w.discovered.value).Ok?
               && c.tally.value == SyncAllMetadata(w.matching(w.discovered.value).value)
               && Total(c.tally.value) == |w.matching(w.discovered.value).value| > 0)
  {
    if w.reachable.Fail? then Cycle(Fail("destination server unavailable: " + w.reachable.error), [Probe], None, None, None)
    else match w.discovered
      case Err(e) => Cycle(Fail("content discovery failed: " + e), [Probe, Discover], None, None, None)
      case Ok(items) =>
        if |items| == 0 then Cycle(Pass, [Probe, Discover], None, None, None)
        else
          var rest := AfterDiscovery(w, items);
          LaterPhasesMembers(w.hasTransferrer, !(w.hasTransferrer && w.refresh.Fail?), rest.tally.Some?);
          Cycle(rest.result, [Probe, Discover] + rest.phases, rest.transfer, rest.cleanup, rest.tally)
  }

  /** Without usable SSH credentials the cycle is metadata-only: nothing is
      copied, cleaned or refreshed; with them, a cycle that gets past
      discovery with items copies them. */
  lemma MetadataOnlyWithoutSsh(w: World, ssh: Config.SshSettings)
    requires TransferrerFrom(w.hasTransferrer, ssh)
    ensures !IsSshConfigured(ssh) ==> Transfer !in RunSyncCycle(w).phases && RunSyncCycle(w).cleanup.None?
    ensures IsSshConfigured(ssh) && w.reachable.Pass? && w.discovered.Ok? && w.discovered.value != [] ==>
              Transfer in RunSyncCycle(w).phases
  {
  }

  /** A recorded destination path is never deleted by the cleanup of the
      same cycle, whether or not its copy succeeded. */
  lemma SyncedNeverDeleted(w: World)
    ensures var c := RunSyncCycle(w);
            c.cleanup.Some? ==> c.transfer.Some? && forall f :: f in c.cleanup.value.attempts ==> f !in Synced(c.transfer.value)
  {
  }

  /** A failed cleanup never fails the cycle. */
  lemma CleanupNeverFatal(w: World, list: string -> Result<seq<string>>, delete: string -> Outcome<string>)
    ensures RunSyncCycle(w.(list := list, delete := delete)).result == RunSyncCycle(w).result
  {
  }

  /** A show whose episode list fails records nothing, so when the cleanup
      runs every listed destination file no other item recorded is deleted,
      that show's own files included. */
  lemma FailedShowFilesAreOrphans(w: World, f: string)
    requires w.reachable.Pass? && w.discovered.Ok? && w.hasTransferrer && w.destRoot != ""
    requires w.discovered.value != [] && w.list(w.destRoot).Ok? && f in w.list(w.destRoot).value
    requires forall i :: 0 <= i < |w.discovered.value| ==>
               w.discovered.value[i].item.Show? && w.episodes(w.discovered.value[i].item.key).Err?
    ensures var c := RunSyncCycle(w);
            c.cleanup.Some? && f in c.cleanup.value.attempts
  {
    AllFailedCopyNothing(w.files, w.episodes, w.discovered.value);
  }

  /** Items that all fail copy nothing. */
  lemma {:induction false} AllFailedCopyNothing(files: Files, episodes: Episodes, items: seq<EnhancedItem>)
    requires forall i :: 0 <= i < |items| ==> items[i].item.Show? && episodes(items[i].item.key).Err?
    ensures TransferAll(files, episodes, items).copies == []
    ensures TransferAll(files, episodes, items).errors == |items|
    decreases |items|
  {
    if |items| > 0 {
      assert forall j :: 0 <= j < |items| - 1 ==> items[1..][j] == items[j + 1];
      AllFailedCopyNothing(files, episodes, items[1..]);
    }
  }
}
