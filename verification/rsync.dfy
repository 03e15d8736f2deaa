/** The rsync transfer backend: the argument list of one rsync run, the
    reading of rsync's output that decides whether a file was skipped, the
    split between one-by-one and batched transfers, and the grouping of a
    batch by source directory. Running rsync and writing the include file
    are oracles. */
module Rsync {
  import opened Wrappers
  import opened Strs
  import opened Paths
  import opened Decimal
  import opened SyncTypes
  import Ssh
  import Config

  /** The fields of RsyncTransfer that shape a command line. */
  datatype Settings = Settings(
    user: string,
    host: string,
    password: string,
    port: string,
    compressionLevel: int,
    checksumSkip: bool)

  /** newRsyncTransfer: light compression and no checksum pass. */
  function NewSettings(c: Config.Config): Settings {
    Settings(c.ssh.user, c.destination.host, c.ssh.password, c.ssh.port, 1, true)
  }

  // ---- ssh command ----------------------------------------------------------

  /** A port the ssh command has to name explicitly. */
  predicate CustomPort(port: string) {
    port != "" && port != "22"
  }

  /** The ssh options: compression off and keep-alive on, the
      server-alive probes only for single-file runs, host keys not checked,
      and "-p port" at the end for a non-default port. */
  function SshOptions(port: string, keepAlive: bool): (r: seq<string>)
    ensures |r| == (if keepAlive then 10 else 6) + (if CustomPort(port) then 2 else 0)
    ensures r[..4] == ["-o", "Compression=no", "-o", "TCPKeepAlive=yes"]
    ensures keepAlive ==> r[4..8] == ["-o", "ServerAliveInterval=30", "-o", "ServerAliveCountMax=6"]
    ensures "-p" in r <==> CustomPort(port)
    ensures CustomPort(port) ==> r[|r| - 2..] == ["-p", port]
  {
    var alive := if keepAlive then ["-o", "ServerAliveInterval=30", "-o", "ServerAliveCountMax=6"] else [];
    var opts := ["-o", "Compression=no", "-o", "TCPKeepAlive=yes"] + alive + ["-o", "StrictHostKeyChecking=no"];
    assert "-p" != "-o" by { assert "-p"[1] != "-o"[1]; }
    assert "-p" !in opts;
    if CustomPort(port) then opts + ["-p", port] else opts
  }

  /** The ssh command exactly as the source formats it: the password is
      wrapped in single quotes without escaping the quotes it contains. */
  function SshCommandAsWritten(password: string, opts: seq<string>): string {
    if password != "" then "sshpass -p '" + password + "' ssh " + JoinWith(opts, " ")
    else "ssh " + JoinWith(opts, " ")
  }

  /** The ssh command with the password quoted the way every remote shell
      command quotes its paths; the rest of the model uses this one. */
  function SshCommand(password: string, opts: seq<string>): (r: string)
    ensures HasPrefix(r, "sshpass -p ") <==> password != ""
    ensures password == "" ==> r == "ssh " + JoinWith(opts, " ")
    ensures HasSuffix(r, "ssh " + JoinWith(opts, " "))
  {
    var tail := "ssh " + JoinWith(opts, " ");
    if password != "" then "sshpass -p " + Ssh.QuoteArg(password) + " " + tail
    else
      assert !HasPrefix(tail, "sshpass -p ") by {
        if |tail| >= 11 { assert tail[3] == ' ' && "sshpass -p "[3] == 'p'; }
      }
      tail
  }

  /** The password word of the corrected command reads back as the password,
      whatever quotes it contains. */
  lemma PasswordWordRecovered(password: string, opts: seq<string>)
    requires password != ""
    ensures exists w :: SshCommand(password, opts) == "sshpass -p " + w + " ssh " + JoinWith(opts, " ")
                        && Ssh.Unquote(w, Ssh.Bare) == Some(password)
  {
    var w := Ssh.QuoteArg(password);
    Ssh.QuoteArgRoundTrip(password);
    assert SshCommand(password, opts) == "sshpass -p " + w + " ssh " + JoinWith(opts, " ");
  }

  /** The password `x'y`: the command as written wraps it as `'x'y'`, in
      which the password's quote closes the quoted word early, so the shell
      does not read the password back. */
  lemma PasswordWordMisread(opts: seq<string>)
    ensures SshCommandAsWritten("x'y", opts) == "sshpass -p " + "'x'y'" + " ssh " + JoinWith(opts, " ")
    ensures Ssh.Unquote("'x'y'", Ssh.Bare) != Some("x'y")
  {
    var s := "'x'y'";
    assert s[1..][1..] == s[2..];
    assert s[2..][1..] == s[3..];
    assert Ssh.Unquote(s[3..], Ssh.Bare) == None;
    assert Ssh.Unquote(s[2..], Ssh.InSingle) == None;
    assert Ssh.Unquote(s[1..], Ssh.InSingle) == None;
  }

  /** For a quote-free password the corrected command is the one the source
      builds. */
  lemma SshCommandAgrees(password: string, opts: seq<string>)
    requires '\'' !in password
    ensures SshCommand(password, opts) == SshCommandAsWritten(password, opts)
  {
    if password != "" {
      assert Ssh.QuoteArg(password) == "'" + password + "'";
    }
  }

  // ---- single-file arguments ------------------------------------------------

  /** The rsync flags before "-e": archive, progress, partial, in-place and
      itemised changes, then the compression choices. */
  function Flags(s: Settings): seq<string> {
    var head := [if s.compressionLevel > 0 then "-avz" else "-av", "--progress", "--partial", "--inplace", "--itemize-changes"];
    var level := if s.compressionLevel > 0 then ["--compress-level=" + IntText(s.compressionLevel)] else [];
    var skip := if s.checksumSkip then ["--no-whole-file", "--no-compress"] else [];
    head + level + skip
  }

  /** A positive level keeps "-avz" and names the level; level zero or below
      drops to "-av" with no level flag; skipping checksums adds
      "--no-whole-file" and "--no-compress". */
  lemma FlagsChoices(s: Settings)
    ensures |Flags(s)| >= 5
    ensures Flags(s)[0] == (if s.compressionLevel > 0 then "-avz" else "-av")
    ensures Flags(s)[1..5] == ["--progress", "--partial", "--inplace", "--itemize-changes"]
    ensures "--compress-level=" + IntText(s.compressionLevel) in Flags(s) <==> s.compressionLevel > 0
    ensures "--no-compress" in Flags(s) <==> s.checksumSkip
    ensures "--no-whole-file" in Flags(s) <==> s.checksumSkip
  {
    var r := Flags(s);
    assert s.compressionLevel > 0 ==> r[5] == "--compress-level=" + IntText(s.compressionLevel);
    assert s.checksumSkip ==> r[|r| - 1] == "--no-compress" && r[|r| - 2] == "--no-whole-file";
  }

  /** `user@host:path`, the remote side of an rsync command. */
  function RemoteSpec(s: Settings, path: string): string {
    s.user + "@" + s.host + ":" + path
  }

  /** buildRsyncArgs: the flags, then "-e" and the ssh command, then the
      source and the remote destination. */
  function BuildRsyncArgs(s: Settings, src: string, dst: string): seq<string> {
    Flags(s) + ["-e", SshCommand(s.password, SshOptions(s.port, true)), src, RemoteSpec(s, dst)]
  }

  /** The source and `user@host:dest` are the last two arguments, "-e" and
      the ssh command come just before them, and everything earlier is the
      flag list. */
  lemma BuildRsyncArgsLayout(s: Settings, src: string, dst: string)
    ensures var r := BuildRsyncArgs(s, src, dst);
            |r| >= 9
            && r[..|r| - 4] == Flags(s)
            && r[|r| - 4] == "-e" && r[|r| - 3] == SshCommand(s.password, SshOptions(s.port, true))
            && r[|r| - 2] == src && r[|r| - 1] == RemoteSpec(s, dst)
    ensures '\'' !in s.password ==>
              BuildRsyncArgs(s, src, dst)[|BuildRsyncArgs(s, src, dst)| - 3] == SshCommandAsWritten(s.password, SshOptions(s.port, true))
  {
    if '\'' !in s.password {
      SshCommandAgrees(s.password, SshOptions(s.port, true));
    }
    FlagsChoices(s);
    var r := BuildRsyncArgs(s, src, dst);
    assert r[..|r| - 4] == Flags(s);
  }

  /** With the constructor's settings the flags ask for compression level 1
      and for no compression at once. */
  lemma DefaultFlagsConflict(c: Config.Config)
    ensures Flags(NewSettings(c))[0] == "-avz"
    ensures "--compress-level=1" in Flags(NewSettings(c))
    ensures "--no-compress" in Flags(NewSettings(c))
  {
    FlagsChoices(NewSettings(c));
    assert IntText(1) == "1";
    assert "--compress-level=" + "1" == "--compress-level=1";
  }

  // ---- reading rsync's output -----------------------------------------------

  /** An itemize line for the file: ">f" then the change flags and the name. */
  predicate ItemizeLine(line: string, name: string) {
    HasPrefix(line, ">f") && Contains(line, name)
  }

  /** A progress line for the file: its name with a rate or a percentage. */
  predicate ProgressLine(line: string, name: string) {
    Contains(line, name) && (Contains(line, "bytes/sec") || Contains(line, "%"))
  }

  datatype Evidence = Evidence(itemize: bool, progress: bool)

  /** Some trimmed line is an itemize line for the file. */
  predicate Itemized(lines: seq<string>, name: string) {
    exists i :: 0 <= i < |lines| && ItemizeLine(TrimSpace(lines[i]), name)
  }

  /** Some trimmed line is a progress line for the file. */
  predicate Progressed(lines: seq<string>, name: string) {
    exists i :: 0 <= i < |lines| && ProgressLine(TrimSpace(lines[i]), name)
  }

  /** Itemize evidence, split into the first line and the rest. */
  lemma ItemizedCons(lines: seq<string>, name: string)
    requires |lines| > 0
    ensures Itemized(lines, name) <==> ItemizeLine(TrimSpace(lines[0]), name) || Itemized(lines[1..], name)
  {
    if Itemized(lines, name) && !ItemizeLine(TrimSpace(lines[0]), name) {
      var i :| 0 <= i < |lines| && ItemizeLine(TrimSpace(lines[i]), name);
      assert lines[1..][i - 1] == lines[i];
    }
    if Itemized(lines[1..], name) {
      var i :| 0 <= i < |lines[1..]| && ItemizeLine(TrimSpace(lines[1..][i]), name);
      assert lines[1..][i] == lines[i + 1];
    }
  }

  /** Progress evidence, split into the first line and the rest. */
  lemma ProgressedCons(lines: seq<string>, name: string)
    requires |lines| > 0
    ensures Progressed(lines, name) <==> ProgressLine(TrimSpace(lines[0]), name) || Progressed(lines[1..], name)
  {
    if Progressed(lines, name) && !ProgressLine(TrimSpace(lines[0]), name) {
      var i :| 0 <= i < |lines| && ProgressLine(TrimSpace(lines[i]), name);
      assert lines[1..][i - 1] == lines[i];
    }
    if Progressed(lines[1..], name) {
      var i :| 0 <= i < |lines[1..]| && ProgressLine(TrimSpace(lines[1..][i]), name);
      assert lines[1..][i] == lines[i + 1];
    }
  }

  /** The loop of isFileSkipped: both flags, set by any trimmed line. */
  function Scan(lines: seq<string>, name: string): (r: Evidence)
    ensures r.itemize <==> Itemized(lines, name)
    ensures r.progress <==> Progressed(lines, name)
    decreases |lines|
  {
    if |lines| == 0 then Evidence(false, false)
    else
      var rest := Scan(lines[1..], name);
      var line := TrimSpace(lines[0]);
      ItemizedCons(lines, name);
      ProgressedCons(lines, name);
      Evidence(rest.itemize || ItemizeLine(line, name), rest.progress || ProgressLine(line, name))
  }

  /** A trimmed line that shows neither kind of transfer evidence. */
  predicate Quiet(line: string, name: string) {
    !ItemizeLine(line, name) && !ProgressLine(line, name)
  }

  /** No trimmed line of the output shows evidence for the file. */
  predicate AllQuiet(lines: seq<string>, name: string) {
    forall i :: 0 <= i < |lines| ==> Quiet(TrimSpace(lines[i]), name)
  }

  /** No evidence of either kind exactly when every line is quiet. */
  lemma QuietNoEvidence(lines: seq<string>, name: string)
    ensures !Itemized(lines, name) && !Progressed(lines, name) <==> AllQuiet(lines, name)
  {
    if !Itemized(lines, name) && !Progressed(lines, name) {
      forall i | 0 <= i < |lines|
        ensures Quiet(TrimSpace(lines[i]), name)
      {
      }
    }
  }

  /** isFileSkipped: a file counts as skipped when no trimmed output line
      shows it being itemised or making progress. */
  function IsFileSkipped(output: string, src: string): (r: bool)
    ensures r <==> AllQuiet(Split(output, '\n'), Base(src))
  {
    var lines := Split(output, '\n');
    var e := Scan(lines, Base(src));
    QuietNoEvidence(lines, Base(src));
    !e.itemize && !e.progress
  }

  /** Empty output means the file was skipped. */
  lemma EmptyOutputSkipped(src: string)
    ensures IsFileSkipped("", src)
  {
    assert Split("", '\n') == [""];
    assert TrimSpace("") == "";
    assert !Contains("", Base(src));
  }

  // ---- running rsync --------------------------------------------------------

  /** One rsync run: the runner oracle gets the argument list and answers
      with the combined output or the command's error. */
  type Runner = seq<string> -> Result<string>

  datatype FileRun = FileRun(result: Outcome<string>, skipped: bool)

  /** doTransferFile: only a failed command is an error; a skipped file and
      a transferred file both succeed. */
  function DoTransferFile(s: Settings, src: string, dst: string, run: Runner): (r: FileRun)
    ensures r.result.Fail? <==> run(BuildRsyncArgs(s, src, dst)).Err?
    ensures r.result.Fail? ==> HasPrefix(r.result.error, "rsync failed: ")
    ensures r.skipped ==> r.result.Pass?
    ensures r.result.Pass? ==> (r.skipped <==> IsFileSkipped(run(BuildRsyncArgs(s, src, dst)).value, src))
  {
    match run(BuildRsyncArgs(s, src, dst))
    case Err(e) => FileRun(Fail("rsync failed: " + e), false)
    case Ok(out) => FileRun(Pass, IsFileSkipped(out, src))
  }

  /** How far a sequence of runs got before it stopped. */
  datatype Progress = Progress(result: Outcome<string>, attempted: nat)

  /** The rsync run for one file succeeds. */
  predicate FileOk(s: Settings, f: FileTransfer, run: Runner) {
    run(BuildRsyncArgs(s, f.sourcePath, f.destPath)).Ok?
  }

  /** One file's doTransferFile, as a step of the one-by-one loop. */
  function FileStep(s: Settings, run: Runner): FileTransfer -> Outcome<string> {
    (f: FileTransfer) => DoTransferFile(s, f.sourcePath, f.destPath, run).result
  }

  /** A file's step succeeds exactly when its rsync run does. */
  lemma FileStepOk(s: Settings, run: Runner, f: FileTransfer)
    ensures FileStep(s, run)(f).Pass? <==> FileOk(s, f, run)
  {
  }

  /** The one-by-one loop of doTransferFiles: in order, stopping at the
      first failing step. */
  function Sequential(files: seq<FileTransfer>, step: FileTransfer -> Outcome<string>): (r: Progress)
    ensures r.attempted <= |files|
    ensures r.result.Pass? <==> forall i :: 0 <= i < |files| ==> step(files[i]).Pass?
    ensures r.result.Pass? ==> r.attempted == |files|
    ensures r.result.Fail? ==> 1 <= r.attempted && step(files[r.attempted - 1]).Fail?
    ensures forall i :: 0 <= i < r.attempted - 1 ==> step(files[i]).Pass?
    decreases |files|
  {
    if |files| == 0 then Progress(Pass, 0)
    else
      var first := step(files[0]);
      if first.Fail? then Progress(first, 1)
      else
        var rest := Sequential(files[1..], step);
        assert forall j :: 0 <= j < |files| - 1 ==> files[1..][j] == files[j + 1];
        Progress(rest.result, rest.attempted + 1)
  }

  // ---- batches --------------------------------------------------------------

  /** The files whose source directory is `dir`, in their original order. */
  function InDir(files: seq<FileTransfer>, dir: string): (r: seq<FileTransfer>)
    ensures forall f :: f in r <==> f in files && Dir(f.sourcePath) == dir
    ensures |r| <= |files|
    decreases |files|
  {
    if |files| == 0 then []
    else
      var f := files[|files| - 1];
      var init := files[..|files| - 1];
      assert files == init + [f];
      InDir(init, dir) + (if Dir(f.sourcePath) == dir then [f] else [])
  }

  /** transferFilesBatch's grouping: a map from each source directory to the
      files in it, appended in order. */
  function GroupByDir(files: seq<FileTransfer>): map<string, seq<FileTransfer>>
    decreases |files|
  {
    if |files| == 0 then map[]
    else
      var before := GroupByDir(files[..|files| - 1]);
      var f := files[|files| - 1];
      var d := Dir(f.sourcePath);
      before[d := (if d in before then before[d] else []) + [f]]
  }

  /** Each group holds exactly its directory's files in their original
      order, and a directory has a group exactly when it has a file. */
  lemma {:induction false} GroupByDirExact(files: seq<FileTransfer>)
    ensures forall d :: d in GroupByDir(files) <==> InDir(files, d) != []
    ensures forall d :: d in GroupByDir(files) ==> GroupByDir(files)[d] == InDir(files, d)
    decreases |files|
  {
    if |files| > 0 {
      var init := files[..|files| - 1];
      GroupByDirExact(init);
    }
  }

  /** The groups are keyed by exactly the source directories of the files. */
  lemma GroupKeys(files: seq<FileTransfer>, d: string)
    ensures d in GroupByDir(files) <==> exists i :: 0 <= i < |files| && Dir(files[i].sourcePath) == d
  {
    GroupByDirExact(files);
    if d in GroupByDir(files) {
      var f := InDir(files, d)[0];
      assert f in files;
    }
    if exists i :: 0 <= i < |files| && Dir(files[i].sourcePath) == d {
      var i :| 0 <= i < |files| && Dir(files[i].sourcePath) == d;
      assert files[i] in InDir(files, d);
    }
  }

  /** Every file is in the group of its own source directory and in no
      other. */
  lemma GroupsPartition(files: seq<FileTransfer>, i: nat, d: string)
    requires i < |files|
    ensures Dir(files[i].sourcePath) in GroupByDir(files)
    ensures files[i] in GroupByDir(files)[Dir(files[i].sourcePath)]
    ensures d in GroupByDir(files) ==> (files[i] in GroupByDir(files)[d] <==> Dir(files[i].sourcePath) == d)
  {
    GroupKeys(files, Dir(files[i].sourcePath));
    GroupByDirExact(files);
  }

  /** Go visits a map in no fixed order: `order` is one visit order, every
      group exactly once. */
  predicate VisitOrder(order: seq<string>, m: map<string, seq<FileTransfer>>) {
    (forall i, j :: 0 <= i < j < |order| ==> order[i] != order[j])
    && (forall i :: 0 <= i < |order| ==> order[i] in m)
    && (forall d :: d in m ==> d in order)
  }

  /** The include file's contents, handed to an oracle that writes it and
      answers with its name. */
  type IncludeWriter = (string, seq<FileTransfer>) -> Result<string>

  /** The argument list of one directory batch: only the included files,
      no keep-alive probes, into the first file's destination directory. */
  function BatchArgs(s: Settings, dir: string, destDir: string, includeFile: string): (r: seq<string>)
    ensures |r| == 10
    ensures r[4] == "--include-from=" + includeFile && r[5] == "--exclude=*"
    ensures r[6] == "-e" && r[7] == SshCommand(s.password, SshOptions(s.port, false))
    ensures '\'' !in s.password ==> r[7] == SshCommandAsWritten(s.password, SshOptions(s.port, false))
    ensures r[8] == dir + "/" && r[9] == RemoteSpec(s, destDir + "/")
  {
    var args := ["-avz", "--progress", "--partial", "--inplace", "--include-from=" + includeFile, "--exclude=*",
                 "-e", SshCommand(s.password, SshOptions(s.port, false)), dir + "/", RemoteSpec(s, destDir + "/")];
    if '\'' in s.password then args
    else
      SshCommandAgrees(s.password, SshOptions(s.port, false));
      args
  }

  datatype BatchStep = BatchStep(result: Outcome<string>, args: Option<seq<string>>)

  /** transferDirectoryBatch: nothing to do for an empty group; otherwise
      write the include file and run rsync once into the directory of the
      first file's destination. */
  function DirectoryBatch(s: Settings, dir: string, files: seq<FileTransfer>, writer: IncludeWriter, run: Runner): (r: BatchStep)
    ensures |files| == 0 ==> r == BatchStep(Pass, None)
    ensures |files| > 0 && writer(dir, files).Err? ==> r.result.Fail? && r.args.None?
    ensures r.args.Some? ==> |files| > 0 && writer(dir, files).Ok?
                             && r.args.value == BatchArgs(s, dir, Dir(files[0].destPath), writer(dir, files).value)
    ensures r.args.Some? ==> (r.result.Pass? <==> run(r.args.value).Ok?)
    ensures r.result.Fail? ==> |files| > 0
  {
    if |files| == 0 then BatchStep(Pass, None)
    else
      match writer(dir, files)
      case Err(e) => BatchStep(Fail("failed to create include file: " + e), None)
      case Ok(name) =>
        var args := BatchArgs(s, dir, Dir(files[0].destPath), name);
        match run(args)
        case Err(e) => BatchStep(Fail("batch rsync failed: " + e), Some(args))
        case Ok(_) => BatchStep(Pass, Some(args))
  }

  /** One group's batch as a step of the group loop. */
  type GroupStep = (string, seq<FileTransfer>) -> Outcome<string>

  function BatchStepOf(s: Settings, writer: IncludeWriter, run: Runner): GroupStep {
    (dir: string, files: seq<FileTransfer>) => DirectoryBatch(s, dir, files, writer, run).result
  }

  /** The group loop of transferFilesBatch over the groups named by
      `order`, stopping at the first failing group. */
  function RunGroups(m: map<string, seq<FileTransfer>>, order: seq<string>, step: GroupStep): (r: Progress)
    requires forall i :: 0 <= i < |order| ==> order[i] in m
    ensures r.attempted <= |order|
    ensures r.result.Pass? <==> forall i :: 0 <= i < |order| ==> step(order[i], m[order[i]]).Pass?
    ensures r.result.Pass? ==> r.attempted == |order|
    ensures r.result.Fail? ==> 1 <= r.attempted && step(order[r.attempted - 1], m[order[r.attempted - 1]]).Fail?
    ensures forall i :: 0 <= i < r.attempted - 1 ==> step(order[i], m[order[i]]).Pass?
    decreases |order|
  {
    if |order| == 0 then Progress(Pass, 0)
    else
      var first := step(order[0], m[order[0]]);
      if first.Fail? then Progress(first, 1)
      else
        var rest := RunGroups(m, order[1..], step);
        assert forall j :: 0 <= j < |order| - 1 ==> order[1..][j] == order[j + 1];
        Progress(rest.result, rest.attempted + 1)
  }

  /** Running the groups in a visit order checks every group. */
  lemma VisitEveryGroup(m: map<string, seq<FileTransfer>>, order: seq<string>, step: GroupStep)
    requires VisitOrder(order, m)
    ensures RunGroups(m, order, step).result.Pass? <==> forall d :: d in m ==> step(d, m[d]).Pass?
  {
    if forall i :: 0 <= i < |order| ==> step(order[i], m[order[i]]).Pass? {
      forall d | d in m
        ensures step(d, m[d]).Pass?
      {
        assert d in order;
        var i :| 0 <= i < |order| && order[i] == d;
      }
    }
  }

  /** Every directory group's batch succeeds. */
  predicate AllGroupsPass(s: Settings, m: map<string, seq<FileTransfer>>, writer: IncludeWriter, run: Runner) {
    forall d :: d in m ==> DirectoryBatch(s, d, m[d], writer, run).result.Pass?
  }

  /** transferFilesBatch: group by source directory, then run the groups in
      the given visit order. */
  function TransferFilesBatch(s: Settings, files: seq<FileTransfer>, order: seq<string>, writer: IncludeWriter, run: Runner): Progress
    requires VisitOrder(order, GroupByDir(files))
  {
    RunGroups(GroupByDir(files), order, BatchStepOf(s, writer, run))
  }

  /** A batch succeeds exactly when every directory group does, whatever
      order the groups are visited in. */
  lemma TransferFilesBatchAllGroups(s: Settings, files: seq<FileTransfer>, order: seq<string>, writer: IncludeWriter, run: Runner)
    requires VisitOrder(order, GroupByDir(files))
    ensures TransferFilesBatch(s, files, order, writer, run).result.Pass? <==> AllGroupsPass(s, GroupByDir(files), writer, run)
  {
    BatchesVisitEveryGroup(s, GroupByDir(files), order, writer, run);
  }

  lemma BatchesVisitEveryGroup(s: Settings, m: map<string, seq<FileTransfer>>, order: seq<string>, writer: IncludeWriter, run: Runner)
    requires VisitOrder(order, m)
    ensures RunGroups(m, order, BatchStepOf(s, writer, run)).result.Pass? <==> AllGroupsPass(s, m, writer, run)
  {
    VisitEveryGroup(m, order, BatchStepOf(s, writer, run));
    forall d | d in m
      ensures BatchStepOf(s, writer, run)(d, m[d]) == DirectoryBatch(s, d, m[d], writer, run).result
    {
    }
  }

  /** A group is never empty, so every group in a batch reaches the include
      writer. */
  lemma GroupsNonEmpty(files: seq<FileTransfer>, d: string)
    requires d in GroupByDir(files)
    ensures |GroupByDir(files)[d]| > 0
  {
    GroupByDirExact(files);
  }

  /** doTransferFiles: up to three files one by one, more as directory
      batches. */
  function DoTransferFiles(s: Settings, files: seq<FileTransfer>, order: seq<string>, writer: IncludeWriter, run: Runner): Outcome<string>
    requires |files| > 3 ==> VisitOrder(order, GroupByDir(files))
  {
    if |files| <= 3 then Sequential(files, FileStep(s, run)).result
    else TransferFilesBatch(s, files, order, writer, run).result
  }

  /** Up to three files succeed exactly when each file's own rsync run
      does. */
  lemma DoTransferFilesFew(s: Settings, files: seq<FileTransfer>, order: seq<string>, writer: IncludeWriter, run: Runner)
    requires |files| <= 3
    ensures DoTransferFiles(s, files, order, writer, run).Pass? <==> forall i :: 0 <= i < |files| ==> FileOk(s, files[i], run)
  {
    forall i | 0 <= i < |files|
      ensures FileStep(s, run)(files[i]).Pass? <==> FileOk(s, files[i], run)
    {
      FileStepOk(s, run, files[i]);
    }
  }

  /** More than three files succeed exactly when each directory batch does. */
  lemma DoTransferFilesMany(s: Settings, files: seq<FileTransfer>, order: seq<string>, writer: IncludeWriter, run: Runner)
    requires |files| > 3 && VisitOrder(order, GroupByDir(files))
    ensures DoTransferFiles(s, files, order, writer, run).Pass? <==> AllGroupsPass(s, GroupByDir(files), writer, run)
  {
    TransferFilesBatchAllGroups(s, files, order, writer, run);
  }
}
