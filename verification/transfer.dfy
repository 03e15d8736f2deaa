/** The transfer decision layer shared by both backends: skip a file whose
    remote copy already has the local size, otherwise create the remote
    directory and hand the file to the backend, folding the backend's
    answer into one outcome. Also the choice and construction of a
    backend. The local filesystem, the remote size query, the remote mkdir
    and the backend are oracles; the calls made are returned in order. */
module Transfer {
  import opened Wrappers
  import opened Strs
  import opened Paths
  import Ssh

  datatype Method = ScpMethod | RsyncMethod

  /** The TransferMethod strings. */
  function MethodName(m: Method): (r: string)
    ensures r == "scp" || r == "rsync"
  {
    match m
    case ScpMethod => "scp"
    case RsyncMethod => "rsync"
  }

  /** NewTransferrer: "scp" needs the SFTP connection to come up, "rsync"
      always succeeds, and any other name is refused. */
  function NewTransferrer(how: string, connect: Outcome<string>): (r: Result<Method>)
    ensures r.Ok? ==> MethodName(r.value) == how
    ensures how == "rsync" ==> r == Ok(RsyncMethod)
    ensures how == "scp" ==> (r.Ok? <==> connect.Pass?)
    ensures how != "scp" && how != "rsync" ==> r.Err? && HasPrefix(r.error, "unsupported transfer method: ")
  {
    if how == "scp" then
      match connect
      case Fail(e) => Err("failed to create SCP transferrer: failed to establish SSH connection: " + e)
      case Pass => Ok(ScpMethod)
    else if how == "rsync" then Ok(RsyncMethod)
    else Err("unsupported transfer method: " + how)
  }

  /** GetOptimalTransferMethod: rsync when it is installed, SCP otherwise. */
  function GetOptimalTransferMethod(rsyncAvailable: bool): (r: Method)
    ensures r == RsyncMethod <==> rsyncAvailable
  {
    if rsyncAvailable then RsyncMethod else ScpMethod
  }

  /** Whatever method is chosen automatically, building a transferrer for
      it fails only when an SCP connection cannot be made. */
  lemma OptimalMethodAccepted(rsyncAvailable: bool, connect: Outcome<string>)
    ensures var r := NewTransferrer(MethodName(GetOptimalTransferMethod(rsyncAvailable)), connect);
            r.Ok? <==> rsyncAvailable || connect.Pass?
  {
  }

  // ---- one file -------------------------------------------------------------

  /** The remote calls TransferFile makes, in order. */
  datatype Call = SizeQuery(path: string) | MakeDir(path: string) | Backend(src: string, dst: string)

  /** The world one TransferFile call sees. */
  datatype Env = Env(
    localSize: Result<int>,                      // os.Stat of the source
    remoteSize: string -> Result<int>,           // GetFileSize on the destination side
    mkdir: string -> Outcome<string>,            // CreateDirectory
    backend: (string, string) -> Outcome<string>) // the backend's doTransferFile

  datatype Report = Report(result: Outcome<string>, calls: seq<Call>)

  /** The remote copy already has the local size. */
  predicate SameSize(env: Env, dst: string) {
    env.localSize.Ok? && env.remoteSize(dst).Ok? && env.remoteSize(dst).value == env.localSize.value
  }

  /** A backend error that reports a skipped file. */
  predicate SkipError(e: string) {
    Contains(e, "file_skipped")
  }

  /** transferClient.TransferFile. */
  function TransferFile(env: Env, how: Method, src: string, dst: string): (r: Report)
    // a failed local stat is reported before any remote call
    ensures env.localSize.Err? ==> r.result.Fail? && r.calls == []
    // the same size on both sides is the skip outcome: only the size query
    ensures SameSize(env, dst) ==> r == Report(Pass, [SizeQuery(dst)])
    // otherwise the directory comes first, then exactly one backend call
    ensures env.localSize.Ok? && !SameSize(env, dst) ==>
              |r.calls| >= 2 && r.calls[..2] == [SizeQuery(dst), MakeDir(Dir(dst))]
    ensures Backend(src, dst) in r.calls <==>
              env.localSize.Ok? && !SameSize(env, dst) && env.mkdir(Dir(dst)).Pass?
    ensures Backend(src, dst) in r.calls ==> r.calls == [SizeQuery(dst), MakeDir(Dir(dst)), Backend(src, dst)]
    // the backend's answer: skipped counts as success, anything else is wrapped
    ensures Backend(src, dst) in r.calls ==>
              (r.result.Pass? <==> env.backend(src, dst).Pass? || SkipError(env.backend(src, dst).error))
    ensures r.result.Fail? && Backend(src, dst) in r.calls ==>
              r.result.error == "transfer failed using " + MethodName(how) + ": " + env.backend(src, dst).error
  {
    match env.localSize
    case Err(e) => Report(Fail("failed to stat source file: " + e), [])
    case Ok(size) =>
      if env.remoteSize(dst).Ok? && env.remoteSize(dst).value == size then
        Report(Pass, [SizeQuery(dst)])
      else
        var dir := Dir(dst);
        match env.mkdir(dir)
        case Fail(e) => Report(Fail("failed to create destination directory: " + e), [SizeQuery(dst), MakeDir(dir)])
        case Pass =>
          var calls := [SizeQuery(dst), MakeDir(dir), Backend(src, dst)];
          match env.backend(src, dst)
          case Pass => Report(Pass, calls)
          case Fail(e) =>
            if SkipError(e) then Report(Pass, calls)
            else Report(Fail("transfer failed using " + MethodName(how) + ": " + e), calls)
  }

  /** A remote size query that fails does not stop the transfer: it goes on
      exactly as for a differing size. */
  lemma SizeQueryErrorNotFatal(env: Env, how: Method, src: string, dst: string)
    requires env.localSize.Ok? && env.remoteSize(dst).Err?
    ensures TransferFile(env, how, src, dst).calls[..2] == [SizeQuery(dst), MakeDir(Dir(dst))]
    ensures env.mkdir(Dir(dst)).Pass? ==> Backend(src, dst) in TransferFile(env, how, src, dst).calls
  {
  }

  /** Running a transfer again once the remote copy has the local size makes
      no write: the second run only asks for the size. */
  lemma RerunSkips(env: Env, how: Method, src: string, dst: string, n: int)
    requires env.localSize == Ok(n)
    ensures var again := env.(remoteSize := (p: string) => if p == dst then Ok(n) else env.remoteSize(p));
            TransferFile(again, how, src, dst) == Report(Pass, [SizeQuery(dst)])
  {
    var again := env.(remoteSize := (p: string) => if p == dst then Ok(n) else env.remoteSize(p));
    assert SameSize(again, dst);
  }

  /** ensureDestinationDir over SSH: the mkdir runs on `Dir(destPath)` and
      its answer never fails the transfer. */
  function EnsureDestinationDir(s: Ssh.Session, t: Ssh.Target, remote: Ssh.Remote, dst: string): (r: Ssh.Reply)
    ensures r.result == Pass
    ensures r.events == Ssh.Execute(s, t, remote, Ssh.MkdirCommand(Dir(dst))).events
  {
    Ssh.CreateDirectory(s, t, remote, Dir(dst))
  }

  /** With the SSH mkdir, which always reports success, a transfer fails
      only on the local stat or on a backend error that is not a skip. */
  lemma SshMkdirNeverFatal(env: Env, how: Method, src: string, dst: string)
    requires forall p :: env.mkdir(p).Pass?
    ensures TransferFile(env, how, src, dst).result.Fail? <==>
              env.localSize.Err?
              || (!SameSize(env, dst) && env.backend(src, dst).Fail? && !SkipError(env.backend(src, dst).error))
  {
  }
}
