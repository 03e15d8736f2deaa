/** The engine's configuration: the rule-based validator, the two server
    URLs, and the two path mappings that take a path as the source Plex
    server reports it to a path on this machine and then to a path under the
    destination root. Environment loading is not modelled; a configuration
    is a value. */
module Config {
  import opened Wrappers
  import opened Strs
  import opened Paths

  datatype Server = Server(host: string, port: string, token: string, protocol: string, requireHttps: bool)

  datatype SshSettings = SshSettings(user: string, password: string, port: string, keyPath: string)

  datatype Performance = Performance(
    workerPoolSize: int,
    apiRateLimit: real,
    transferBufferSize: int,
    maxConcurrentTransfers: int)

  datatype Config = Config(
    source: Server,
    destination: Server,
    syncLabel: string,
    replaceFrom: string,
    replaceTo: string,
    destRootDir: string,
    transferMethod: string,
    ssh: SshSettings,
    performance: Performance,
    logLevel: string)

  /** One validation rule per constructor, in the order Validate checks them. */
  datatype ConfigError =
    | MissingSourceHost
    | MissingSourceToken
    | MissingDestHost
    | MissingDestToken
    | MissingSyncLabel
    | HalfPathMapping
    | MissingDestRoot
    | BadLogLevel
    | BadWorkerPoolSize
    | BadApiRateLimit
    | BadTransferBufferSize
    | BadMaxConcurrentTransfers

  const LogLevels: seq<string> := ["DEBUG", "INFO", "WARN", "ERROR"]

  /** File transfer is configured when both SSH user and password are set. */
  predicate SshConfigured(c: Config) {
    c.ssh.user != "" && c.ssh.password != ""
  }

  /** Whether configuration `c` violates rule `e`, independently of order. */
  predicate Broken(c: Config, e: ConfigError) {
    match e
    case MissingSourceHost => c.source.host == ""
    case MissingSourceToken => c.source.token == ""
    case MissingDestHost => c.destination.host == ""
    case MissingDestToken => c.destination.token == ""
    case MissingSyncLabel => c.syncLabel == ""
    case HalfPathMapping => (c.replaceFrom == "") != (c.replaceTo == "")
    case MissingDestRoot => SshConfigured(c) && c.destRootDir == ""
    case BadLogLevel => c.logLevel !in LogLevels
    case BadWorkerPoolSize => c.performance.workerPoolSize < 1
    case BadApiRateLimit => c.performance.apiRateLimit <= 0.0
    case BadTransferBufferSize => c.performance.transferBufferSize < 1024
    case BadMaxConcurrentTransfers => c.performance.maxConcurrentTransfers < 1
  }

  /** The position of a rule in the checking order. */
  function Rank(e: ConfigError): nat {
    match e
    case MissingSourceHost => 0
    case MissingSourceToken => 1
    case MissingDestHost => 2
    case MissingDestToken => 3
    case MissingSyncLabel => 4
    case HalfPathMapping => 5
    case MissingDestRoot => 6
    case BadLogLevel => 7
    case BadWorkerPoolSize => 8
    case BadApiRateLimit => 9
    case BadTransferBufferSize => 10
    case BadMaxConcurrentTransfers => 11
  }

  /** Config.Validate: passes exactly when no rule is broken, and otherwise
      reports the earliest broken rule. */
  function Validate(c: Config): (r: Outcome<ConfigError>)
    ensures r.Fail? ==> Broken(c, r.error)
    ensures r.Pass? ==> forall e: ConfigError :: !Broken(c, e)
    ensures r.Fail? ==> forall e: ConfigError :: Rank(e) < Rank(r.error) ==> !Broken(c, e)
  {
    if c.source.host == "" then Fail(MissingSourceHost)
    else if c.source.token == "" then Fail(MissingSourceToken)
    else if c.destination.host == "" then Fail(MissingDestHost)
    else if c.destination.token == "" then Fail(MissingDestToken)
    else if c.syncLabel == "" then Fail(MissingSyncLabel)
    else if (c.replaceFrom != "" || c.replaceTo != "") && !(c.replaceFrom != "" && c.replaceTo != "") then Fail(HalfPathMapping)
    else if SshConfigured(c) && c.destRootDir == "" then Fail(MissingDestRoot)
    else if c.logLevel !in LogLevels then Fail(BadLogLevel)
    else if c.performance.workerPoolSize < 1 then Fail(BadWorkerPoolSize)
    else if c.performance.apiRateLimit <= 0.0 then Fail(BadApiRateLimit)
    else if c.performance.transferBufferSize < 1024 then Fail(BadTransferBufferSize)
    else if c.performance.maxConcurrentTransfers < 1 then Fail(BadMaxConcurrentTransfers)
    else Pass
  }

  /** The `scheme://host:port` prefix of every request to a server. */
  function ServerUrl(s: Server): string {
    s.protocol + "://" + s.host + ":" + s.port
  }

  function SourceUrl(c: Config): string {
    ServerUrl(c.source)
  }

  function DestinationUrl(c: Config): string {
    ServerUrl(c.destination)
  }

  /** The part of `p` after `prefix`, with one leading separator removed. */
  function RelPart(p: string, prefix: string): string {
    TrimPrefix(TrimPrefix(p, prefix), "/")
  }

  /** Config.MapSourcePathToLocal. The prefix test is on raw text, not on
      whole path elements. */
  function MapSourcePathToLocal(c: Config, p: string): (r: Result<string>)
    ensures p == "" ==> r.Err?
    ensures p != "" && (c.replaceFrom == "" || c.replaceTo == "") ==> r == Ok(p)
    ensures p != "" && c.replaceFrom != "" && c.replaceTo != "" ==> (r.Ok? <==> HasPrefix(p, c.replaceFrom))
  {
    if p == "" then Err("source path is empty")
    else if c.replaceFrom == "" then Ok(p)
    else if c.replaceTo == "" then Ok(p)
    else if !HasPrefix(p, c.replaceFrom) then Err("source path " + p + " does not start with replacement pattern " + c.replaceFrom)
    else Ok(Join(c.replaceTo, RelPart(p, c.replaceFrom)))
  }

  /** The destination root with one trailing separator removed, then "/". */
  function DestPrefix(c: Config): string {
    TrimSuffix(c.destRootDir, "/") + "/"
  }

  /** Config.MapLocalPathToDest: every successful result lies under the
      destination root; the relative part comes from stripping the local
      root, else the source prefix, else it is the file name alone. */
  function MapLocalPathToDest(c: Config, local: string): (r: Result<string>)
    ensures r.Err? <==> local == "" || c.destRootDir == ""
                        || (c.replaceTo != "" && !HasPrefix(local, c.replaceTo))
                        || (c.replaceTo == "" && c.replaceFrom != "" && !HasPrefix(local, c.replaceFrom))
    ensures r.Ok? ==> HasPrefix(r.value, DestPrefix(c))
    ensures r.Ok? && c.replaceTo == "" && c.replaceFrom == "" ==> r.value == DestPrefix(c) + Base(local)
  {
    if local == "" then Err("local path is empty")
    else if c.destRootDir == "" then Err("destination root directory not configured")
    else
      var rel :=
        if c.replaceTo != "" then
          if !HasPrefix(local, c.replaceTo) then Err("local path " + local + " does not start with source replacement root " + c.replaceTo)
          else Ok(RelPart(local, c.replaceTo))
        else if c.replaceFrom != "" then
          if !HasPrefix(local, c.replaceFrom) then Err("local path " + local + " does not start with source replacement pattern " + c.replaceFrom)
          else Ok(RelPart(local, c.replaceFrom))
        else Ok(Base(local));
      if rel.Err? then Err(rel.error) else Ok(DestPrefix(c) + rel.value)
  }

  /** Joining nothing onto a plain directory leaves no relative part. */
  lemma RelPartOfJoinEmpty(to: string)
    requires PlainDir(to)
    ensures HasPrefix(Join(to, ""), to) && RelPart(Join(to, ""), to) == ""
  {
    JoinEmpty(to);
    TrimPrefixConcat(to, "");
    assert to + "" == to;
    assert !HasPrefix("", "/");
  }

  /** Below the root, the relative part of "/" + rel is rel. */
  lemma RelPartBelowRoot(rel: string)
    requires PlainRel(rel)
    ensures RelPart("/" + rel, "/") == rel
  {
    PlainRelShape(rel);
    assert !HasPrefix(rel, "/");
    TrimPrefixConcat("/", rel);
  }

  /** Below another directory, the relative part of to + "/" + rel is rel. */
  lemma RelPartBelowDir(to: string, rel: string)
    requires PlainRel(rel)
    ensures HasPrefix(to + "/" + rel, to) && RelPart(to + "/" + rel, to) == rel
  {
    assert to + "/" + rel == to + ("/" + rel);
    TrimPrefixConcat(to, "/" + rel);
    RelPartBelowRoot(rel);
  }

  /** Below a plain directory, the relative part of a joined path is what
      was joined. */
  lemma RelPartOfJoin(to: string, rel: string)
    requires PlainDir(to) && (rel == "" || PlainRel(rel))
    ensures HasPrefix(Join(to, rel), to) && RelPart(Join(to, rel), to) == rel
  {
    if rel == "" {
      RelPartOfJoinEmpty(to);
    } else {
      JoinPlain(to, rel);
      if to == "/" {
        RelPartBelowRoot(rel);
        TrimPrefixConcat("/", rel);
      } else {
        RelPartBelowDir(to, rel);
      }
    }
  }

  /** Mapping a source path to this machine and then to the destination
      puts it under the destination root at the same place relative to the
      source prefix (or, without a mapping, by file name), as long as what
      follows the prefix is a plain relative path. */
  lemma MapRoundTrip(c: Config, p: string)
    requires p != "" && c.destRootDir != ""
    requires (c.replaceFrom == "") == (c.replaceTo == "")
    requires c.replaceFrom != "" ==> HasPrefix(p, c.replaceFrom) && PlainDir(c.replaceTo)
    requires c.replaceFrom != "" ==> RelPart(p, c.replaceFrom) == "" || PlainRel(RelPart(p, c.replaceFrom))
    ensures MapSourcePathToLocal(c, p).Ok?
    ensures MapLocalPathToDest(c, MapSourcePathToLocal(c, p).value)
         == Ok(DestPrefix(c) + (if c.replaceFrom != "" then RelPart(p, c.replaceFrom) else Base(p)))
  {
    if c.replaceFrom != "" {
      RelPartOfJoin(c.replaceTo, RelPart(p, c.replaceFrom));
    }
  }

  /** Because the prefix test is on raw text, a source path that merely
      shares leading characters with the prefix is accepted. */
  lemma RawPrefixAccepted()
    ensures MapSourcePathToLocal(Config(
      Server("s", "32400", "t", "https", true), Server("d", "32400", "t", "https", true),
      "sync", "/data/Movies", "/media", "/mnt", "", SshSettings("", "", "22", ""),
      Performance(4, 10.0, 65536, 3), "INFO"), "/data/Movies2/x").Ok?
  {
  }

  /** The configuration the validator's table test accepts: SSH has a user
      but no password, so no destination root is needed. */
  function SampleValid(): Config {
    Config(
      Server("source.local", "32400", "source-token", "http", false),
      Server("dest.local", "32400", "dest-token", "http", false),
      "sync", "", "", "", "", SshSettings("user", "", "", "/keys/id_rsa"),
      Performance(4, 10.0, 65536, 3), "INFO")
  }

  lemma ValidateTableTest()
    ensures Validate(SampleValid()) == Pass
    ensures Validate(SampleValid().(source := SampleValid().source.(host := ""))) == Fail(MissingSourceHost)
    ensures Validate(SampleValid().(destination := SampleValid().destination.(token := ""))) == Fail(MissingDestToken)
    ensures Validate(Config(
      Server("source.local", "32400", "source-token", "http", false),
      Server("dest.local", "32400", "", "http", false),
      "", "", "", "", "", SshSettings("", "", "", ""), Performance(0, 0.0, 0, 0), "")).Fail?
  {
  }
}
