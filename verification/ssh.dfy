/** The SSH file-operations client: one cached connection reused by every
    command, the shell commands it runs for size, delete, listing and mkdir,
    and how it reads their output. The network is a `Remote` value: what a
    dial to an address yields, what a command prints (or the error it ends
    with), and what closing the connection yields. */
module Ssh {
  import opened Wrappers
  import opened Strs
  import opened Decimal

  /** Where and as whom to connect: the destination host and the SSH
      settings. */
  datatype Target = Target(host: string, user: string, password: string, port: string)

  datatype Remote = Remote(
    dial: string -> Outcome<string>,
    run: string -> Result<string>,
    close: Outcome<string>)

  /** What the client did on the wire, in order. */
  datatype Event = Dialed(address: string) | Ran(command: string)

  /** The cached connection: the address it is open to, if any. */
  type Session = Option<string>

  /** The dial address; the SSH port defaults to 22. */
  function Address(t: Target): string {
    t.host + ":" + (if t.port == "" then "22" else t.port)
  }

  // ---- quoting ------------------------------------------------------------

  /** The number of single quotes in `p`. */
  function Quotes(p: string): nat {
    if |p| == 0 then 0 else (if p[0] == '\'' then 1 else 0) + Quotes(p[1..])
  }

  /** strings.ReplaceAll(p, "'", `'"'"'`): close the single quote, emit a
      double-quoted quote, reopen. Each quote grows by four characters. */
  function Escape(p: string): (r: string)
    ensures '\'' !in p ==> r == p
    ensures |r| == |p| + 4 * Quotes(p)
  {
    if |p| == 0 then ""
    else if p[0] == '\'' then "'\"'\"'" + Escape(p[1..])
    else [p[0]] + Escape(p[1..])
  }

  /** A path as it appears in every command: single-quoted and escaped. */
  function QuoteArg(p: string): string {
    "'" + Escape(p) + "'"
  }

  datatype LexState = Bare | InSingle | InDouble

  /** How a POSIX shell reads one word made of single- and double-quoted
      segments. Unquoted characters, and the characters that still expand
      inside double quotes, are outside what is modelled and give None. */
  function Unquote(s: string, st: LexState): Option<string>
    decreases |s|
  {
    if |s| == 0 then (if st == Bare then Some("") else None)
    else
      var c := s[0];
      match st
      case Bare =>
        if c == '\'' then Unquote(s[1..], InSingle)
        else if c == '"' then Unquote(s[1..], InDouble)
        else None
      case InSingle =>
        if c == '\'' then Unquote(s[1..], Bare)
        else Prepend(c, Unquote(s[1..], InSingle))
      case InDouble =>
        if c == '"' then Unquote(s[1..], Bare)
        else if c == '\\' || c == '$' || c == '`' then None
        else Prepend(c, Unquote(s[1..], InDouble))
  }

  function Prepend(c: char, o: Option<string>): Option<string> {
    match o
    case None => None
    case Some(t) => Some([c] + t)
  }

  /** Inside single quotes the escaped quote reads as one quote. */
  lemma UnquoteEscapedQuote(tail: string)
    ensures Unquote("'\"'\"'" + tail, InSingle) == Prepend('\'', Unquote(tail, InSingle))
  {
    var s := "'\"'\"'" + tail;
    assert s[0] == '\'' && s[1] == '"' && s[2] == '\'' && s[3] == '"' && s[4] == '\'';
    assert Unquote(s[4..], Bare) == Unquote(tail, InSingle) by { assert s[4..][1..] == tail; }
    assert Unquote(s[3..], InDouble) == Unquote(s[4..], Bare) by { assert s[3..][1..] == s[4..]; }
    assert Unquote(s[2..], InDouble) == Prepend('\'', Unquote(s[3..], InDouble)) by { assert s[2..][1..] == s[3..]; }
    assert Unquote(s[1..], Bare) == Unquote(s[2..], InDouble) by { assert s[1..][1..] == s[2..]; }
  }

  /** Inside single quotes any other character reads as itself. */
  lemma UnquotePlain(c: char, tail: string)
    requires c != '\''
    ensures Unquote([c] + tail, InSingle) == Prepend(c, Unquote(tail, InSingle))
  {
    assert ([c] + tail)[1..] == tail;
  }

  lemma {:induction false} UnquoteEscaped(p: string)
    ensures Unquote(Escape(p) + "'", InSingle) == Some(p)
    decreases |p|
  {
    if |p| == 0 {
      assert Escape(p) + "'" == "'";
    } else {
      UnquoteEscaped(p[1..]);
      var tail := Escape(p[1..]) + "'";
      if p[0] == '\'' {
        assert Escape(p) + "'" == "'\"'\"'" + tail;
        UnquoteEscapedQuote(tail);
      } else {
        assert Escape(p) + "'" == [p[0]] + tail;
        UnquotePlain(p[0], tail);
      }
      assert p == [p[0]] + p[1..];
    }
  }

  /** The shell reads the quoted argument back as exactly the path, whatever
      quotes the path contains. */
  lemma QuoteArgRoundTrip(p: string)
    ensures Unquote(QuoteArg(p), Bare) == Some(p)
  {
    UnquoteEscaped(p);
    assert QuoteArg(p)[1..] == Escape(p) + "'";
  }

  // ---- commands -----------------------------------------------------------

  /** BSD stat first, GNU stat as the fallback. */
  function SizeCommand(p: string): string {
    "stat -f%z " + QuoteArg(p) + " 2>/dev/null || stat -c%s " + QuoteArg(p)
  }

  function RemoveCommand(p: string): string {
    "rm -f " + QuoteArg(p)
  }

  function FindCommand(root: string): string {
    "find " + QuoteArg(root) + " -type f 2>/dev/null"
  }

  function FallbackListCommand(root: string): string {
    "test -d " + QuoteArg(root) + " && find " + QuoteArg(root) + " -type f || echo \"\""
  }

  function MkdirCommand(p: string): string {
    "mkdir -p " + QuoteArg(p)
  }

  // ---- connection ---------------------------------------------------------

  datatype Exec = Exec(session: Session, output: Result<string>, events: seq<Event>)

  /** executeCommand over getSSHClient: dial only when no connection is
      cached, keep the connection once it is open, then run the command. */
  function Execute(s: Session, t: Target, r: Remote, cmd: string): (e: Exec)
    ensures s.Some? ==> e.session == s && e.events == [Ran(cmd)] && e.output == r.run(cmd)
    ensures s.None? ==> |e.events| >= 1 && e.events[0] == Dialed(Address(t))
    ensures e.session.Some? <==> (s.Some? || r.dial(Address(t)).Pass?)
    ensures Ran(cmd) in e.events <==> e.session.Some?
    ensures e.session.None? ==> e.output.Err?
  {
    match s
    case Some(_) => Exec(s, r.run(cmd), [Ran(cmd)])
    case None =>
      var addr := Address(t);
      match r.dial(addr)
      case Fail(err) => Exec(None, Err("failed to connect to SSH server: " + err), [Dialed(addr)])
      case Pass => Exec(Some(addr), r.run(cmd), [Dialed(addr), Ran(cmd)])
  }

  function CountDials(events: seq<Event>): nat {
    if |events| == 0 then 0 else (if events[0].Dialed? then 1 else 0) + CountDials(events[1..])
  }

  lemma {:induction false} CountDialsAppend(a: seq<Event>, b: seq<Event>)
    ensures CountDials(a + b) == CountDials(a) + CountDials(b)
    decreases |a|
  {
    if |a| == 0 {
      assert a + b == b;
    } else {
      assert (a + b)[1..] == a[1..] + b;
      CountDialsAppend(a[1..], b);
    }
  }

  /** Runs the commands one after another on the same client. */
  function ExecuteAll(s: Session, t: Target, r: Remote, cmds: seq<string>): (e: Exec)
    decreases |cmds|
  {
    if |cmds| == 0 then Exec(s, Ok(""), [])
    else
      var first := Execute(s, t, r, cmds[0]);
      var rest := ExecuteAll(first.session, t, r, cmds[1..]);
      Exec(rest.session, rest.output, first.events + rest.events)
  }

  /** Once a dial has succeeded the connection is reused: a whole run of
      commands dials at most once, and not at all on an open session. */
  lemma {:induction false} ConnectionReused(s: Session, t: Target, r: Remote, cmds: seq<string>)
    requires s.Some? || r.dial(Address(t)).Pass?
    ensures CountDials(ExecuteAll(s, t, r, cmds).events) <= (if s.Some? then 0 else 1)
    ensures |cmds| > 0 ==> ExecuteAll(s, t, r, cmds).session.Some?
    decreases |cmds|
  {
    if |cmds| > 0 {
      var first := Execute(s, t, r, cmds[0]);
      ConnectionReused(first.session, t, r, cmds[1..]);
      CountDialsAppend(first.events, ExecuteAll(first.session, t, r, cmds[1..]).events);
      assert CountDials(first.events) == (if s.Some? then 0 else 1) by {
        if s.None? {
          assert first.events == [Dialed(Address(t)), Ran(cmds[0])];
          assert first.events[1..] == [Ran(cmds[0])];
          assert first.events[1..][1..] == [];
        } else {
          assert first.events[1..] == [];
        }
      }
    }
  }

  /** Close: drops the cached connection and reports how closing it went;
      without a connection there is nothing to close. */
  function Close(s: Session, r: Remote): (res: (Session, Outcome<string>))
    ensures res.0.None?
    ensures s.None? ==> res.1 == Pass
    ensures s.Some? ==> res.1 == r.close
  {
    if s.Some? then (None, r.close) else (None, Pass)
  }

  // ---- file operations ----------------------------------------------------

  datatype SizeReply = SizeReply(session: Session, size: Result<int>, events: seq<Event>)

  /** GetFileSize: the command's error, or its trimmed output read as a
      signed 64-bit decimal. */
  function GetFileSize(s: Session, t: Target, r: Remote, p: string): (res: SizeReply)
    ensures res.events == Execute(s, t, r, SizeCommand(p)).events
    ensures res.size.Ok? ==> Execute(s, t, r, SizeCommand(p)).output.Ok?
    ensures res.size.Ok? ==> MinInt64 <= res.size.value <= MaxInt64
  {
    var e := Execute(s, t, r, SizeCommand(p));
    match e.output
    case Err(msg) => SizeReply(e.session, Err(msg), e.events)
    case Ok(out) => SizeReply(e.session, ParseInt64(TrimSpace(out)), e.events)
  }

  /** When the remote prints the size followed by a newline, that is the
      size reported. */
  lemma FileSizeOfPrintedSize(s: Session, t: Target, r: Remote, p: string, n: int)
    requires MinInt64 <= n <= MaxInt64
    requires s.Some? || r.dial(Address(t)).Pass?
    requires r.run(SizeCommand(p)) == Ok(IntText(n) + "\n")
    ensures GetFileSize(s, t, r, p).size == Ok(n)
  {
    var txt := IntText(n);
    assert !IsSpace(txt[0]);
    assert txt[0] == '-' || IsDigit(txt[0]);
    assert !IsSpace(txt[|txt| - 1]) by {
      if n < 0 {
        assert txt[|txt| - 1] == NatText(-n)[|NatText(-n)| - 1];
      }
    }
    TrimSpaceNewline(txt);
    ParseIntText(n);
  }

  lemma TrimSpaceNewline(x: string)
    requires |x| > 0 && !IsSpace(x[0]) && !IsSpace(x[|x| - 1])
    ensures TrimSpace(x + "\n") == x
  {
    var s := x + "\n";
    assert TrimLeftSpace(s) == s;
    assert s[..|s| - 1] == x;
    assert TrimRightSpace(s) == TrimRightSpace(x);
    assert TrimRightSpace(x) == x;
  }

  datatype Reply = Reply(session: Session, result: Outcome<string>, events: seq<Event>)

  /** DeleteFile: `rm -f` on the quoted path; the command's error is the
      result. */
  function DeleteFile(s: Session, t: Target, r: Remote, p: string): (res: Reply)
    ensures res.events == Execute(s, t, r, RemoveCommand(p)).events
    ensures res.result.Pass? <==> Execute(s, t, r, RemoveCommand(p)).output.Ok?
  {
    var e := Execute(s, t, r, RemoveCommand(p));
    Reply(e.session, if e.output.Ok? then Pass else Fail(e.output.error), e.events)
  }

  /** CreateDirectory: runs `mkdir -p` and succeeds whatever the command
      does, since the directory may already exist. */
  function CreateDirectory(s: Session, t: Target, r: Remote, p: string): (res: Reply)
    ensures res.result == Pass
    ensures res.events == Execute(s, t, r, MkdirCommand(p)).events
  {
    var e := Execute(s, t, r, MkdirCommand(p));
    Reply(e.session, Pass, e.events)
  }

  /** The file list in a listing command's output: one path per line of the
      trimmed output, and nothing for blank output. */
  function ParseListing(out: string): (r: seq<string>)
    ensures r == [] <==> TrimSpace(out) == ""
    ensures r != [] ==> JoinWith(r, "\n") == TrimSpace(out)
    ensures forall i :: 0 <= i < |r| ==> '\n' !in r[i]
  {
    var files := Split(TrimSpace(out), '\n');
    JoinSplit(TrimSpace(out), '\n');
    if |files| == 1 && files[0] == "" then [] else files
  }

  datatype Listing = Listing(session: Session, files: seq<string>, events: seq<Event>)

  /** ListDirectoryContents: `find`, then a guarded `find` if that fails,
      and an empty list if both fail. It never reports an error. */
  function ListDirectoryContents(s: Session, t: Target, r: Remote, root: string): (res: Listing)
    ensures var first := Execute(s, t, r, FindCommand(root));
            first.output.Ok? ==> res.files == ParseListing(first.output.value) && res.events == first.events
    ensures var first := Execute(s, t, r, FindCommand(root));
            var second := Execute(first.session, t, r, FallbackListCommand(root));
            first.output.Err? ==> (res.events == first.events + second.events
              && res.files == (if second.output.Ok? then ParseListing(second.output.value) else []))
  {
    var first := Execute(s, t, r, FindCommand(root));
    if first.output.Ok? then Listing(first.session, ParseListing(first.output.value), first.events)
    else
      var second := Execute(first.session, t, r, FallbackListCommand(root));
      var files := if second.output.Ok? then ParseListing(second.output.value) else [];
      Listing(second.session, files, first.events + second.events)
  }

  /** An unreachable host lists as an empty directory, after two dial
      attempts: the failed dial is not cached. */
  lemma UnreachableListsEmpty(t: Target, r: Remote, root: string)
    requires r.dial(Address(t)).Fail?
    ensures ListDirectoryContents(None, t, r, root).files == []
    ensures ListDirectoryContents(None, t, r, root).events == [Dialed(Address(t)), Dialed(Address(t))]
  {
  }
}
