/** The command-line client of the file server: argument dispatch, the
    request line it sends, the `SIZE` header it reads back, the parent
    directory it creates for a download and the download loop. The socket,
    the local files and `system("mkdir -p …")` are outside the model: what
    they report is a `ClientIo`, and the directory is recorded, not made. */
module Client {
  import opened Wrappers
  import opened CText
  import opened Transfer
  import Server

  /** `sizeof(header)` and `sizeof(request)` less the NUL: the longest
      request `snprintf` writes. */
  const RequestCap: nat := 1023
  /** `sizeof(header) - 1` in `send_get_command`: bytes of the response
      header kept. */
  const HeaderCap: nat := 127
  /** `sizeof(path_copy)`. */
  const PathCopySize: nat := 1024

  /** What `snprintf` keeps of `s` in a buffer of `cap + 1` bytes. */
  function Truncate(s: string, cap: nat): (r: string)
    ensures r <= s && |r| == if |s| <= cap then |s| else cap
  {
    if |s| <= cap then s else s[..cap]
  }

  /** `"WRITE %s %d\n"`. */
  function WriteRequest(remote: string, size: int): string {
    Truncate("WRITE " + remote + " " + IntToString(size) + "\n", RequestCap)
  }

  /** `"GET %s\n"`. */
  function GetRequest(remote: string): string {
    Truncate("GET " + remote + "\n", RequestCap)
  }

  /** `"RM %s\n"`. */
  function RmRequest(remote: string): string {
    Truncate("RM " + remote + "\n", RequestCap)
  }

  /** `strncmp(header, "SIZE", 4) == 0`: the C string starts with SIZE. */
  predicate IsSizeHeader(header: string) {
    "SIZE" <= CString(header)
  }

  /** `sscanf(header, "SIZE %d", &file_size)` after the SIZE check. When no
      number follows, `file_size` keeps whatever the uninitialised variable
      held: `garbage`. */
  function ParseSizeHeader(header: string, garbage: int): int
    requires IsSizeHeader(header)
  {
    match ScanInt(CString(header)[4..])
    case Some(p) => p.0
    case None => garbage
  }

  /** `strrchr(path_copy, '/')` followed by `*p = '\0'`: the local path up to
      its last '/', or nothing when it has none. */
  function ParentDir(local: string): (r: Option<string>)
    ensures r.None? <==> '/' !in local
    ensures r.Some? ==> |r.value| < |local| && local[..|r.value|] == r.value
    ensures r.Some? ==> local[|r.value|] == '/' && '/' !in local[|r.value| + 1..]
  {
    if local == [] then None
    else if local[|local| - 1] == '/' then Some(local[..|local| - 1])
    else
      var r := ParentDir(local[..|local| - 1]);
      assert forall i :: 0 <= i < |local| - 1 ==> local[..|local| - 1][i] == local[i];
      r
  }

  /** What the client's environment reports: the local file `fopen(…, "rb")`
      finds (`None` when it fails), whether `connect_to_server` succeeds,
      whether `fopen(…, "wb")` succeeds, the bytes the server sends that the
      header loop reads, what `recv` returns afterwards, and the value an
      uninitialised `file_size` holds. */
  datatype ClientIo = ClientIo(
    localFile: Option<seq<char>>,
    connects: bool,
    canCreateLocal: bool,
    stream: string,
    chunks: seq<seq<char>>,
    garbage: int)

  /** What a run does: the request it sends, the file bytes it uploads, the
      directory it asks `mkdir -p` for, and the bytes it saves locally. */
  datatype Session = Session(
    request: Option<string>,
    upload: Option<seq<char>>,
    mkdir: Option<string>,
    saved: Option<seq<char>>)

  const NoSession: Session := Session(None, None, None, None)

  /** `send_write_command`: open the local file (1 on failure), connect (1 on
      failure), send the header and the content, return 0 whatever the server
      answers. */
  function WriteRun(remote: string, io: ClientIo): (int, Session) {
    if io.localFile.None? || !io.connects then (1, NoSession)
    else
      var content := io.localFile.value;
      (0, Session(Some(WriteRequest(remote, |content|)), Some(content), None, None))
  }

  /** `send_get_command`: connect, send the request, read the header; a
      header that does not start with SIZE ends the run with 1 before any
      local file is touched; otherwise the parent directory, the local
      `fopen` (1 on failure) and the download loop, then 0. */
  function GetRun(remote: string, local: string, io: ClientIo): (int, Session) {
    if !io.connects then (1, NoSession)
    else
      var header := LineOf(io.stream, HeaderCap);
      var request := Some(GetRequest(remote));
      if !IsSizeHeader(header) then (1, Session(request, None, None, None))
      else if !io.canCreateLocal then (1, Session(request, None, ParentDir(local), None))
      else
        (0, Session(request, None, ParentDir(local),
                    Some(Received(ParseSizeHeader(header, io.garbage), io.chunks))))
  }

  /** `send_rm_command`: connect, send the request, return 0 whatever the
      server answers. */
  function RmRun(remote: string, io: ClientIo): (int, Session) {
    if !io.connects then (1, NoSession) else (0, Session(Some(RmRequest(remote)), None, None, None))
  }

  /** The commands `main` recognises. */
  datatype Invocation =
    | UsageError
    | WriteFile(local: string, remote: string)
    | GetFile(remote: string, local: string)
    | RemoveFile(remote: string)
    | UnknownCommand(word: string)

  /** `main`'s dispatch on `argv` (`args[0]` is the program name). */
  function ParseArgs(args: seq<string>): (inv: Invocation)
    ensures |args| < 2 ==> inv.UsageError?
    ensures inv.WriteFile? <==> |args| == 4 && args[1] == "WRITE"
    ensures inv.WriteFile? ==> inv.local == args[2] && inv.remote == args[3]
    ensures inv.GetFile? <==> |args| == 4 && args[1] == "GET"
    ensures inv.GetFile? ==> inv.remote == args[2] && inv.local == args[3]
    ensures inv.RemoveFile? <==> |args| == 3 && args[1] == "RM"
    ensures inv.RemoveFile? ==> inv.remote == args[2]
    ensures inv.UnknownCommand? <==>
      |args| >= 2 && args[1] != "WRITE" && args[1] != "GET" && args[1] != "RM"
  {
    if |args| < 2 then UsageError
    else if args[1] == "WRITE" then
      if |args| != 4 then UsageError else WriteFile(args[2], args[3])
    else if args[1] == "GET" then
      if |args| != 4 then UsageError else GetFile(args[2], args[3])
    else if args[1] == "RM" then
      if |args| != 3 then UsageError else RemoveFile(args[2])
    else UnknownCommand(args[1])
  }

  /** The whole run of the client for an invocation. */
  function Run(inv: Invocation, io: ClientIo): (int, Session) {
    match inv
    case UsageError => (1, NoSession)
    case UnknownCommand(_) => (1, NoSession)
    case WriteFile(_, remote) => WriteRun(remote, io)
    case GetFile(remote, local) => GetRun(remote, local, io)
    case RemoveFile(remote) => RmRun(remote, io)
  }

  // ---------------------------------------------------------------------
  // The programs' steps

  method SendWriteCommand(local: string, remote: string, io: ClientIo) returns (status: int, s: Session)
    ensures (status, s) == WriteRun(remote, io)
  {
    if io.localFile.None? {
      return 1, NoSession;
    }
    var content := io.localFile.value;
    var fileSize := |content|;
    if !io.connects {
      return 1, NoSession;
    }
    var header := WriteRequest(remote, fileSize);
    var pieces := SendContent(content);
    s := Session(Some(header), Some(Flatten(pieces)), None, None);
    status := 0;
  }

  method SendGetCommand(remote: string, local: string, io: ClientIo) returns (status: int, s: Session)
    requires '\0' !in local && |local| < PathCopySize
    ensures (status, s) == GetRun(remote, local, io)
  {
    if !io.connects {
      return 1, NoSession;
    }
    var request := Some(GetRequest(remote));
    var header, consumed := ReadLine(io.stream, HeaderCap);
    if !IsSizeHeader(header) {
      return 1, Session(request, None, None, None);
    }
    var fileSize := ParseSizeHeader(header, io.garbage);
    var dir := ParentDir(local);
    if !io.canCreateLocal {
      return 1, Session(request, None, dir, None);
    }
    var data, total := ReceiveLoop(fileSize, io.chunks);
    status, s := 0, Session(request, None, dir, Some(data));
  }

  method SendRmCommand(remote: string, io: ClientIo) returns (status: int, s: Session)
    ensures (status, s) == RmRun(remote, io)
  {
    if !io.connects {
      return 1, NoSession;
    }
    status, s := 0, Session(Some(RmRequest(remote)), None, None, None);
  }

  /** `main`. The arguments are C strings; a GET's local path must fit
      `path_copy` with its terminator, since `strncpy` would otherwise leave
      it unterminated. */
  method ClientMain(args: seq<string>, io: ClientIo) returns (status: int, s: Session)
    requires forall i :: 0 <= i < |args| ==> '\0' !in args[i]
    requires |args| == 4 && args[1] == "GET" ==> |args[3]| < PathCopySize
    ensures (status, s) == Run(ParseArgs(args), io)
  {
    var inv := ParseArgs(args);
    match inv {
      case UsageError =>
        status, s := 1, NoSession;
      case UnknownCommand(_) =>
        status, s := 1, NoSession;
      case WriteFile(local, remote) =>
        status, s := SendWriteCommand(local, remote, io);
      case GetFile(remote, local) =>
        status, s := SendGetCommand(remote, local, io);
      case RemoveFile(remote) =>
        status, s := SendRmCommand(remote, io);
    }
  }

  // ---------------------------------------------------------------------
  // Properties of a run

  /** Bad usage and unknown commands return 1 and send nothing. */
  lemma BadInvocationsFail(args: seq<string>, io: ClientIo)
    requires ParseArgs(args).UsageError? || ParseArgs(args).UnknownCommand?
    ensures Run(ParseArgs(args), io) == (1, NoSession)
  {
  }

  /** Once connected, WRITE (with a readable local file) and RM return 0
      whatever the server sends back. */
  lemma WriteAndRmIgnoreTheReply(remote: string, io: ClientIo, stream: string)
    requires io.connects
    ensures RmRun(remote, io).0 == 0 && RmRun(remote, io) == RmRun(remote, io.(stream := stream))
    ensures io.localFile.Some? ==>
      WriteRun(remote, io).0 == 0 && WriteRun(remote, io) == WriteRun(remote, io.(stream := stream))
  {
  }

  /** A GET answered by anything but a SIZE header returns 1 and neither
      creates a directory nor saves a file. */
  lemma ErrorReplyTouchesNoLocalFile(remote: string, local: string, io: ClientIo)
    requires io.connects && !IsSizeHeader(LineOf(io.stream, HeaderCap))
    ensures GetRun(remote, local, io).0 == 1
    ensures GetRun(remote, local, io).1.mkdir.None? && GetRun(remote, local, io).1.saved.None?
  {
  }

  /** The server's "File not found" is such a reply. */
  lemma NotFoundIsNotSize(io: ClientIo)
    requires io.stream == Server.NotFoundReply
    ensures !IsSizeHeader(LineOf(io.stream, HeaderCap))
  {
    var h := LineOf(io.stream, HeaderCap);
    assert h[0] == 'E';
    assert CString(h)[0] == 'E';
  }

  // ---------------------------------------------------------------------
  // Round trips between the client and the server

  /** A request line short enough for both buffers. */
  predicate FitsRequest(line: string) {
    |line| + 1 <= RequestCap
  }

  /** The server parses a WRITE request back into the path and size the
      client put in it, and stops reading exactly at the end of the line, so
      the file content that follows is left for the receive loop. */
  lemma WriteRequestRoundTrip(remote: string, size: int, stale: string, rest: string)
    requires remote != [] && NoSpace(remote) && '\0' !in remote
    requires FitsRequest("WRITE " + remote + " " + IntToString(size))
    ensures var input := WriteRequest(remote, size) + rest;
      Server.ParseCommand(LineOf(input, Server.CommandCap), stale) == Server.Write(remote, size) &&
      LineConsumed(input, Server.CommandCap) == |WriteRequest(remote, size)|
  {
    var num := IntToString(size);
    IntToStringIsToken(size);
    var line := "WRITE " + remote + " " + num;
    assert '\n' !in line by {
      assert forall i :: 0 <= i < |remote| ==> remote[i] != '\n';
      assert line == "WRITE " + remote + " " + num;
    }
    assert WriteRequest(remote, size) + rest == line + "\n" + rest;
    LineOfTerminated(line, rest, Server.CommandCap);
    WriteLineParses(remote, size, stale);
  }

  lemma WriteLineParses(remote: string, size: int, stale: string)
    requires remote != [] && NoSpace(remote) && '\0' !in remote
    ensures Server.ParseCommand("WRITE " + remote + " " + IntToString(size), stale) == Server.Write(remote, size)
  {
    var num := IntToString(size);
    IntToStringIsToken(size);
    var line := "WRITE " + remote + " " + num;
    assert '\0' !in line;
    var after := " " + remote + " " + num;
    assert line == "WRITE" + after;
    ScanStringOfToken("WRITE", after);
    assert after == " " + (remote + (" " + num));
    ScanAfterBlank(remote + (" " + num));
    ScanStringOfToken(remote, " " + num);
    assert Server.SecondToken(line) == Some((remote, " " + num));
    ScanAfterBlank(num);
    ScanIntOfIntToString(size, []);
    assert num + [] == num;
    Server.ParseWriteLine(line, stale, remote, size);
  }

  /** The same for GET. */
  lemma GetRequestRoundTrip(remote: string, stale: string, rest: string)
    requires remote != [] && NoSpace(remote) && '\0' !in remote
    requires FitsRequest("GET " + remote)
    ensures var input := GetRequest(remote) + rest;
      Server.ParseCommand(LineOf(input, Server.CommandCap), stale) == Server.Get(remote) &&
      LineConsumed(input, Server.CommandCap) == |GetRequest(remote)|
  {
    var line := "GET " + remote;
    assert '\n' !in line by {
      assert forall i :: 0 <= i < |remote| ==> remote[i] != '\n';
    }
    assert GetRequest(remote) + rest == line + "\n" + rest;
    LineOfTerminated(line, rest, Server.CommandCap);
    GetLineParses(remote, stale);
  }

  lemma GetLineParses(remote: string, stale: string)
    requires remote != [] && NoSpace(remote) && '\0' !in remote
    ensures Server.ParseCommand("GET " + remote, stale) == Server.Get(remote)
  {
    var line := "GET " + remote;
    assert line == "GET" + (" " + remote);
    ScanStringOfToken("GET", " " + remote);
    ScanAfterBlank(remote);
    ScanStringOfToken(remote, []);
    assert remote + [] == remote;
    assert '\0' !in line;
    Server.ParseGetLine(line, stale, remote);
  }

  /** The same for RM. */
  lemma RmRequestRoundTrip(remote: string, stale: string, rest: string)
    requires remote != [] && NoSpace(remote) && '\0' !in remote
    requires FitsRequest("RM " + remote)
    ensures var input := RmRequest(remote) + rest;
      Server.ParseCommand(LineOf(input, Server.CommandCap), stale) == Server.Rm(remote) &&
      LineConsumed(input, Server.CommandCap) == |RmRequest(remote)|
  {
    var line := "RM " + remote;
    assert '\n' !in line by {
      assert forall i :: 0 <= i < |remote| ==> remote[i] != '\n';
    }
    assert RmRequest(remote) + rest == line + "\n" + rest;
    LineOfTerminated(line, rest, Server.CommandCap);
    RmLineParses(remote, stale);
  }

  lemma RmLineParses(remote: string, stale: string)
    requires remote != [] && NoSpace(remote) && '\0' !in remote
    ensures Server.ParseCommand("RM " + remote, stale) == Server.Rm(remote)
  {
    var line := "RM " + remote;
    assert line == "RM" + (" " + remote);
    ScanStringOfToken("RM", " " + remote);
    ScanAfterBlank(remote);
    ScanStringOfToken(remote, []);
    assert remote + [] == remote;
    assert '\0' !in line;
    Server.ParseRmLine(line, stale, remote);
  }

  /** The client reads the server's `SIZE n` header back as `n` for every
      size a C `int` holds, and stops reading right after it. */
  lemma SizeHeaderRoundTrip(n: nat, rest: string, garbage: int)
    requires n <= Server.IntMax
    ensures var h := LineOf(Server.SizeHeader(n) + rest, HeaderCap);
      IsSizeHeader(h) && ParseSizeHeader(h, garbage) == n &&
      LineConsumed(Server.SizeHeader(n) + rest, HeaderCap) == |Server.SizeHeader(n)|
  {
    var num := IntToString(n);
    IntToStringIsToken(n);
    NatToStringLength(n, 10);
    var line := "SIZE " + num;
    assert '\n' !in line;
    assert Server.SizeHeader(n) + rest == line + "\n" + rest;
    LineOfTerminated(line, rest, HeaderCap);
    CStringOfAppend(line, []);
    assert line + [] == line;
    assert line[4..] == " " + num;
    ScanAfterBlank(num);
    ScanIntOfIntToString(n, []);
    assert num + [] == num;
  }

  /** A GET of an existing file, end to end: the server's reply carries the
      file; a client that reads the header from it and receives the content in
      non-empty chunks saves exactly the file. */
  lemma DownloadRoundTrip(p: string, fs: Server.FsOracle, remote: string, local: string, io: ClientIo)
    requires fs.readable.Some? && |fs.readable.value| <= Server.IntMax
    requires io.connects && io.canCreateLocal
    requires Server.Outcome(Server.Get(p), false, fs, []).0 == Server.Reply(io.stream)
    requires Flatten(io.chunks) == fs.readable.value
    requires forall j :: 0 <= j < |io.chunks| ==> io.chunks[j] != []
    ensures GetRun(remote, local, io).0 == 0
    ensures GetRun(remote, local, io).1.saved == Some(fs.readable.value)
  {
    var c := fs.readable.value;
    SizeHeaderRoundTrip(|c|, c, io.garbage);
    ReceivedExactFrame(io.chunks);
  }
}
