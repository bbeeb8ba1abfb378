/** The sequential decisions of the multithreaded file server: reading one
    command line, parsing it with `sscanf`, and running WRITE, GET or RM
    against the path-lock registry. Sockets, threads and the file system are
    outside the model: what `recv` returns after the command line is the
    `chunks` parameter, and what `fopen`, `stat`, `rmdir` and `remove` report is
    an `FsOracle`. */
module Server {
  import opened Wrappers
  import opened CText
  import opened Transfer
  import opened PathLocks

  /** `ROOT_FOLDER`. */
  const RootFolder: string := "server_root"
  /** `sizeof(command_buf) - 1`: bytes of the command line kept. */
  const CommandCap: nat := 1023
  /** `sizeof(full_path)`. */
  const FullPathSize: nat := 2048
  /** Largest C `int`. */
  const IntMax: int := 0x7fff_ffff

  const OkReply: string := "OK\n"
  const InvalidWriteReply: string := "ERROR: Invalid WRITE format\n"
  const InvalidGetReply: string := "ERROR: Invalid GET format\n"
  const InvalidRmReply: string := "ERROR: Invalid RM format\n"
  const UnknownReply: string := "ERROR: Unknown command\n"
  const NotFoundReply: string := "ERROR: File not found\n"
  const UnableToDeleteReply: string := "ERROR: Unable to delete\n"

  /** A parsed command line. The `Bad…` forms are the three format errors. */
  datatype Command =
    | Write(path: string, size: int)
    | Get(path: string)
    | Rm(path: string)
    | BadWrite
    | BadGet
    | BadRm
    | Unknown

  /** What the server sends back. `NoReply` is a request that waits for ever
      on a path lock that an earlier request left held. */
  datatype Reply = Reply(text: string) | NoReply

  /** The answers of the file system for the one path a request names:
      whether `fopen(…, "wb")` succeeds, what `fopen(…, "rb")` finds (`None`
      when it fails), what `stat` finds (`None` when it fails, otherwise
      whether it is a directory), and what `rmdir`/`remove` return. */
  datatype FsOracle = FsOracle(
    openForWrite: bool,
    readable: Option<seq<char>>,
    stat: Option<bool>,
    removeResult: int)

  /** The one file-system change a request asks for. */
  datatype FsEffect =
    | Untouched
    | Written(mkdirs: seq<string>, data: Option<seq<char>>)
    | RemovedDir(dir: string, result: int)
    | RemovedFile(file: string, result: int)

  // ---------------------------------------------------------------------
  // Reading and parsing the command line

  /** The first `%s` token of the line. When there is none, `sscanf` leaves
      `command` uninitialised and the old contents of that stack buffer,
      `stale`, are what `strcmp` compares. */
  function Keyword(line: string, stale: string): string {
    match ScanString(line)
    case Some(p) => p.0
    case None => stale
  }

  /** `%*s %s`: the second token of the line and what is left unread. */
  function SecondToken(line: string): Option<(string, string)> {
    match ScanString(line)
    case None => None
    case Some(p) => ScanString(p.1)
  }

  /** `sscanf(command_buf, "%*s %s", remote_path) == 1`. */
  function ScanPath(line: string): Option<string> {
    match SecondToken(line)
    case None => None
    case Some(q) => Some(q.0)
  }

  /** `sscanf(command_buf, "%*s %s %d", remote_path, &file_size) == 2`. */
  function ScanPathAndSize(line: string): Option<(string, int)> {
    match SecondToken(line)
    case None => None
    case Some(q) =>
      match ScanInt(q.1)
      case None => None
      case Some(n) => Some((q.0, n.0))
  }

  /** The dispatch of `handle_client`: the first token, matched exactly and
      case-sensitively against WRITE, GET and RM, picks the format of the
      rest of the line; tokens after the expected ones are ignored. */
  function ParseCommand(buf: string, stale: string): Command {
    ParseLine(CString(buf), stale)
  }

  /** The dispatch on the command line as `sscanf` sees it, up to its NUL. */
  function ParseLine(line: string, stale: string): Command {
    var kw := Keyword(line, stale);
    if kw == "WRITE" then
      match ScanPathAndSize(line)
      case Some(ps) => Write(ps.0, ps.1)
      case None => BadWrite
    else if kw == "GET" then
      match ScanPath(line)
      case Some(p) => Get(p)
      case None => BadGet
    else if kw == "RM" then
      match ScanPath(line)
      case Some(p) => Rm(p)
      case None => BadRm
    else Unknown
  }

  /** Dispatch is by exact, case-sensitive match of the first token: WRITE,
      GET and RM each lead to their command or their format error, anything
      else to the unknown-command error; a parsed path is a non-empty token
      without white space. */
  lemma DispatchByKeyword(buf: string, stale: string)
    ensures var c := ParseCommand(buf, stale); var kw := Keyword(CString(buf), stale);
      (c.Write? || c.BadWrite? <==> kw == "WRITE") &&
      (c.Get? || c.BadGet? <==> kw == "GET") &&
      (c.Rm? || c.BadRm? <==> kw == "RM") &&
      (c.Unknown? <==> kw != "WRITE" && kw != "GET" && kw != "RM")
    ensures var c := ParseCommand(buf, stale);
      (c.Write? || c.Get? || c.Rm?) ==> c.path != [] && NoSpace(c.path)
  {
    var line := CString(buf);
    if SecondToken(line).Some? {
      ScanStringShape(ScanString(line).value.1);
    }
  }

  /** How a line with a keyword, a path and a number parses. */
  lemma ParseWriteLine(line: string, stale: string, path: string, size: int)
    requires '\0' !in line && Keyword(line, stale) == "WRITE"
    requires SecondToken(line).Some? && SecondToken(line).value.0 == path
    requires ScanInt(SecondToken(line).value.1).Some? && ScanInt(SecondToken(line).value.1).value.0 == size
    ensures ParseCommand(line, stale) == Write(path, size)
  {
    CStringOfAppend(line, []);
    assert line + [] == line;
  }

  /** How a GET line parses. */
  lemma ParseGetLine(line: string, stale: string, path: string)
    requires '\0' !in line && Keyword(line, stale) == "GET"
    requires SecondToken(line).Some? && SecondToken(line).value.0 == path
    ensures ParseCommand(line, stale) == Get(path)
  {
    CStringOfAppend(line, []);
    assert line + [] == line;
    assert CString(line) == line;
    var kw := Keyword(line, stale);
    assert kw != "WRITE" by {
      assert |kw| == 3;
    }
    assert ScanPath(line) == Some(path);
  }

  /** How an RM line parses. */
  lemma ParseRmLine(line: string, stale: string, path: string)
    requires '\0' !in line && Keyword(line, stale) == "RM"
    requires SecondToken(line).Some? && SecondToken(line).value.0 == path
    ensures ParseCommand(line, stale) == Rm(path)
  {
    CStringOfAppend(line, []);
    assert line + [] == line;
    assert CString(line) == line;
    var kw := Keyword(line, stale);
    assert kw != "WRITE" && kw != "GET" by {
      assert |kw| == 2;
    }
    assert ScanPath(line) == Some(path);
  }

  /** A line with no token never reaches a file operation, whatever the
      uninitialised keyword buffer happens to hold. */
  lemma BlankLineNeverActs(buf: string, stale: string)
    requires forall i :: 0 <= i < |CString(buf)| ==> IsSpace(CString(buf)[i])
    ensures var c := ParseCommand(buf, stale); !c.Write? && !c.Get? && !c.Rm?
  {
    ScanStringFailsOnBlank(CString(buf));
  }

  /** Tokens after the ones a command needs are ignored: appending a blank
      and anything else to a well-formed command line parses the same. */
  lemma TrailingTokensIgnored(buf: string, extra: string, stale: string)
    requires '\0' !in buf
    requires ParseCommand(buf, stale).Write? || ParseCommand(buf, stale).Get? || ParseCommand(buf, stale).Rm?
    ensures ParseCommand(buf + " " + extra, stale) == ParseCommand(buf, stale)
  {
    var t := " " + CString(extra);
    CStringBlankExtend(buf, extra);
    CStringOfAppend(buf, []);
    assert buf + [] == buf;
    ParseLineExtend(buf, t, stale);
  }

  lemma CStringBlankExtend(buf: string, extra: string)
    requires '\0' !in buf
    ensures CString(buf + " " + extra) == buf + (" " + CString(extra))
  {
    CStringOfAppend(buf, " " + extra);
    assert CString(" " + extra) == " " + CString(extra) by {
      assert (" " + extra)[1..] == extra;
    }
    assert buf + " " + extra == buf + (" " + extra);
  }

  lemma ParseLineExtend(line: string, t: string, stale: string)
    requires ParseLine(line, stale).Write? || ParseLine(line, stale).Get? || ParseLine(line, stale).Rm?
    requires t != [] && IsSpace(t[0])
    ensures ParseLine(line + t, stale) == ParseLine(line, stale)
  {
    ScanStringExtend(line, t);
    assert Keyword(line + t, stale) == Keyword(line, stale);
    if ParseLine(line, stale).Write? {
      ScanPathAndSizeExtend(line, t);
    } else {
      ScanPathExtend(line, t);
    }
  }

  lemma SecondTokenExtend(line: string, t: string)
    requires SecondToken(line).Some? && t != [] && IsSpace(t[0])
    ensures SecondToken(line + t) == Some((SecondToken(line).value.0, SecondToken(line).value.1 + t))
  {
    var p := ScanString(line).value;
    ScanStringExtend(line, t);
    ScanStringExtend(p.1, t);
  }

  lemma ScanPathExtend(line: string, t: string)
    requires ScanPath(line).Some? && t != [] && IsSpace(t[0])
    ensures ScanPath(line + t) == ScanPath(line)
  {
    SecondTokenExtend(line, t);
  }

  lemma ScanPathAndSizeExtend(line: string, t: string)
    requires ScanPathAndSize(line).Some? && t != [] && IsSpace(t[0])
    ensures ScanPathAndSize(line + t) == ScanPathAndSize(line)
  {
    var q := SecondToken(line).value;
    SecondTokenExtend(line, t);
    ScanIntExtend(q.1, t);
  }

  // ---------------------------------------------------------------------
  // WRITE: intermediate directories and the receive loop

  /** The prefixes `full[..k]` for every `k >= from` with `full[k] == '/'`,
      left to right: the directories `receive_file` passes to `mkdir`. */
  function DirPrefixes(full: string, from: nat): seq<string>
    decreases |full| - from
  {
    if from >= |full| then []
    else (if full[from] == '/' then [full[..from]] else []) + DirPrefixes(full, from + 1)
  }

  /** One step of `DirPrefixes`. */
  lemma DirPrefixesStep(full: string, from: nat)
    requires from < |full|
    ensures DirPrefixes(full, from) ==
      (if full[from] == '/' then [full[..from]] else []) + DirPrefixes(full, from + 1)
  {
  }

  /** The mkdir list holds exactly the prefixes that end just before a '/'
      at or after `from`. */
  lemma {:induction false} DirPrefixesExactly(full: string, from: nat)
    ensures forall p :: p in DirPrefixes(full, from) <==>
      exists k :: from <= k < |full| && full[k] == '/' && p == full[..k]
    decreases |full| - from
  {
    if from < |full| {
      DirPrefixesExactly(full, from + 1);
      DirPrefixesStep(full, from);
      var rest := DirPrefixes(full, from + 1);
      if full[from] == '/' {
        forall p | p in [full[..from]] + rest
          ensures exists k :: from <= k < |full| && full[k] == '/' && p == full[..k]
        {
          if p != full[..from] {
            assert p in rest;
          }
        }
      } else {
        forall p | exists k :: from <= k < |full| && full[k] == '/' && p == full[..k]
          ensures p in rest
        {
          var k :| from <= k < |full| && full[k] == '/' && p == full[..k];
          assert k != from;
        }
      }
    }
  }

  /** The mkdir list runs left to right: each prefix is longer than the one
      before, so none repeats, and all end inside the path at or after
      `from`. */
  lemma {:induction false} DirPrefixesIncreasing(full: string, from: nat)
    ensures forall i, j :: 0 <= i < j < |DirPrefixes(full, from)| ==>
      |DirPrefixes(full, from)[i]| < |DirPrefixes(full, from)[j]|
    ensures forall i :: 0 <= i < |DirPrefixes(full, from)| ==>
      from <= |DirPrefixes(full, from)[i]| < |full|
    decreases |full| - from
  {
    if from < |full| {
      DirPrefixesIncreasing(full, from + 1);
      DirPrefixesStep(full, from);
      var rest := DirPrefixes(full, from + 1);
      if full[from] == '/' {
        var all := [full[..from]] + rest;
        forall i, j | 0 <= i < j < |all| ensures |all[i]| < |all[j]| {
          if i > 0 {
            assert all[i] == rest[i - 1] && all[j] == rest[j - 1];
          } else {
            assert all[j] == rest[j - 1];
          }
        }
        forall i | 0 <= i < |all| ensures from <= |all[i]| < |full| {
          if i > 0 {
            assert all[i] == rest[i - 1];
          }
        }
      }
    }
  }

  /** The directory step of `receive_file`: `full_path` is built as
      `server_root/<path>` and the directory loop runs along it after the
      root. */
  method MakeIntermediateDirs(remotePath: string) returns (mkdirs: seq<string>, fullPath: string)
    requires '\0' !in remotePath
    requires |RootFolder| + 1 + |remotePath| < FullPathSize
    ensures fullPath == RootFolder + "/" + remotePath
    ensures mkdirs == DirPrefixes(fullPath, |RootFolder| + 1)
  {
    var s := RootFolder + "/" + remotePath;
    assert '\0' !in s by {
      assert forall i :: 0 <= i < |s| ==> s[i] == (if i <= |RootFolder| then (RootFolder + "/")[i] else remotePath[i - |RootFolder| - 1]);
    }
    mkdirs, fullPath := MkdirAlong(s, |RootFolder| + 1);
  }

  /** The directory loop: the path is copied into a NUL-terminated buffer,
      every '/' from `start` on is overwritten with a NUL, `mkdir` is called
      on what the buffer then spells, and the '/' is put back; afterwards
      the buffer spells the path again. */
  method MkdirAlong(s: string, start: nat) returns (mkdirs: seq<string>, spelled: string)
    requires '\0' !in s && start <= |s|
    ensures spelled == s
    ensures mkdirs == DirPrefixes(s, start)
  {
    var buf := new char[|s| + 1](i => if 0 <= i < |s| then s[i] else '\0');
    var p := start;
    mkdirs := [];
    while buf[p] != '\0'
      invariant start <= p <= |s|
      invariant buf[..] == s + ['\0']
      invariant mkdirs + DirPrefixes(s, p) == DirPrefixes(s, start)
      decreases |s| - p
    {
      MkdirsStep(mkdirs, s, p, start);
      if buf[p] == '/' {
        var dir := CutAt(buf, p, s);
        mkdirs := mkdirs + [dir];
      }
      p := p + 1;
    }
    assert DirPrefixes(s, p) == [];
    CStringAtNul(s, []);
    spelled := CString(buf[..]);
  }

  /** `*p = '\0'; mkdir(full_path); *p = '/'`: the directory named is what
      the buffer spells while cut at `p`, and the buffer is restored. */
  method CutAt(buf: array<char>, p: nat, ghost s: string) returns (dir: string)
    requires '\0' !in s && p < |s| && s[p] == '/' && buf[..] == s + ['\0']
    modifies buf
    ensures dir == s[..p] && buf[..] == s + ['\0']
  {
    buf[p] := '\0';
    CStringNulAt(s, p);
    dir := CString(buf[..]);
    buf[p] := '/';
    assert buf[..] == s + ['\0'];
  }

  /** Cutting a NUL-free string at `p` with a NUL reads as its first `p`
      characters. */
  lemma CStringNulAt(s: string, p: nat)
    requires '\0' !in s && p < |s|
    ensures CString((s + ['\0'])[p := '\0']) == s[..p]
  {
    var b := (s + ['\0'])[p := '\0'];
    assert b == s[..p] + ['\0'] + (s[p + 1..] + ['\0']);
    CStringAtNul(s[..p], s[p + 1..] + ['\0']);
  }

  /** One pass of the directory loop moves one position of `DirPrefixes`
      into the `mkdir` list. */
  lemma MkdirsStep(mkdirs: seq<string>, s: string, p: nat, start: nat)
    requires p < |s| && mkdirs + DirPrefixes(s, p) == DirPrefixes(s, start)
    ensures (mkdirs + if s[p] == '/' then [s[..p]] else []) + DirPrefixes(s, p + 1) == DirPrefixes(s, start)
  {
    DirPrefixesStep(s, p);
    var d := if s[p] == '/' then [s[..p]] else [];
    assert mkdirs + (d + DirPrefixes(s, p + 1)) == (mkdirs + d) + DirPrefixes(s, p + 1);
  }

  // ---------------------------------------------------------------------
  // The outcome of one request

  /** `full_path`: `snprintf(full_path, 2048, "%s/%s", ROOT_FOLDER, path)`.
      A path from a command line of at most 1023 bytes always fits. */
  function FullPath(remotePath: string): string {
    RootFolder + "/" + remotePath
  }

  /** The GET response header, `snprintf(header, 128, "SIZE %d\n", n)`. */
  function SizeHeader(n: int): string {
    "SIZE " + IntToString(n) + "\n"
  }

  /** The path whose lock a request takes. GET opens the file first and
      takes no lock when that fails; format errors take none. */
  function LockedPath(cmd: Command, fs: FsOracle): Option<string> {
    match cmd
    case Write(p, _) => Some(p)
    case Get(p) => if fs.readable.Some? then Some(p) else None
    case Rm(p) => Some(p)
    case _ => None
  }

  /** The early returns that skip the unlock in the server as written:
      `fopen` failing in WRITE, `stat` failing in RM. */
  predicate LeaksLock(cmd: Command, fs: FsOracle) {
    (cmd.Write? && !fs.openForWrite) || (cmd.Rm? && fs.stat.None?)
  }

  /** What a request sends and does to the file system, given whether the
      lock it takes was found held (`blocked`). WRITE answers OK even when
      `fopen` failed; GET reports a missing file before taking the lock. */
  function Outcome(cmd: Command, blocked: bool, fs: FsOracle, chunks: seq<seq<char>>): (Reply, FsEffect) {
    match cmd
    case Write(p, n) =>
      if blocked then (NoReply, Untouched)
      else (Reply(OkReply),
            Written(DirPrefixes(FullPath(p), |RootFolder| + 1),
                    if fs.openForWrite then Some(Received(n, chunks)) else None))
    case Get(p) =>
      if fs.readable.None? then (Reply(NotFoundReply), Untouched)
      else if blocked then (NoReply, Untouched)
      else (Reply(SizeHeader(|fs.readable.value|) + fs.readable.value), Untouched)
    case Rm(p) =>
      if blocked then (NoReply, Untouched)
      else if fs.stat.None? then (Reply(NotFoundReply), Untouched)
      else
        (Reply(if fs.removeResult == 0 then OkReply else UnableToDeleteReply),
         if fs.stat.value then RemovedDir(FullPath(p), fs.removeResult)
         else RemovedFile(FullPath(p), fs.removeResult))
    case BadWrite => (Reply(InvalidWriteReply), Untouched)
    case BadGet => (Reply(InvalidGetReply), Untouched)
    case BadRm => (Reply(InvalidRmReply), Untouched)
    case Unknown => (Reply(UnknownReply), Untouched)
  }

  /** A request goes unanswered exactly when it waits on a lock found held;
      a request that takes no lock is always answered. */
  lemma OnlyBlockedRequestsHang(cmd: Command, blocked: bool, fs: FsOracle, chunks: seq<seq<char>>)
    ensures Outcome(cmd, blocked, fs, chunks).0.NoReply? <==> blocked && LockedPath(cmd, fs).Some?
  {
  }

  /** Malformed and unknown commands answer with their error and touch no
      file; so does a GET, and so does any request that hangs. */
  lemma OnlyWriteAndRmTouchFiles(cmd: Command, blocked: bool, fs: FsOracle, chunks: seq<seq<char>>)
    ensures !cmd.Write? && !cmd.Rm? ==> Outcome(cmd, blocked, fs, chunks).1 == Untouched
    ensures Outcome(cmd, blocked, fs, chunks).0.NoReply? ==> Outcome(cmd, blocked, fs, chunks).1 == Untouched
    ensures cmd.BadWrite? ==> Outcome(cmd, blocked, fs, chunks).0 == Reply(InvalidWriteReply)
    ensures cmd.BadGet? ==> Outcome(cmd, blocked, fs, chunks).0 == Reply(InvalidGetReply)
    ensures cmd.BadRm? ==> Outcome(cmd, blocked, fs, chunks).0 == Reply(InvalidRmReply)
    ensures cmd.Unknown? ==> Outcome(cmd, blocked, fs, chunks).0 == Reply(UnknownReply)
  {
  }

  /** A WRITE whose sender delivers exactly the announced bytes in non-empty
      chunks stores exactly those bytes; OK is sent however many arrive. */
  lemma WriteStoresWhatWasSent(p: string, fs: FsOracle, chunks: seq<seq<char>>)
    requires fs.openForWrite
    requires forall j :: 0 <= j < |chunks| ==> chunks[j] != []
    ensures var o := Outcome(Write(p, |Flatten(chunks)|), false, fs, chunks);
      o.0 == Reply(OkReply) && o.1.Written? && o.1.data == Some(Flatten(chunks))
  {
    ReceivedExactFrame(chunks);
  }

  /** A WRITE with a size of zero or less creates an empty file and still
      answers OK. */
  lemma NonPositiveSizeWritesEmptyFile(p: string, n: int, fs: FsOracle, chunks: seq<seq<char>>)
    requires n <= 0 && fs.openForWrite
    ensures Outcome(Write(p, n), false, fs, chunks) ==
      (Reply(OkReply), Written(DirPrefixes(FullPath(p), |RootFolder| + 1), Some([])))
  {
  }

  /** RM removes a directory with `rmdir` and anything else with `remove`, and
      answers OK exactly when that call returned 0. */
  lemma RmDecision(p: string, fs: FsOracle)
    requires fs.stat.Some?
    ensures var o := Outcome(Rm(p), false, fs, []);
      (o.0 == Reply(OkReply) <==> fs.removeResult == 0) &&
      (o.0 != Reply(OkReply) ==> o.0 == Reply(UnableToDeleteReply)) &&
      (fs.stat.value ==> o.1 == RemovedDir(FullPath(p), fs.removeResult)) &&
      (!fs.stat.value ==> o.1 == RemovedFile(FullPath(p), fs.removeResult))
  {
  }

  // ---------------------------------------------------------------------
  // The request handlers

  /** `receive_file` as written: lock, directories, `fopen`, receive loop,
      unlock. When `fopen` fails it returns without unlocking, so the path's
      slot stays held. */
  method ReceiveFileAsWritten(reg: LockRegistry, remotePath: string, fileSize: int,
                              fs: FsOracle, chunks: seq<seq<char>>)
    returns (blocked: bool, effect: FsEffect)
    requires reg.Valid() && '\0' !in remotePath && |FullPath(remotePath)| < FullPathSize
    modifies reg, reg.paths, reg.held
    ensures reg.Valid() && reg.paths == old(reg.paths) && reg.held == old(reg.held)
    ensures reg.Registered() == Register(old(reg.Registered()), remotePath)
    ensures blocked == reg.WasHeld(remotePath, old(reg.count), old(reg.held[..]))
    ensures effect == Outcome(Write(remotePath, fileSize), blocked, fs, chunks).1
    ensures reg.HeldAfter(remotePath, old(reg.held[..]), blocked || !fs.openForWrite)
  {
    var slot := reg.GetFileMutex(remotePath);
    blocked := reg.Acquire(slot);
    if blocked {
      return true, Untouched;
    }
    var mkdirs, fullPath := MakeIntermediateDirs(remotePath);
    if !fs.openForWrite {
      return false, Written(mkdirs, None);
    }
    var data, total := ReceiveLoop(fileSize, chunks);
    reg.Release(slot);
    effect := Written(mkdirs, Some(data));
  }

  /** `receive_file` with the unlock on every path out: the failed `fopen`
      releases the lock too. */
  method ReceiveFile(reg: LockRegistry, remotePath: string, fileSize: int,
                     fs: FsOracle, chunks: seq<seq<char>>)
    returns (blocked: bool, effect: FsEffect)
    requires reg.Valid() && '\0' !in remotePath && |FullPath(remotePath)| < FullPathSize
    modifies reg, reg.paths, reg.held
    ensures reg.Valid() && reg.paths == old(reg.paths) && reg.held == old(reg.held)
    ensures reg.Registered() == Register(old(reg.Registered()), remotePath)
    ensures blocked == reg.WasHeld(remotePath, old(reg.count), old(reg.held[..]))
    ensures effect == Outcome(Write(remotePath, fileSize), blocked, fs, chunks).1
    ensures reg.HeldAfter(remotePath, old(reg.held[..]), blocked)
  {
    var slot := reg.GetFileMutex(remotePath);
    blocked := reg.Acquire(slot);
    if blocked {
      return true, Untouched;
    }
    var mkdirs, fullPath := MakeIntermediateDirs(remotePath);
    if !fs.openForWrite {
      reg.Release(slot);
      return false, Written(mkdirs, None);
    }
    var data, total := ReceiveLoop(fileSize, chunks);
    reg.Release(slot);
    effect := Written(mkdirs, Some(data));
  }

  /** `send_file`: `fopen` first (a missing file is answered before any lock
      is taken), then the locked transfer. */
  method SendFile(reg: LockRegistry, remotePath: string, fs: FsOracle)
    returns (blocked: bool, reply: Reply)
    requires reg.Valid()
    modifies reg, reg.paths, reg.held
    ensures reg.Valid() && reg.paths == old(reg.paths) && reg.held == old(reg.held)
    ensures fs.readable.None? ==>
      !blocked && reg.Registered() == old(reg.Registered()) && reg.held[..] == old(reg.held[..])
    ensures fs.readable.Some? ==>
      reg.Registered() == Register(old(reg.Registered()), remotePath) &&
      blocked == reg.WasHeld(remotePath, old(reg.count), old(reg.held[..])) &&
      reg.HeldAfter(remotePath, old(reg.held[..]), blocked)
    ensures reply == Outcome(Get(remotePath), blocked, fs, []).0
  {
    if fs.readable.None? {
      return false, Reply(NotFoundReply);
    }
    blocked, reply := SendLocked(reg, remotePath, fs.readable.value);
  }

  /** The part of `send_file` after a successful `fopen`: lock, `SIZE <n>\n`,
      the content in buffer-sized pieces, unlock. */
  method SendLocked(reg: LockRegistry, remotePath: string, content: seq<char>)
    returns (blocked: bool, reply: Reply)
    requires reg.Valid()
    modifies reg, reg.paths, reg.held
    ensures reg.Valid() && reg.paths == old(reg.paths) && reg.held == old(reg.held)
    ensures reg.Registered() == Register(old(reg.Registered()), remotePath)
    ensures blocked == reg.WasHeld(remotePath, old(reg.count), old(reg.held[..]))
    ensures reg.HeldAfter(remotePath, old(reg.held[..]), blocked)
    ensures reply == if blocked then NoReply else Reply(SizeHeader(|content|) + content)
  {
    var slot := reg.GetFileMutex(remotePath);
    blocked := reg.Acquire(slot);
    if blocked {
      return true, NoReply;
    }
    var pieces := SendContent(content);
    reply := Reply(SizeHeader(|content|) + Flatten(pieces));
    reg.Release(slot);
  }

  /** `remove_file_or_dir` as written: lock, `stat`, `rmdir` or `remove`,
      reply, unlock. A failed `stat` answers and returns without unlocking. */
  method RemoveFileOrDirAsWritten(reg: LockRegistry, remotePath: string, fs: FsOracle)
    returns (blocked: bool, reply: Reply, effect: FsEffect)
    requires reg.Valid()
    modifies reg, reg.paths, reg.held
    ensures reg.Valid() && reg.paths == old(reg.paths) && reg.held == old(reg.held)
    ensures reg.Registered() == Register(old(reg.Registered()), remotePath)
    ensures blocked == reg.WasHeld(remotePath, old(reg.count), old(reg.held[..]))
    ensures (reply, effect) == Outcome(Rm(remotePath), blocked, fs, [])
    ensures reg.HeldAfter(remotePath, old(reg.held[..]), blocked || fs.stat.None?)
  {
    var slot := reg.GetFileMutex(remotePath);
    blocked := reg.Acquire(slot);
    if blocked {
      return true, NoReply, Untouched;
    }
    if fs.stat.None? {
      return false, Reply(NotFoundReply), Untouched;
    }
    var result := fs.removeResult;
    if fs.stat.value {
      effect := RemovedDir(FullPath(remotePath), result);
    } else {
      effect := RemovedFile(FullPath(remotePath), result);
    }
    if result == 0 {
      reply := Reply(OkReply);
    } else {
      reply := Reply(UnableToDeleteReply);
    }
    reg.Release(slot);
  }

  /** `remove_file_or_dir` with the unlock on every path out. */
  method RemoveFileOrDir(reg: LockRegistry, remotePath: string, fs: FsOracle)
    returns (blocked: bool, reply: Reply, effect: FsEffect)
    requires reg.Valid()
    modifies reg, reg.paths, reg.held
    ensures reg.Valid() && reg.paths == old(reg.paths) && reg.held == old(reg.held)
    ensures reg.Registered() == Register(old(reg.Registered()), remotePath)
    ensures blocked == reg.WasHeld(remotePath, old(reg.count), old(reg.held[..]))
    ensures (reply, effect) == Outcome(Rm(remotePath), blocked, fs, [])
    ensures reg.HeldAfter(remotePath, old(reg.held[..]), blocked)
  {
    var slot := reg.GetFileMutex(remotePath);
    blocked := reg.Acquire(slot);
    if blocked {
      return true, NoReply, Untouched;
    }
    if fs.stat.None? {
      reg.Release(slot);
      return false, Reply(NotFoundReply), Untouched;
    }
    var result := fs.removeResult;
    if fs.stat.value {
      effect := RemovedDir(FullPath(remotePath), result);
    } else {
      effect := RemovedFile(FullPath(remotePath), result);
    }
    if result == 0 {
      reply := Reply(OkReply);
    } else {
      reply := Reply(UnableToDeleteReply);
    }
    reg.Release(slot);
  }

  /** A path parsed from a command line has no NUL and is no longer than the
      line, so `server_root/<path>` fits `full_path`. */
  lemma ParsedPathFits(buf: string, stale: string)
    requires |buf| <= CommandCap
    ensures var c := ParseCommand(buf, stale);
      (c.Write? || c.Get? || c.Rm?) ==> '\0' !in c.path && |FullPath(c.path)| < FullPathSize
  {
    var line := CString(buf);
    var c := ParseCommand(buf, stale);
    if c.Write? || c.Get? || c.Rm? {
      var pr := ScanString(line).value;
      ScanStringWithin(line);
      ScanStringWithin(pr.1);
      var q := ScanString(pr.1).value;
      assert c.path == q.0;
      assert |q.0| <= |pr.1| <= |line|;
    }
  }

  /** Ready to be dispatched: a path fits `full_path` and has no NUL. */
  predicate Dispatchable(cmd: Command) {
    (cmd.Write? || cmd.Get? || cmd.Rm?) ==> '\0' !in cmd.path && |FullPath(cmd.path)| < FullPathSize
  }

  /** The dispatch of `handle_client`, with the fixed handlers. */
  method Dispatch(reg: LockRegistry, cmd: Command, fs: FsOracle, chunks: seq<seq<char>>)
    returns (blocked: bool, reply: Reply, effect: FsEffect)
    requires reg.Valid() && Dispatchable(cmd)
    modifies reg, reg.paths, reg.held
    ensures reg.Valid() && reg.paths == old(reg.paths) && reg.held == old(reg.held)
    ensures var lp := LockedPath(cmd, fs);
      (lp.None? ==> !blocked && reg.Registered() == old(reg.Registered()) && reg.held[..] == old(reg.held[..])) &&
      (lp.Some? ==> reg.Registered() == Register(old(reg.Registered()), lp.value) &&
                    blocked == reg.WasHeld(lp.value, old(reg.count), old(reg.held[..])) &&
                    reg.HeldAfter(lp.value, old(reg.held[..]), blocked))
    ensures (reply, effect) == Outcome(cmd, blocked, fs, chunks)
    ensures old(reg.Idle()) ==> reg.Idle() && reply.Reply?
  {
    blocked := false;
    match cmd {
      case Write(p, n) =>
        blocked, effect := ReceiveFile(reg, p, n, fs, chunks);
        reply := if blocked then NoReply else Reply(OkReply);
      case Get(p) =>
        blocked, reply := SendFile(reg, p, fs);
        effect := Untouched;
      case Rm(p) =>
        blocked, reply, effect := RemoveFileOrDir(reg, p, fs);
      case BadWrite =>
        reply, effect := Reply(InvalidWriteReply), Untouched;
      case BadGet =>
        reply, effect := Reply(InvalidGetReply), Untouched;
      case BadRm =>
        reply, effect := Reply(InvalidRmReply), Untouched;
      case Unknown =>
        reply, effect := Reply(UnknownReply), Untouched;
    }
    OnlyBlockedRequestsHang(cmd, blocked, fs, chunks);
    var lp := LockedPath(cmd, fs);
    if lp.Some? && old(reg.Idle()) {
      IdleKept(reg, lp.value, old(reg.count), old(reg.held[..]), old(reg.Registered()));
    }
  }

  /** `handle_client`, with the fixed handlers: read the command line, parse
      it, dispatch. The reply and file-system effect are those of `Outcome`
      for the parsed command; the lock the request takes (if any) is released
      unless the request hangs on it, so a registry with no lock held stays
      that way and every request against it is answered. */
  method HandleClient(reg: LockRegistry, input: string, stale: string, fs: FsOracle, chunks: seq<seq<char>>)
    returns (reply: Reply, effect: FsEffect)
    requires reg.Valid()
    requires Flatten(chunks) <= input[LineConsumed(input, CommandCap)..]
    modifies reg, reg.paths, reg.held
    ensures reg.Valid() && reg.paths == old(reg.paths) && reg.held == old(reg.held)
    ensures var cmd := ParseCommand(LineOf(input, CommandCap), stale);
      var lp := LockedPath(cmd, fs);
      var blocked := lp.Some? && reg.WasHeld(lp.value, old(reg.count), old(reg.held[..]));
      (reply, effect) == Outcome(cmd, blocked, fs, chunks) &&
      (lp.None? ==> reg.Registered() == old(reg.Registered()) && reg.held[..] == old(reg.held[..])) &&
      (lp.Some? ==> reg.Registered() == Register(old(reg.Registered()), lp.value) &&
                    reg.HeldAfter(lp.value, old(reg.held[..]), blocked))
    ensures old(reg.Idle()) ==> reg.Idle() && reply.Reply?
  {
    var buf, consumed := ReadLine(input, CommandCap);
    var cmd := ParseCommand(buf, stale);
    ParsedPathFits(buf, stale);
    var blocked;
    blocked, reply, effect := Dispatch(reg, cmd, fs, chunks);
  }

  /** Releasing the lock a request took keeps a registry with no lock held
      in that state, and such a registry never blocks. */
  lemma IdleKept(reg: LockRegistry, path: string, beforeCount: nat, before: seq<bool>, beforePaths: seq<string>)
    requires reg.Valid() && |before| == MaxFiles && beforeCount == |beforePaths| <= MaxFiles
    requires reg.Registered() == Register(beforePaths, path)
    requires forall i :: 0 <= i < beforeCount ==> !before[i]
    ensures !reg.WasHeld(path, beforeCount, before)
    ensures reg.HeldAfter(path, before, false) ==> reg.Idle()
  {
    if reg.HeldAfter(path, before, false) {
      forall i | 0 <= i < reg.count ensures !reg.held[i] {
        if reg.SlotOf(path) != Some(i) {
          assert reg.held[i] == before[i];
        }
      }
    }
  }

  // ---------------------------------------------------------------------
  // The two lock leaks of the server as written, on a fresh server

  /** As written: an RM of a missing path answers "File not found" and keeps
      the path's lock, so the next WRITE of that path waits for ever. */
  method RmMissingThenWriteAsWritten(path: string, rmFs: FsOracle, writeFs: FsOracle, chunks: seq<seq<char>>)
    returns (first: Reply, second: Reply)
    requires '\0' !in path && |FullPath(path)| < FullPathSize && rmFs.stat.None?
    ensures first == Reply(NotFoundReply) && second == NoReply
  {
    var reg := new LockRegistry();
    var b1, e1;
    b1, first, e1 := RemoveFileOrDirAsWritten(reg, path, rmFs);
    assert reg.Registered() == [path] && reg.SlotOf(path) == Some(0) && reg.held[0];
    var b2, e2 := ReceiveFileAsWritten(reg, path, 0, writeFs, chunks);
    second := if b2 then NoReply else Reply(OkReply);
  }

  /** Fixed: the same two requests, and the WRITE is answered. */
  method RmMissingThenWrite(path: string, rmFs: FsOracle, writeFs: FsOracle, chunks: seq<seq<char>>)
    returns (first: Reply, second: Reply)
    requires '\0' !in path && |FullPath(path)| < FullPathSize && rmFs.stat.None?
    ensures first == Reply(NotFoundReply) && second == Reply(OkReply)
  {
    var reg := new LockRegistry();
    var b1, e1;
    b1, first, e1 := RemoveFileOrDir(reg, path, rmFs);
    assert reg.Registered() == [path] && reg.SlotOf(path) == Some(0) && !reg.held[0];
    var b2, e2 := ReceiveFile(reg, path, 0, writeFs, chunks);
    second := if b2 then NoReply else Reply(OkReply);
  }

  /** As written: a WRITE whose `fopen` fails still answers OK but keeps the
      path's lock, so a later GET of that path waits for ever. */
  method FailedWriteThenGetAsWritten(path: string, writeFs: FsOracle, getFs: FsOracle, chunks: seq<seq<char>>)
    returns (second: Reply)
    requires '\0' !in path && |FullPath(path)| < FullPathSize
    requires !writeFs.openForWrite && getFs.readable.Some?
    ensures second == NoReply
  {
    var reg := new LockRegistry();
    var b1, e1 := ReceiveFileAsWritten(reg, path, 0, writeFs, chunks);
    assert reg.Registered() == [path] && reg.SlotOf(path) == Some(0) && reg.held[0];
    var b2;
    b2, second := SendFile(reg, path, getFs);
  }

  /** Fixed: the GET is answered with the file. */
  method FailedWriteThenGet(path: string, writeFs: FsOracle, getFs: FsOracle, chunks: seq<seq<char>>)
    returns (second: Reply)
    requires '\0' !in path && |FullPath(path)| < FullPathSize
    requires !writeFs.openForWrite && getFs.readable.Some?
    ensures second == Reply(SizeHeader(|getFs.readable.value|) + getFs.readable.value)
  {
    var reg := new LockRegistry();
    var b1, e1 := ReceiveFile(reg, path, 0, writeFs, chunks);
    assert reg.Registered() == [path] && reg.SlotOf(path) == Some(0) && !reg.held[0];
    var b2;
    b2, second := SendFile(reg, path, getFs);
  }
}
