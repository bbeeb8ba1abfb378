# Computer-System course programs: a verified model

This project models the sequential logic of several C programs from a
systems-programming course repository, and proves properties of that model.

- **Remote file storage.** A multithreaded TCP file server
  (`MultithreadedRemoteFileStorageSystem/server.c`) and its command-line
  client (`Practicum2/rfs.c`). The model covers:
  - the per-path lock registry;
  - reading and parsing the command line;
  - the WRITE, GET and RM handlers;
  - the intermediate-directory computation;
  - the receive and send loops;
  - the client's argument dispatch, request formatting, `SIZE` header
    parsing and parent-directory extraction.
- **Message cache.** A cache of 16 entries in front of an on-disk message
  store (`Practicum1/cache.c`). Slots are replaced in FIFO order, or by an
  empty-slot-first policy that falls back to an LRU or a random victim.
- **Process queue.** A generic doubly-linked FIFO queue with a
  remove-highest-priority operation (`week6/queue.c`).
- **Polybius cipher.** The Polybius square cipher (`week6/polybius.c`).
- **`arger`.** A program that prints its arguments upper-cased, lower-cased
  or capitalised (`practice/arger.c`).
- **`loadmem`.** Splits a line into integers and stores them in a block
  (`week4/loadmem.c`).
- **MSWS generators.** The Middle Square Weyl Sequence generator and the two
  programs that use it: `week6/genrandstrings.c` and `week3/genrand.c`.

How the model represents the C programs:

- Imperative code stays imperative. The lock table, the cache table, the
  cipher table, the linked queue and the generator's two statics are
  classes updated in place, and the loops of the C code are `while` loops
  with invariants.
- Each method is proved against a pure specification function. The
  properties are proved as lemmas about those functions.
- Every input that comes from outside the program is a parameter:
  - the clock and `rand()`;
  - `recv` results, given as a sequence of chunks;
  - the answers of the file system, given as an oracle record;
  - the on-disk message store, given as a map;
  - the success of an allocation or of `fopen`.
- `unsigned long long` is an integer below 2^64, and every operation on it
  wraps explicitly modulo 2^64.

Files:

| file | module | contents |
|---|---|---|
| wrappers.dfy | `Wrappers` | `Option` |
| ctext.dfy | `CText` | C library text primitives: `isspace`, `toupper`, C strings, `sscanf` `%s`/`%d`, `atoi`, `%d` formatting |
| transfer.dfy | `Transfer` | the line reader, receive loop and send loop shared by server and client |
| path_locks.dfy | `PathLocks` | the server's path-lock registry |
| server.dfy | `Server` | command parsing, handlers, request outcome, the two lock leaks |
| client.dfy | `Client` | the client and the client/server round trips |
| cache.dfy | `MessageCache` | the message cache |
| queue.dfy | `ProcessQueue` | the linked queue |
| polybius.dfy | `Polybius` | the cipher |
| arger.dfy | `Arger` | `arger` |
| loadmem.dfy | `LoadMem` | `loadmem` |
| msws.dfy | `Msws` | the generator |
| random_strings.dfy | `RandomStrings` | `genrandstrings` |
| random_ints.dfy | `RandomInts` | `genrand`'s `main` |

## Model

| member | source | states |
|---|---|---|
| `PathLocks.IndexOf` | MultithreadedRemoteFileStorageSystem/server.c:375-380 | The linear scan finds `path` exactly when it is in the table. The slot found holds the path, and no earlier slot does. |
| `PathLocks.RegisterKeepsTableValid` | MultithreadedRemoteFileStorageSystem/server.c:382-389 | Insert-if-absent keeps the table within 100 entries and free of duplicates, and leaves earlier entries untouched. The path has a slot afterwards exactly when it was present or there was room. |
| `PathLocks.LockRegistry.constructor` | MultithreadedRemoteFileStorageSystem/server.c:37-38 | An empty table (`lock_count = 0`) with no lock held. |
| `PathLocks.LockRegistry.GetFileMutex` | MultithreadedRemoteFileStorageSystem/server.c:371-394 | A registered path: returns its slot and leaves the table unchanged. A new path with room: stored at index `lock_count`, which grows by one. A full table: returns no slot and changes nothing. |
| `PathLocks.LockRegistry.Acquire` | MultithreadedRemoteFileStorageSystem/server.c:231-232 | Locking a slot sets its held flag and reports whether it was already held, in which case the thread would block. No slot means no locking. |
| `PathLocks.LockRegistry.Release` | MultithreadedRemoteFileStorageSystem/server.c:262 | Unlocking clears exactly that slot's held flag. |
| `CText.CString` | MultithreadedRemoteFileStorageSystem/server.c:178 | What C string functions see of a buffer: a NUL-free prefix that ends at the first NUL. |
| `CText.CStringAtNul` | hu.lingyu@northeastern.edu-cs5600-s25-week6/genrandstrings.c:42 | A NUL written after a NUL-free prefix ends the string there. |
| `CText.ScanStringFailsOnBlank` | MultithreadedRemoteFileStorageSystem/server.c:182 | `%s` fails exactly on a line made only of white space. |
| `CText.ScanIntOfIntToString` | MultithreadedRemoteFileStorageSystem/server.c:297 | `%d` reads back exactly the integer `%d` wrote, leaving what follows unread. |
| `Transfer.LineOfTerminated` | MultithreadedRemoteFileStorageSystem/server.c:170-178 | A newline-terminated line within the capacity is read whole, without its newline, and the newline is consumed. |
| `Transfer.ReadLine` | MultithreadedRemoteFileStorageSystem/server.c:170-178 | The byte-at-a-time reader stores at most `cap` bytes, stops at the first newline, which it does not store, or at end of stream. The result is `LineOf`, a prefix of the input with no newline. |
| `Transfer.ReceivedIsPrefix` | MultithreadedRemoteFileStorageSystem/server.c:250-257 | The receive loop writes a prefix of what the peer sent. |
| `Transfer.ReceivedOvershoot` | MultithreadedRemoteFileStorageSystem/server.c:250-257 | In chunks of at most 8192 bytes, the loop stops less than one buffer past the announced size (past zero when the size is negative). |
| `Transfer.ReceivedReachesSize` | MultithreadedRemoteFileStorageSystem/server.c:250-257 | A peer that keeps sending until the size is reached gets at least that many bytes written. |
| `Transfer.ReceivedExactFrame` | MultithreadedRemoteFileStorageSystem/server.c:250-257 | A peer that sends exactly the announced bytes gets exactly those bytes written. |
| `Transfer.ReceiveLoop` | hu.lingyu@northeastern.edu-Practicum2/rfs.c:189-196 | The loop `while (total < size)` over `recv` writes `Received(size, chunks)` and counts its length. |
| `Transfer.SendContent` | MultithreadedRemoteFileStorageSystem/server.c:301-305 | The `fread`/`send` loop sends the whole content in chunks of at most 8192 bytes, every chunk but the last full. |
| `Server.DispatchByKeyword` | MultithreadedRemoteFileStorageSystem/server.c:181-212 | The command is WRITE, GET or RM exactly when the first token equals that word, case-sensitively. Any other keyword gives `Unknown`. |
| `Server.ParseWriteLine` | MultithreadedRemoteFileStorageSystem/server.c:187-190 | A WRITE line with a path token and a token that starts with a signed integer parses to `Write(path, size)`. |
| `Server.ParseGetLine` | MultithreadedRemoteFileStorageSystem/server.c:196-199 | A GET line with a path token parses to `Get(path)`. |
| `Server.ParseRmLine` | MultithreadedRemoteFileStorageSystem/server.c:204-207 | An RM line with a path token parses to `Rm(path)`. |
| `Server.BlankLineNeverActs` | MultithreadedRemoteFileStorageSystem/server.c:181-182 | A line without a token never reaches a file operation, whatever the uninitialised keyword buffer holds. |
| `Server.TrailingTokensIgnored` | MultithreadedRemoteFileStorageSystem/server.c:184-204 | Tokens after the ones a command needs do not change the parse. |
| `Server.DirPrefixesExactly` | MultithreadedRemoteFileStorageSystem/server.c:235-241 | The `mkdir` list holds exactly the prefixes of the full path that end just before a `/` after the root. |
| `Server.DirPrefixesIncreasing` | MultithreadedRemoteFileStorageSystem/server.c:235-241 | The `mkdir` list runs left to right with strictly growing prefixes, so none repeats, and each ends inside the path after the root. |
| `Server.MakeIntermediateDirs` | MultithreadedRemoteFileStorageSystem/server.c:228-241 | `full_path` is `server_root/<path>` and `mkdir` is called on its prefixes after the root, as `DirPrefixes` lists them. |
| `Server.MkdirAlong` | MultithreadedRemoteFileStorageSystem/server.c:235-241 | The loop that writes NUL and then `/` back into the buffer calls `mkdir` on exactly `DirPrefixes`, in order, and leaves the buffer spelling the whole path again. |
| `Server.CutAt` | MultithreadedRemoteFileStorageSystem/server.c:236-240 | At a `/`, the buffer cut with a NUL spells the prefix before it, which is the directory made, and the `/` is put back so the buffer is as before. |
| `Server.OnlyBlockedRequestsHang` | MultithreadedRemoteFileStorageSystem/server.c:226-356 | A request goes unanswered exactly when it waits for a lock that is held. |
| `Server.OnlyWriteAndRmTouchFiles` | MultithreadedRemoteFileStorageSystem/server.c:187-211 | Each format error and an unknown command send their own error text and touch no file; GET never changes a file. |
| `Server.WriteStoresWhatWasSent` | MultithreadedRemoteFileStorageSystem/server.c:250-259 | A WRITE whose sender delivers exactly the announced bytes stores exactly those bytes and answers `OK`. |
| `Server.NonPositiveSizeWritesEmptyFile` | MultithreadedRemoteFileStorageSystem/server.c:250-259 | A WRITE with size zero or less creates an empty file and answers `OK`. |
| `Server.RmDecision` | MultithreadedRemoteFileStorageSystem/server.c:339-355 | An existing directory goes to `rmdir` and anything else to `remove`. Result 0 answers `OK`; any other result answers `ERROR: Unable to delete`. |
| `Server.ReceiveFileAsWritten` | MultithreadedRemoteFileStorageSystem/server.c:226-263 | `receive_file` as written: the file effect of the request, with the path's lock still held afterwards when `fopen` fails. |
| `Server.ReceiveFile` | MultithreadedRemoteFileStorageSystem/server.c:226-263 | The same handler with the unlock on every path out: the lock is held afterwards only if it was held before. |
| `Server.SendFile` | MultithreadedRemoteFileStorageSystem/server.c:276-312 | A missing file is answered `ERROR: File not found` before any lock is taken and the table is left unchanged. Otherwise the reply is `SIZE n` and the content, under the path's lock, which is released afterwards. |
| `Server.SendLocked` | MultithreadedRemoteFileStorageSystem/server.c:286-311 | After a successful `fopen`: the path is registered and locked; a held lock means no reply; otherwise the reply is `SIZE n` followed by the whole content, and the lock is released, so only the path's slot can differ from before and it ends unlocked. |
| `Server.RemoveFileOrDirAsWritten` | MultithreadedRemoteFileStorageSystem/server.c:325-356 | `remove_file_or_dir` as written: a missing path is answered `ERROR: File not found` and keeps its lock. |
| `Server.RemoveFileOrDir` | MultithreadedRemoteFileStorageSystem/server.c:325-356 | The same handler with the unlock on every path out. |
| `Server.ParsedPathFits` | MultithreadedRemoteFileStorageSystem/server.c:175-228 | A path parsed from a line of at most 1023 bytes has no NUL and fits `full_path`. |
| `Server.Dispatch` | MultithreadedRemoteFileStorageSystem/server.c:184-212 | The reply and file effect are `Outcome` of the command. A registry with no lock held stays so, and every request is answered. |
| `Server.HandleClient` | MultithreadedRemoteFileStorageSystem/server.c:169-213 | Read a line of at most 1023 bytes, parse it and dispatch it. The file data `receive_file` reads comes from the same stream, after the bytes the line read consumed. With the fixed handlers no lock stays held and every request is answered. |
| `Server.IdleKept` | MultithreadedRemoteFileStorageSystem/server.c:226-356 | A request that finds no lock held, takes one and releases it leaves no lock held. |
| `Server.RmMissingThenWriteAsWritten` | MultithreadedRemoteFileStorageSystem/server.c:334-337 | As written, an RM of a missing path followed by a WRITE of it: the WRITE is never answered. |
| `Server.RmMissingThenWrite` | MultithreadedRemoteFileStorageSystem/server.c:334-337 | Fixed, the same two requests are both answered: `ERROR: File not found`, then `OK`. |
| `Server.FailedWriteThenGetAsWritten` | MultithreadedRemoteFileStorageSystem/server.c:244-247 | As written, a WRITE whose `fopen` fails followed by a GET of an existing path: the GET is never answered. |
| `Server.FailedWriteThenGet` | MultithreadedRemoteFileStorageSystem/server.c:244-247 | Fixed, the GET is answered with `SIZE n` and the file. |
| `Client.Truncate` | hu.lingyu@northeastern.edu-Practicum2/rfs.c:107-108 | `snprintf` keeps a prefix of the formatted text, at most the buffer less its NUL. |
| `Client.ParentDir` | hu.lingyu@northeastern.edu-Practicum2/rfs.c:170-178 | The local path up to, but not including, its last `/`; none when there is no `/`. |
| `Client.ParseArgs` | hu.lingyu@northeastern.edu-Practicum2/rfs.c:39-78 | Fewer than two arguments is a usage error. WRITE and GET need exactly four arguments and RM exactly three. Any other word is an unknown command. |
| `Client.BadInvocationsFail` | hu.lingyu@northeastern.edu-Practicum2/rfs.c:41-77 | A usage error or an unknown command returns 1 and sends nothing. |
| `Client.SendWriteCommand` | hu.lingyu@northeastern.edu-Practicum2/rfs.c:87-127 | `send_write_command`: returns 1 when the local file or the connection fails. Otherwise sends `WRITE <remote> <size>` and the content. |
| `Client.SendGetCommand` | hu.lingyu@northeastern.edu-Practicum2/rfs.c:138-202 | `send_get_command`: the header loop reads at most 127 bytes; a non-`SIZE` header returns 1; then `mkdir` of the parent and the download loop. |
| `Client.SendRmCommand` | hu.lingyu@northeastern.edu-Practicum2/rfs.c:210-229 | `send_rm_command`: sends `RM <remote>` and returns 0 once connected. |
| `Client.ClientMain` | hu.lingyu@northeastern.edu-Practicum2/rfs.c:39-78 | `main`: dispatch on the arguments, then the chosen command. |
| `Client.WriteAndRmIgnoreTheReply` | hu.lingyu@northeastern.edu-Practicum2/rfs.c:222-228 | Once connected, WRITE (with a readable local file) and RM return 0 whatever the server replies. |
| `Client.ErrorReplyTouchesNoLocalFile` | hu.lingyu@northeastern.edu-Practicum2/rfs.c:160-164 | A reply that does not start with `SIZE` returns 1, creates no directory and writes no local file. |
| `Client.NotFoundIsNotSize` | hu.lingyu@northeastern.edu-Practicum2/rfs.c:160-164 | The server's `ERROR: File not found` is such a reply. |
| `Client.WriteRequestRoundTrip` | hu.lingyu@northeastern.edu-Practicum2/rfs.c:107-108 | The server reads the client's `WRITE <remote> <size>` line back as `Write(remote, size)`, for a non-empty remote path without white space. |
| `Client.WriteLineParses` | MultithreadedRemoteFileStorageSystem/server.c:187 | The line `WRITE <remote> <size>` parses to `Write(remote, size)`. |
| `Client.GetRequestRoundTrip` | hu.lingyu@northeastern.edu-Practicum2/rfs.c:146-147 | The server reads `GET <remote>` back as `Get(remote)`. |
| `Client.GetLineParses` | MultithreadedRemoteFileStorageSystem/server.c:196 | The line `GET <remote>` parses to `Get(remote)`. |
| `Client.RmRequestRoundTrip` | hu.lingyu@northeastern.edu-Practicum2/rfs.c:218-219 | The server reads `RM <remote>` back as `Rm(remote)`. |
| `Client.RmLineParses` | MultithreadedRemoteFileStorageSystem/server.c:204 | The line `RM <remote>` parses to `Rm(remote)`. |
| `Client.SizeHeaderRoundTrip` | hu.lingyu@northeastern.edu-Practicum2/rfs.c:150-167 | The server's `SIZE n` header passes the client's `SIZE` check and parses back to `n`, for every size a C int holds. |
| `Client.DownloadRoundTrip` | hu.lingyu@northeastern.edu-Practicum2/rfs.c:138-202 | A GET of an existing file whose bytes arrive in non-empty chunks returns 0 and saves exactly the server's file. |
| `MessageCache.FirstHitIsLowest` | hu.lingyu@northeastern.edu-Practicum1/cache.c:50-58 | The lookup reports the lowest slot whose id matches and whose message is non-NULL. It reports -1 exactly when there is none. |
| `MessageCache.AddFifoOverwritesCursorSlot` | hu.lingyu@northeastern.edu-Practicum1/cache.c:66-85 | A NULL message changes nothing and returns -1. Otherwise the cursor's slot is overwritten and returned, the cursor advances by one modulo 16, the other slots are unchanged, and the message is then found. |
| `MessageCache.AddAllAdvancesCursor` | hu.lingyu@northeastern.edu-Practicum1/cache.c:78-84 | After `k` insertions the cursor has moved `k` slots cyclically, and it stays in `[0, 16)`. |
| `MessageCache.FirstEmptyIsLowest` | hu.lingyu@northeastern.edu-Practicum1/cache.c:202-208 | The empty-slot scan finds the lowest slot with id -1. It reports -1 exactly when every slot has an id. |
| `MessageCache.LruIndexIsOldest` | hu.lingyu@northeastern.edu-Practicum1/cache.c:172-182 | The LRU victim has the minimum `last_used`, and ties go to the lowest index. |
| `MessageCache.RandomIndex` | hu.lingyu@northeastern.edu-Practicum1/cache.c:159-161 | The random victim lies in `[0, 16)`. |
| `MessageCache.VictimPrefersEmptySlot` | hu.lingyu@northeastern.edu-Practicum1/cache.c:195-212 | The strategy insertion uses the lowest empty slot when one exists. It evicts the LRU or the random victim only when none does. |
| `MessageCache.AddByStrategyWritesVictim` | hu.lingyu@northeastern.edu-Practicum1/cache.c:195-233 | Strategy insertion writes only the victim slot, and the message is then found. A NULL message changes nothing. |
| `MessageCache.OperationsKeepCoherent` | hu.lingyu@northeastern.edu-Practicum1/cache.c:35-320 | Every operation keeps each cached message in a slot carrying its own id. |
| `MessageCache.RetrieveFifoHitOrMiss` | hu.lingyu@northeastern.edu-Practicum1/cache.c:124-146 | On a hit, `*msg_in_cache` is true and the cached message is returned, independently of the disk. On a miss it is false, the disk's answer is returned, and a copy is cached only when the disk has the message. |
| `MessageCache.RetrieveByStrategyHitOrMiss` | hu.lingyu@northeastern.edu-Practicum1/cache.c:279-305 | The same for the strategy variant. A NULL flag pointer returns NULL and changes nothing. |
| `MessageCache.StoreThenRetrieveHits` | hu.lingyu@northeastern.edu-Practicum1/cache.c:96-146 | A message stored with a successful disk write and copy is afterwards retrieved from the cache, and the disk holds it. |
| `MessageCache.InitIsEmpty` | hu.lingyu@northeastern.edu-Practicum1/cache.c:35-42 | After `init_cache` every lookup misses and slot 0 is the first empty slot. |
| `MessageCache.FreeAllMissesButKeepsIds` | hu.lingyu@northeastern.edu-Practicum1/cache.c:313-320 | `free_cache` NULLs every message but keeps the ids. Every lookup then misses, and the empty-slot scan finds what it found before, so no slot has become empty. |
| `MessageCache.Cache.constructor` | hu.lingyu@northeastern.edu-Practicum1/cache.c:35-42 | The cache as the program starts, before `init_cache` rewrites it: C zero-initialises the global instance, so all 16 entries and the cursor are 0. |
| `MessageCache.Cache.Init` | hu.lingyu@northeastern.edu-Practicum1/cache.c:35-42 | Every slot has id -1, a NULL message and `last_used` 0, and the cursor is 0. |
| `MessageCache.Cache.FindMsg` | hu.lingyu@northeastern.edu-Practicum1/cache.c:50-58 | Returns `FirstHit`. Only that slot's `last_used` changes; on a miss nothing changes. |
| `MessageCache.Cache.AddMsg` | hu.lingyu@northeastern.edu-Practicum1/cache.c:66-85 | The index and new state are those of `AddFifo`. |
| `MessageCache.Cache.FindLruIndex` | hu.lingyu@northeastern.edu-Practicum1/cache.c:172-182 | Returns `LruIndex` of the slots. |
| `MessageCache.Cache.FindEmptySlot` | hu.lingyu@northeastern.edu-Practicum1/cache.c:202-208 | Returns `FirstEmpty` of the slots. |
| `MessageCache.Cache.AddMsgByStrategy` | hu.lingyu@northeastern.edu-Practicum1/cache.c:195-233 | The index and slots are those of `AddByStrategy`, and the FIFO cursor is untouched. |
| `MessageCache.Cache.StoreMsgCached` | hu.lingyu@northeastern.edu-Practicum1/cache.c:96-111 | A NULL message or a failed disk write returns -1 and changes nothing. Otherwise the message goes to disk, then to the cache if its copy is allocated, and the result is 0. |
| `MessageCache.Cache.RetrieveMsgCached` | hu.lingyu@northeastern.edu-Practicum1/cache.c:124-146 | Result and new state as `RetrieveFifo`. |
| `MessageCache.Cache.StoreMsgCachedByStrategy` | hu.lingyu@northeastern.edu-Practicum1/cache.c:246-265 | Returns -1 on a NULL message or a failed write, the slot index when cached, and 0 when only the disk write succeeded. |
| `MessageCache.Cache.RetrieveMsgCachedByStrategy` | hu.lingyu@northeastern.edu-Practicum1/cache.c:279-305 | Result, flag and new slots as `RetrieveByStrategy`. |
| `MessageCache.Cache.Free` | hu.lingyu@northeastern.edu-Practicum1/cache.c:313-320 | The slots become `FreeAll` of the old ones. |
| `MessageCache.PartTwoScenario` | hu.lingyu@northeastern.edu-Practicum1/test.c:96-141 | Two messages stored through the cache and a third written to disk only. The first is then retrieved from the cache and the third from disk. |
| `ProcessQueue.Queue.constructor` | hu.lingyu@northeastern.edu-cs5600-s25-week6/queue.c:4-13 | An empty queue: NULL head and tail, size 0. |
| `ProcessQueue.Push` | hu.lingyu@northeastern.edu-cs5600-s25-week6/queue.c:17-37 | The element is appended at the tail and earlier elements are unchanged. The invariant is kept: size counts the nodes, head and tail are consistent, and links are mutual. A NULL queue is left alone. |
| `ProcessQueue.Pop` | hu.lingyu@northeastern.edu-cs5600-s25-week6/queue.c:40-57 | A NULL or empty queue gives NULL and no change. Otherwise the head element is returned and the rest keep their order, with the invariant kept. |
| `ProcessQueue.RemoveMaxTakesFirstHighest` | hu.lingyu@northeastern.edu-cs5600-s25-week6/queue.c:62-98 | The removed process has the maximum priority and every earlier one a strictly lower priority. The others keep their order, and the multiset of processes is preserved. |
| `ProcessQueue.RemoveProcess` | hu.lingyu@northeastern.edu-cs5600-s25-week6/queue.c:62-98 | The result and the new contents are `RemoveMax` of the old contents, with the invariant kept. NULL or empty gives NULL. |
| `ProcessQueue.FindHighest` | hu.lingyu@northeastern.edu-cs5600-s25-week6/queue.c:67-78 | The strict `>` scan stops on the node at `MaxIndex`. |
| `ProcessQueue.Unlink` | hu.lingyu@northeastern.edu-cs5600-s25-week6/queue.c:81-96 | Unlinking removes exactly that node from the sequence and keeps the invariant. |
| `ProcessQueue.GetQueueSize` | hu.lingyu@northeastern.edu-cs5600-s25-week6/queue.c:101-104 | A NULL queue gives 0; otherwise the number of elements. |
| `ProcessQueue.PushAllThenPopAll` | hu.lingyu@northeastern.edu-cs5600-s25-week6/queue.c:17-57 | Pushing a sequence and popping until the size is 0 gives the elements back in push order. |
| `ProcessQueue.DriverScenario` | hu.lingyu@northeastern.edu-cs5600-s25-week5/queuetest.c:33-95 | After four pushes, the pop returns process 1 and the removal returns process 2, the highest priority, leaving two. |
| `Polybius.AlphabetDistinct` | hu.lingyu@northeastern.edu-cs5600-s25-week6/polybius.c:10 | The alphabet has 25 distinct upper-case letters and no J. |
| `Polybius.LetterPosition` | hu.lingyu@northeastern.edu-cs5600-s25-week6/polybius.c:10-18 | The cell at each position holds a letter other than J, whose position is that cell. |
| `Polybius.PositionLetter` | hu.lingyu@northeastern.edu-cs5600-s25-week6/polybius.c:10-18 | Every upper-case letter other than J sits in the cell at its position, so the table is a bijection. |
| `Polybius.PolybiusCipher.InitCipher` | hu.lingyu@northeastern.edu-cs5600-s25-week6/polybius.c:8-19 | The table is filled row by row with the alphabet. |
| `Polybius.CiphertextIsDigitPairs` | hu.lingyu@northeastern.edu-cs5600-s25-week6/polybius.c:28-42 | Each letter gives exactly two digits in `1`-`5` and anything else gives nothing. |
| `Polybius.CiphertextOfLetters` | hu.lingyu@northeastern.edu-cs5600-s25-week6/polybius.c:25-35 | Enciphering depends only on the letters, upper-cased with J as I. |
| `Polybius.EncodeCharFolds` | hu.lingyu@northeastern.edu-cs5600-s25-week6/polybius.c:25-35 | Encoding ignores case, and J encodes as I. |
| `Polybius.CiphertextAppend` | hu.lingyu@northeastern.edu-cs5600-s25-week6/polybius.c:24-47 | The ciphertext of a concatenation is the concatenation of the ciphertexts. |
| `Polybius.PlaintextAppend` | hu.lingyu@northeastern.edu-cs5600-s25-week6/polybius.c:57-76 | The same for deciphering even-length text. |
| `Polybius.PlaintextOfEncodeChar` | hu.lingyu@northeastern.edu-cs5600-s25-week6/polybius.c:38-75 | One character's digit pair deciphers to its normalised letter. |
| `Polybius.EncodeCharOfPair` | hu.lingyu@northeastern.edu-cs5600-s25-week6/polybius.c:38-75 | One pair of digits `1`-`5` deciphers to one letter, which enciphers back to the same pair. |
| `Polybius.DecipherEncipher` | hu.lingyu@northeastern.edu-cs5600-s25-week6/polybius.c:22-79 | Deciphering the ciphertext of `s` gives the letters of `s`, upper-cased with J as I. |
| `Polybius.EncipherDecipher` | hu.lingyu@northeastern.edu-cs5600-s25-week6/polybius.c:8-75 | Ciphertext made of valid pairs enciphers back to itself after deciphering. |
| `Polybius.PolybiusCipher.Encode` | hu.lingyu@northeastern.edu-cs5600-s25-week6/polybius.c:22-50 | The buffer holds `Ciphertext(plaintext)` and a NUL, and nothing after them changes. |
| `Polybius.PolybiusCipher.EncodeLetter` | hu.lingyu@northeastern.edu-cs5600-s25-week6/polybius.c:38-46 | The table search writes the letter's row and column digits at `index`. |
| `Polybius.PolybiusCipher.Decode` | hu.lingyu@northeastern.edu-cs5600-s25-week6/polybius.c:53-79 | The buffer holds `Plaintext(ciphertext)` and a NUL. Non-digit and out-of-range pairs are skipped. |
| `Polybius.PolybiusCipher.DecodeStep` | hu.lingyu@northeastern.edu-cs5600-s25-week6/polybius.c:58-75 | One pair: when both characters are digits naming a cell, that cell's letter is appended to what the buffer holds, otherwise nothing is written; the rest of the buffer is unchanged. |
| `Arger.UpperPointwise` | practice/arger.c:51-60 | `to_uppercase` maps `a`-`z` 32 code points down, keeps every other character, and keeps the length. |
| `Arger.LowerPointwise` | practice/arger.c:63-72 | `to_lowercase` maps `A`-`Z` 32 code points up, keeps every other character, and keeps the length. |
| `Arger.CaseMapsIdempotent` | practice/arger.c:51-72 | Both case maps are idempotent, and lower after upper equals lower. |
| `Arger.StartAfterIsLastSpace` | practice/arger.c:79-90 | The word-start flag is set exactly when the text so far is empty or ends in a space. |
| `Arger.CapitalizedPointwise` | practice/arger.c:75-93 | `capitalize` upper-cases a character at a word start (the start or after a space), lower-cases any other, and keeps the length. |
| `Arger.CapitalizedExamples` | practice/arger.c:87-90 | A digit at a word start ends it: `1abc` is unchanged, and `hELLO wORLD` becomes `Hello World`. |
| `Arger.CapitalizedJoin` | practice/arger.c:79-81 | Capitalising words separately and joining them with a space equals capitalising the joined text. |
| `Arger.FlagsMatchByPrefix` | practice/arger.c:35-39 | Flags match by their first characters: `-upper` is `-u`, `-capitalize` is `-cap`, and `-c` is invalid. |
| `Arger.TransformJoin` | practice/arger.c:30-33 | Printing each argument transformed, separated by single spaces, equals transforming the space-joined text. |
| `Arger.RunOutcome` | practice/arger.c:7-48 | Fewer than two arguments after the name, or an invalid flag, returns -1. Otherwise the result is 0 and the output is the transformed arguments joined by spaces. |
| `Arger.ToUppercase` | practice/arger.c:51-60 | Writes `Upper(str)`. |
| `Arger.ToLowercase` | practice/arger.c:63-72 | Writes `Lower(str)`. |
| `Arger.Capitalize` | practice/arger.c:75-93 | Writes `Capitalized(str)`, carrying the word-start flag through the loop. |
| `Arger.Execute` | practice/arger.c:7-48 | `main`'s status and output are `Run(argv)`. |
| `LoadMem.DynBlock.constructor` | hu.lingyu@northeastern.edu-cs5600-s25-week4/loadmem.c:8-11 | A block with the given data pointer and size. |
| `LoadMem.AllocDynBlock` | hu.lingyu@northeastern.edu-cs5600-s25-week4/loadmem.c:14-32 | NULL when allocation fails. Otherwise a new block whose `size` is `n` and whose data holds `n` ints. |
| `LoadMem.StoreMemBlk` | hu.lingyu@northeastern.edu-cs5600-s25-week4/loadmem.c:35-52 | A NULL block or data, or a size above the block's, changes nothing. Otherwise `data[0..size)` becomes `values[0..size)` and the rest is unchanged. |
| `LoadMem.TokensAreRuns` | hu.lingyu@northeastern.edu-cs5600-s25-week4/loadmem.c:60-71 | `strtok` on spaces yields non-empty tokens without a space. Together they are exactly the line's non-space characters, in order. |
| `LoadMem.TokensLayout` | hu.lingyu@northeastern.edu-cs5600-s25-week4/loadmem.c:60-71 | The line is its tokens separated by runs of spaces, with at least one space between two tokens: each token is a whole, maximal run of non-spaces, and every such run is a token, left to right. |
| `LoadMem.TrailingSpaceAddsZero` | hu.lingyu@northeastern.edu-cs5600-s25-week4/loadmem.c:69 | A digit-less token such as `"\n"` converts to 0, so a space before the newline appends a 0. |
| `LoadMem.AtoiExamples` | hu.lingyu@northeastern.edu-cs5600-s25-week4/loadmem.c:69 | `atoi` skips white space, reads digits and stops, and gives 0 without digits. |
| `LoadMem.NextToken` | hu.lingyu@northeastern.edu-cs5600-s25-week4/loadmem.c:60-70 | One `strtok` step: skip spaces, then take the run up to the next space. |
| `LoadMem.ParseLineToBlock` | hu.lingyu@northeastern.edu-cs5600-s25-week4/loadmem.c:55-81 | NULL when allocation fails. Otherwise a new block whose size is the token count and whose data is the tokens' `atoi` values, in order. |
| `Msws.RotateInvolution` | hu.lingyu@northeastern.edu-cs5600-s25-week6/genrandstrings.c:18 | Swapping the 32-bit halves twice gives the value back, so the scramble loses no state. |
| `Msws.RotateSwapsHalves` | hu.lingyu@northeastern.edu-cs5600-s25-week6/genrandstrings.c:18 | `(x >> 32) \| (x << 32)` swaps the two halves. |
| `Msws.Scale` | hu.lingyu@northeastern.edu-cs5600-s25-week6/genrandstrings.c:22-24 | With `min <= max` and the width a positive int, the result lies in `[min, max]`. |
| `Msws.ScaleOnto` | hu.lingyu@northeastern.edu-cs5600-s25-week6/genrandstrings.c:22-24 | Every value of the range is produced by some state. |
| `Msws.DrawsInRange` | hu.lingyu@northeastern.edu-cs5600-s25-week6/genrandstrings.c:15-25 | `n` draws give `n` values, all within the range. |
| `Msws.WeylAfterDraws` | hu.lingyu@northeastern.edu-cs5600-s25-week6/genrandstrings.c:12-17 | After `n` draws the counter has advanced by `n` times the constant, modulo 2^64. |
| `Msws.DrawsCompose` | hu.lingyu@northeastern.edu-cs5600-s25-week6/genrandstrings.c:11-25 | Drawing `m` values and then `n` more equals drawing `m + n`. The sequence depends only on the starting `(state, weyl)`. |
| `Msws.Rng.constructor` | hu.lingyu@northeastern.edu-cs5600-s25-week6/genrandstrings.c:11-12 | The statics start at state 0 and counter `0xb5ad4eceda1ce2a9`. |
| `Msws.Rng.GenRand` | hu.lingyu@northeastern.edu-cs5600-s25-week6/genrandstrings.c:15-25 | The counter gains the constant and the state becomes the rotation of `state*state + weyl`, all modulo 2^64. The result is `Draw` of the old generator and lies in `[min, max]`. `week3/genrand.c:11-21` is the same code. |
| `Msws.Rng.SetSeed` | hu.lingyu@northeastern.edu-cs5600-s25-week6/genrandstrings.c:28-30 | Sets the state only; the counter is unchanged. |
| `RandomStrings.RandomChar` | hu.lingyu@northeastern.edu-cs5600-s25-week6/genrandstrings.c:33-35 | The character is in `A`-`Z`. |
| `RandomStrings.RandomString` | hu.lingyu@northeastern.edu-cs5600-s25-week6/genrandstrings.c:38-43 | Exactly `n` characters. |
| `RandomStrings.RandomStringUpper` | hu.lingyu@northeastern.edu-cs5600-s25-week6/genrandstrings.c:33-43 | Every character of `RandomString` is in `A`-`Z`. |
| `RandomStrings.LinesShape` | hu.lingyu@northeastern.edu-cs5600-s25-week6/genrandstrings.c:57-62 | `Lines` gives `k` lines, each of 5 to 10 upper-case letters. |
| `RandomStrings.RandomStringCompose` | hu.lingyu@northeastern.edu-cs5600-s25-week6/genrandstrings.c:38-43 | Writing `m` letters and then `n` more equals writing `m + n`. |
| `RandomStrings.GenerateRandomChar` | hu.lingyu@northeastern.edu-cs5600-s25-week6/genrandstrings.c:33-35 | The character and the new generator are `RandomChar` of the old one. |
| `RandomStrings.GenerateRandomString` | hu.lingyu@northeastern.edu-cs5600-s25-week6/genrandstrings.c:38-43 | `str[0..length)` holds `RandomString` of the old generator, `str[length]` is NUL, and nothing after it changes. |
| `RandomStrings.GenerateRandomStringsToFile` | hu.lingyu@northeastern.edu-cs5600-s25-week6/genrandstrings.c:46-65 | An unopenable file gives status 1 and nothing written. Otherwise 10000 lines are written: `Lines` of the generator seeded with the clock. |
| `RandomInts.GenRandMain` | hu.lingyu@northeastern.edu-cs5600-s25-week3/genrand.c:28-63 | An argument count other than 3 or 4, or a count of 0 or less, returns 1 with nothing written. Append mode depends on the arguments. An unopenable file returns 1. Otherwise 0, the values are the draws from `[-100, 100]` after seeding with the clock, and the success line is printed. |
| `RandomInts.WrittenValues` | hu.lingyu@northeastern.edu-cs5600-s25-week3/genrand.c:54-57 | Exactly the requested number of values is written, each in `[-100, 100]`. |
| `RandomInts.AppendOnlyAsFourth` | hu.lingyu@northeastern.edu-cs5600-s25-week3/genrand.c:41 | Append mode is on only with four arguments whose last is exactly `-a`. |

## Left out

- **Sockets and threads (server).** Socket setup, the accept loop,
  `client_thread` and thread creation are not modelled. A mutex that would
  block is modelled as a request that is never answered.
- **Send byte counts.** The exact byte counts passed to `send` are not
  modelled; several include the NUL or reach past the literal. Replies are
  their texts.
- **File-system effects.** `fopen`, `fwrite`, `fread`, `mkdir`, `stat`,
  `rmdir`, `remove` and `ftell` are oracle answers, and their effects are
  described as data.
- **Keyword buffer.** `command[16]` in `handle_client` can overflow when the
  first token is 16 bytes or longer, and it is uninitialised on a blank
  line. An oracle string stands for whatever it holds when `sscanf` stores
  nothing.
- **C integer overflow.** `%d` and `atoi` overflow of values beyond a C
  `int` is not modelled, and neither are files of 2^31 bytes or more.
  Integers are unbounded.
- **Client I/O.** `connect_to_server` and the `system("mkdir -p …")` call
  are outcomes in `ClientIo` and `Session`. Local paths of 1024 bytes or
  more for GET are excluded by `Client.ClientMain`'s precondition, because
  `strncpy` would then leave `path_copy` without a NUL.
- **Message store.** The message store (`message.c`) is not part of this
  model: the disk is a map and its writes are an oracle flag. The cache's
  layout and `CACHE_SIZE` of 16 follow the `cache.h` of the sibling
  `HierarchicalMemory&CachingSystem` directory and the comment in
  `cache.c`.
- **Cache ownership.** Message copies and their `malloc`/`free` ownership
  are not modelled; a copy is the same value.
- **`free_queue`.** `free_queue` is not modelled, because it only releases
  memory.
- **Queue copies.** The `data_size`-byte copy in `push_queue` is a value
  copy.
- **Polybius odd lengths.** `Polybius.PolybiusCipher.Decode` requires
  even-length ciphertext. On odd lengths the C loop steps past the
  terminator and reads beyond the string.
- **Polybius buffers.** Caller-supplied output buffers must be large enough:
  the C code does not check.
- **`arger` output.** Output goes to a string instead of `putchar`. The
  usage and error messages are the exact strings `main` prints.
- **`loadmem` I/O.** `read_file_to_blocks`, `display_blocks`,
  `free_dyn_block`, `free_all_blocks` and `main` of `loadmem.c` are not modelled: they are file
  reading, printing and deallocation around the modelled functions.
- **`loadmem` allocation failures.** The `realloc` failure inside
  `parse_line_to_block` and the allocation in `alloc_dyn_block` are one
  oracle flag, since both end in NULL. The "Stored … integers" and error
  messages are not modelled.
- **`strtok` delimiter.** `strtok` splits on the space character only, as
  the code's delimiter string says; tabs stay inside tokens.
- **Generator ranges.** `genRand` with an empty range, or one whose width
  overflows an `int`, is excluded by `ValidRange`, because the C code would
  divide by zero or convert a negative width.
- **Generator output.** File output is the sequence of lines or values
  written; the clock reading is a parameter. `stderr`/`perror` messages are
  not modelled.
- **Generator statics.** The two programs' statics are one shared
  generator model, since the code is identical.
- **WRITE after a failed `fopen`.** The server's code answers `OK` to a
  WRITE whose `fopen` fails, because `handle_client` sends `OK` after
  `receive_file` returns. The model follows the code.

## Findings

| source | as written | input that shows it | evidently intended | confidence | as-written member | corrected member |
|---|---|---|---|---|---|---|
| MultithreadedRemoteFileStorageSystem/server.c:334-337 | `remove_file_or_dir` returns after `ERROR: File not found` without unlocking the path's mutex | `RM a` for a missing `a`, then `WRITE a 0`: the WRITE waits for ever | unlock before returning, as every other path out of the function does | not executed | `Server.RmMissingThenWriteAsWritten` | `Server.RmMissingThenWrite` |
| MultithreadedRemoteFileStorageSystem/server.c:244-247 | `receive_file` returns after a failed `fopen` without unlocking the path's mutex | `WRITE a 0` where `fopen` fails, then `GET a` of an existing `a`: the GET waits for ever | unlock before returning | not executed | `Server.FailedWriteThenGetAsWritten` | `Server.FailedWriteThenGet` |
