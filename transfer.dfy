/** What the two ends of the file-transfer protocol read from a TCP stream:
    a text line read one byte at a time into a bounded buffer, and a payload
    read in chunks until a declared byte count is reached or the peer stops
    sending. Both the server and the client run loops of each kind. */
module Transfer {

  /** Size of the chunk buffer handed to `recv` by both programs. */
  const BufferSize: nat := 8192

  /** The bytes a line reader stores when it calls `recv` for one byte at a
      time and stops at the first newline (not stored), after `cap` stored
      bytes, or when `recv` reports the end of the stream. */
  function LineOf(input: string, cap: nat): (line: string)
    ensures line <= input && |line| <= cap && '\n' !in line
    ensures |line| == cap || |line| == |input| || input[|line|] == '\n'
  {
    if cap == 0 || input == [] || input[0] == '\n' then []
    else [input[0]] + LineOf(input[1..], cap - 1)
  }

  /** One step of the reader: it stores the first byte unless that byte is a
      newline or the buffer is full. */
  lemma LineOfStep(input: string, cap: nat)
    requires input != []
    ensures input[0] == '\n' || cap == 0 ==> LineOf(input, cap) == []
    ensures input[0] != '\n' && cap > 0 ==> LineOf(input, cap) == [input[0]] + LineOf(input[1..], cap - 1)
  {
  }

  /** One iteration of the reader, after `line` has been stored. */
  lemma ReadStep(input: string, line: string, cap: nat)
    requires |line| < |input| && |line| <= cap
    requires LineOf(input, cap) == line + LineOf(input[|line|..], cap - |line|)
    ensures input[|line|] == '\n' || |line| == cap ==> LineOf(input, cap) == line
    ensures input[|line|] != '\n' && |line| < cap ==>
      LineOf(input, cap) == (line + [input[|line|]]) + LineOf(input[|line| + 1..], cap - (|line| + 1))
  {
    var k := |line|;
    var rest := input[k..];
    LineOfStep(rest, cap - k);
    if input[k] == '\n' || k == cap {
      assert line + [] == line;
    } else {
      assert rest[1..] == input[k + 1..];
    }
  }

  /** A line that ends in a newline within the capacity is read whole, and
      the reader stops right after the newline. */
  lemma {:induction false} LineOfTerminated(s: string, rest: string, cap: nat)
    requires '\n' !in s && |s| <= cap
    ensures LineOf(s + "\n" + rest, cap) == s
    ensures LineConsumed(s + "\n" + rest, cap) == |s| + 1
  {
    if s != [] {
      assert (s + "\n" + rest)[1..] == s[1..] + "\n" + rest;
      assert s[0] in s;
      LineOfTerminated(s[1..], rest, cap - 1);
      assert s == [s[0]] + s[1..];
    } else {
      assert s + "\n" + rest == "\n" + rest;
    }
  }

  /** How many bytes such a reader takes off the stream. The loop tests the
      `recv` result before the capacity, so a full buffer still swallows one
      more byte; a newline is consumed too. */
  function LineConsumed(input: string, cap: nat): nat {
    var n := |LineOf(input, cap)| + 1;
    if n <= |input| then n else |input|
  }

  /** All chunks joined in order. */
  function Flatten(chunks: seq<seq<char>>): seq<char> {
    if chunks == [] then [] else chunks[0] + Flatten(chunks[1..])
  }

  lemma {:induction false} FlattenAppend(chunks: seq<seq<char>>, last: seq<char>)
    ensures Flatten(chunks + [last]) == Flatten(chunks) + last
  {
    if chunks != [] {
      assert (chunks + [last])[1..] == chunks[1..] + [last];
      FlattenAppend(chunks[1..], last);
    } else {
      assert Flatten([last]) == last + Flatten([]);
    }
  }

  /** The bytes a receive loop writes: `while (total < size) { n = recv(...);
      if (n <= 0) break; write n bytes; total += n; }`. `chunks` are the
      successive results of `recv`; an empty chunk, or running out of chunks,
      is `recv` returning zero or less. Whole chunks are written, so the last
      one may carry the total past `size`. */
  function Received(size: int, chunks: seq<seq<char>>): seq<char>
    decreases |chunks|
  {
    if size <= 0 || chunks == [] || chunks[0] == [] then []
    else chunks[0] + Received(size - |chunks[0]|, chunks[1..])
  }

  /** Every chunk carries at least one byte and at most a buffer's worth. */
  predicate ProperChunks(chunks: seq<seq<char>>) {
    forall j :: 0 <= j < |chunks| ==> 0 < |chunks[j]| <= BufferSize
  }

  /** What is written is always a prefix of what the peer sent. */
  lemma {:induction false} ReceivedIsPrefix(size: int, chunks: seq<seq<char>>)
    ensures Received(size, chunks) <= Flatten(chunks)
    decreases |chunks|
  {
    if !(size <= 0 || chunks == [] || chunks[0] == []) {
      ReceivedIsPrefix(size - |chunks[0]|, chunks[1..]);
    }
  }

  /** The loop stops at most one chunk past the declared size. */
  lemma {:induction false} ReceivedOvershoot(size: int, chunks: seq<seq<char>>)
    requires ProperChunks(chunks)
    ensures |Received(size, chunks)| < (if size < 0 then 0 else size) + BufferSize
    decreases |chunks|
  {
    if !(size <= 0 || chunks == [] || chunks[0] == []) {
      ReceivedOvershoot(size - |chunks[0]|, chunks[1..]);
    }
  }

  /** A peer that keeps sending (no zero-length `recv`) until at least `size`
      bytes are out gets at least `size` bytes written. */
  lemma {:induction false} ReceivedReachesSize(size: int, chunks: seq<seq<char>>)
    requires forall j :: 0 <= j < |chunks| ==> chunks[j] != []
    requires |Flatten(chunks)| >= size
    ensures |Received(size, chunks)| >= size
    decreases |chunks|
  {
    if size > 0 {
      ReceivedReachesSize(size - |chunks[0]|, chunks[1..]);
    }
  }

  /** When the peer sends exactly `size` bytes in non-empty chunks, exactly
      those bytes are written: the frame round-trips. */
  lemma {:induction false} ReceivedExactFrame(chunks: seq<seq<char>>)
    requires forall j :: 0 <= j < |chunks| ==> chunks[j] != []
    ensures Received(|Flatten(chunks)|, chunks) == Flatten(chunks)
    decreases |chunks|
  {
    if chunks != [] {
      ReceivedExactFrame(chunks[1..]);
    }
  }

  /** The line-reading loop both programs run:
      `while (recv(sock, &ch, 1, 0) > 0 && ch != '\n' && i < cap) buf[i++] = ch;`
      `line` holds the stored bytes (the NUL written after them is implicit),
      `consumed` the bytes taken off the stream. */
  method ReadLine(input: string, cap: nat) returns (line: string, consumed: nat)
    ensures line == LineOf(input, cap)
    ensures consumed == LineConsumed(input, cap)
  {
    line := [];
    consumed := 0;
    while consumed < |input|
      invariant consumed <= |input| && |line| <= cap && consumed == |line|
      invariant LineOf(input, cap) == line + LineOf(input[consumed..], cap - |line|)
    {
      var ch := input[consumed];
      ReadStep(input, line, cap);
      consumed := consumed + 1;
      if ch == '\n' || |line| >= cap {
        return;
      }
      line := line + [ch];
    }
    assert input[consumed..] == [];
  }

  /** The receive loop both programs run after a size is known: it writes
      exactly the bytes `recv` delivers, whole chunks at a time, until the
      total reaches `size` or `recv` returns zero or less. */
  method ReceiveLoop(size: int, chunks: seq<seq<char>>) returns (written: seq<char>, total: int)
    ensures written == Received(size, chunks)
    ensures total == |written|
  {
    written := [];
    total := 0;
    var j := 0;
    while total < size
      invariant 0 <= j <= |chunks| && total == |written|
      invariant Received(size, chunks) == written + Received(size - total, chunks[j..])
      decreases |chunks| - j
    {
      if j == |chunks| || chunks[j] == [] {
        break;
      }
      var bytes := chunks[j];
      assert chunks[j..][1..] == chunks[j + 1..];
      written := written + bytes;
      total := total + |bytes|;
      j := j + 1;
    }
  }

  /** The send loop both programs run over a file: `fread` of up to a
      buffer's worth at a time, each piece sent, until `fread` returns 0. The
      pieces carry the content in order; every piece but the last is a full
      buffer. */
  method SendContent(content: seq<char>) returns (pieces: seq<seq<char>>)
    ensures Flatten(pieces) == content && ProperChunks(pieces)
    ensures forall j :: 0 <= j < |pieces| - 1 ==> |pieces[j]| == BufferSize
  {
    pieces := [];
    var pos := 0;
    while pos < |content|
      invariant 0 <= pos <= |content|
      invariant Flatten(pieces) == content[..pos] && ProperChunks(pieces)
      invariant forall j :: 0 <= j < |pieces| - 1 ==> |pieces[j]| == BufferSize
      invariant pos < |content| ==> forall j :: 0 <= j < |pieces| ==> |pieces[j]| == BufferSize
    {
      var n := if |content| - pos < BufferSize then |content| - pos else BufferSize;
      FlattenAppend(pieces, content[pos..pos + n]);
      assert content[..pos] + content[pos..pos + n] == content[..pos + n];
      pieces := pieces + [content[pos..pos + n]];
      pos := pos + n;
    }
    assert content[..pos] == content;
  }
}
