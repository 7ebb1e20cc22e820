/**
 * `handle_file_request`: a status line with a Content-Length header, then
 * the body streamed through one reused 1024-byte buffer in a
 * `while sent < length` loop.
 */
module FileResponder {
  import opened Bytes
  import opened Http
  import opened Wire

  /** Size of the reused read buffer. */
  const ChunkSize: nat := 1024

  const U64Max: nat := 0xFFFF_FFFF_FFFF_FFFF

  type u64 = x: int | 0 <= x <= U64Max

  /**
   * What one `read` call of the opened file returns: some bytes (zero bytes
   * at end of file) or an I/O error, which `unwrap` turns into a panic.
   */
  datatype ReadResult = Got(bytes: seq<byte>) | ReadError

  /**
   * How the send loop ends. `Stalled`: the reads ran out before `length`
   * bytes were sent; every later read returns zero bytes, so the source
   * keeps looping forever.
   */
  datatype Stop = Done | Stalled | Aborted

  /**
   * The loop's trace: the body writes in order, the final value of `sent`,
   * how many scripted reads were consumed, and how it ends.
   */
  datatype LoopEnd = LoopEnd(writes: seq<seq<byte>>, sent: nat, consumed: nat, stop: Stop)

  /** A trace with `done` written and `k` reads consumed in front of `e`. */
  function After(done: seq<seq<byte>>, k: nat, e: LoopEnd): LoopEnd {
    LoopEnd(done + e.writes, e.sent, k + e.consumed, e.stop)
  }

  /** Every scripted read fits the buffer it reads into. */
  predicate ReadsFit(script: seq<ReadResult>) {
    forall i | 0 <= i < |script| :: script[i].Got? ==> |script[i].bytes| <= ChunkSize
  }

  /** The bytes delivered by a run of reads, in order. */
  function ReadBytes(script: seq<ReadResult>): seq<byte>
  {
    if script == [] then []
    else (if script[0].Got? then script[0].bytes else []) + ReadBytes(script[1..])
  }

  /** Response head: `HTTP/1.1 200 OK`, `Content-Length: <length>`, blank line. */
  function FileHeader(length: u64): (r: seq<byte>)
    ensures r == Ascii(Head("200", "OK", [Header("Content-Length", Decimal(length))]))
  {
    var prefix := "HTTP/1.1 200 OK\r\nContent-Length: ";
    FileHeadText(prefix, Decimal(length));
    Ascii(prefix + Decimal(length) + "\r\n\r\n")
  }

  lemma FileHeadText(prefix: string, d: string)
    requires prefix == "HTTP/1.1 200 OK\r\nContent-Length: "
    ensures Head("200", "OK", [Header("Content-Length", d)]) == prefix + d + "\r\n\r\n"
  {
    StatusLineOk();
    HeadOneHeader("200", "OK", "Content-Length", d);
    assert "HTTP/1.1 200 OK\r\n" + "Content-Length" + ": " == prefix;
  }

  /** The head followed by a body is the whole 200 message announcing `length`. */
  lemma FileMessage(length: u64, body: seq<byte>)
    ensures FileHeader(length) + body == Message("200", "OK", [Header("Content-Length", Decimal(length))], body)
  {
  }

  /**
   * The `while sent < length` loop from the state `sent`, fed the remaining
   * scripted reads. Each iteration writes the bytes read, so a zero-byte
   * read writes an empty slice and leaves `sent` as it was. Once the script
   * is exhausted every read returns zero bytes (end of file) and the source
   * repeats that iteration forever: the trace records it once and stops
   * with `Stalled`. A read error panics before the write; an overflow of the
   * `u64` counter panics (debug build) after the write.
   */
  function RunLoop(sent: nat, length: u64, script: seq<ReadResult>): (e: LoopEnd)
    ensures e.consumed <= |script| && sent <= e.sent
    ensures e.stop == Done <==> length <= e.sent
    ensures e.stop == Stalled ==> e.consumed == |script|
    decreases |script|
  {
    if sent >= length then LoopEnd([], sent, 0, Done)
    else if script == [] then LoopEnd([[]], sent, 0, Stalled)
    else match script[0]
      case ReadError => LoopEnd([], sent, 1, Aborted)
      case Got(c) =>
        if sent + |c| > U64Max then LoopEnd([c], sent, 1, Aborted)
        else
          var rest := RunLoop(sent + |c|, length, script[1..]);
          LoopEnd([c] + rest.writes, rest.sent, 1 + rest.consumed, rest.stop)
  }

  /** Each body write carries at most one buffer's worth of bytes. */
  lemma {:induction false} WritesFitBuffer(sent: nat, length: u64, script: seq<ReadResult>)
    requires ReadsFit(script)
    ensures forall i | 0 <= i < |RunLoop(sent, length, script).writes| ::
      |RunLoop(sent, length, script).writes[i]| <= ChunkSize
    decreases |script|
  {
    if sent < length && script != [] && script[0].Got? && sent + |script[0].bytes| <= U64Max
    {
      WritesFitBuffer(sent + |script[0].bytes|, length, script[1..]);
    }
  }

  /**
   * The body written is exactly the bytes read, in order; unless the loop
   * panicked on overflow, `sent` grew by exactly the number of body bytes
   * written.
   */
  lemma {:induction false} WritesAreReads(sent: nat, length: u64, script: seq<ReadResult>)
    ensures var e := RunLoop(sent, length, script);
      Concat(e.writes) == ReadBytes(script[..e.consumed])
      && (e.stop != Aborted ==> e.sent == sent + |Concat(e.writes)|)
    decreases |script|
  {
    var e := RunLoop(sent, length, script);
    if sent >= length || script == [] {
      assert script[..0] == [];
    } else if script[0].ReadError? || sent + |script[0].bytes| > U64Max {
      ReadBytesPrefix(script, 1);
      assert script[1..][..0] == [];
    } else {
      var c := script[0].bytes;
      var rest := RunLoop(sent + |c|, length, script[1..]);
      WritesAreReads(sent + |c|, length, script[1..]);
      assert e == LoopEnd([c] + rest.writes, rest.sent, 1 + rest.consumed, rest.stop);
      ReadBytesPrefix(script, e.consumed);
      assert ([c] + rest.writes)[1..] == rest.writes;
      assert Concat(e.writes) == c + Concat(rest.writes);
      assert |Concat(e.writes)| == |c| + |Concat(rest.writes)|;
    }
  }

  /** The bytes of the first `m` reads: those of the first read, then those of the next `m - 1`. */
  lemma ReadBytesPrefix(script: seq<ReadResult>, m: nat)
    requires 1 <= m <= |script|
    ensures ReadBytes(script[..m])
      == (if script[0].Got? then script[0].bytes else []) + ReadBytes(script[1..][..m - 1])
  {
    assert script[..m][0] == script[0];
    assert script[..m][1..] == script[1..][..m - 1];
  }

  /** A run of reads each returning at least one byte and no error. */
  predicate AllPositive(script: seq<ReadResult>) {
    forall i | 0 <= i < |script| :: script[i].Got? && |script[i].bytes| > 0
  }

  /**
   * When the reads return the file's bytes in non-empty pieces adding up to
   * the announced length, the loop ends normally with `sent == length`, and
   * the body writes are those pieces.
   */
  lemma {:induction false} CompleteTransfer(sent: nat, length: u64, script: seq<ReadResult>)
    requires AllPositive(script)
    requires sent + |ReadBytes(script)| == length
    ensures var e := RunLoop(sent, length, script);
      e.stop == Done && e.sent == length && e.consumed == |script|
      && Concat(e.writes) == ReadBytes(script)
    decreases |script|
  {
    if script != [] {
      var c := script[0].bytes;
      assert AllPositive(script[1..]) by {
        forall i | 0 <= i < |script[1..]| ensures script[1..][i].Got? && |script[1..][i].bytes| > 0 {
          assert script[1..][i] == script[i + 1];
        }
      }
      CompleteTransfer(sent + |c|, length, script[1..]);
    }
  }

  /** A zero-length file gets no body writes at all. */
  lemma EmptyFileNoBody(script: seq<ReadResult>)
    ensures RunLoop(0, 0, script) == LoopEnd([], 0, 0, Done)
  {
  }

  /**
   * A read of zero bytes before `length` bytes were sent makes no progress:
   * it adds an empty write and one consumed read in front of the trace of
   * the same `sent` on the later reads.
   */
  lemma ZeroReadRepeats(sent: nat, length: u64, rest: seq<ReadResult>)
    requires sent < length
    ensures RunLoop(sent, length, [Got([])] + rest) == After([[]], 1, RunLoop(sent, length, rest))
  {
    assert ([Got([])] + rest)[1..] == rest;
  }

  /** The loop only ends normally once at least `length` bytes were sent. */
  lemma {:induction false} DoneMeansLengthReached(sent: nat, length: u64, script: seq<ReadResult>)
    requires ReadsFit(script)
    requires sent <= length
    ensures var e := RunLoop(sent, length, script);
      e.stop == Done ==> length <= e.sent && (e.sent == length || e.sent < length + ChunkSize)
    ensures RunLoop(sent, length, script).stop == Stalled ==> RunLoop(sent, length, script).sent < length
    decreases |script|
  {
    if sent < length && script != [] && script[0].Got? && sent + |script[0].bytes| <= U64Max
    {
      var c := script[0].bytes;
      if sent + |c| <= length {
        DoneMeansLengthReached(sent + |c|, length, script[1..]);
      } else {
        assert RunLoop(sent + |c|, length, script[1..]).sent == sent + |c|;
      }
    }
  }

  /**
   * An opened file: the size its metadata reported and the script of what
   * successive `read` calls return. `cursor` counts the reads done.
   */
  class FileHandle {
    const length: u64
    const script: seq<ReadResult>
    var cursor: nat

    ghost predicate Valid()
      reads this
    {
      cursor <= |script| && ReadsFit(script)
    }

    /**
     * Every scripted read was made: from here on each read returns zero
     * bytes, so the send loop can make no more progress.
     */
    predicate AtEnd()
      reads this
    {
      cursor == |script|
    }

    constructor (length: u64, script: seq<ReadResult>)
      requires ReadsFit(script)
      ensures Valid() && cursor == 0
      ensures this.length == length && this.script == script
    {
      this.length := length;
      this.script := script;
      cursor := 0;
    }

    /**
     * `file.read(&mut buf)`: `None` is an I/O error, `Some(n)` fills
     * `buf[..n]`. At end of script, end of file: zero bytes.
     */
    method Read(buf: array<byte>) returns (r: Option<nat>)
      requires Valid() && buf.Length == ChunkSize
      modifies this, buf
      ensures Valid()
      ensures old(cursor) == |script| ==> r == Some(0) && cursor == old(cursor)
      ensures old(cursor) < |script| ==> cursor == old(cursor) + 1
      ensures old(cursor) < |script| && script[old(cursor)].ReadError? ==> r == None
      ensures old(cursor) < |script| && script[old(cursor)].Got? ==>
        r == Some(|script[old(cursor)].bytes|) && buf[..r.value] == script[old(cursor)].bytes
    {
      if cursor == |script| {
        return Some(0);
      }
      var next := script[cursor];
      cursor := cursor + 1;
      match next
      case ReadError =>
        r := None;
      case Got(c) =>
        var i := 0;
        while i < |c|
          invariant 0 <= i <= |c| <= buf.Length
          invariant buf[..i] == c[..i]
          modifies buf
        {
          buf[i] := c[i];
          i := i + 1;
        }
        r := Some(|c|);
    }
  }

  /** One iteration that reads a chunk without overflow moves that chunk into the done part. */
  lemma AfterStep(done: seq<seq<byte>>, k: nat, sent: nat, length: u64, rest: seq<ReadResult>)
    requires sent < length && rest != [] && rest[0].Got?
    requires sent + |rest[0].bytes| <= U64Max
    ensures After(done, k, RunLoop(sent, length, rest))
      == After(done + [rest[0].bytes], k + 1, RunLoop(sent + |rest[0].bytes|, length, rest[1..]))
  {
    var c := rest[0].bytes;
    var e := RunLoop(sent + |c|, length, rest[1..]);
    assert RunLoop(sent, length, rest) == LoopEnd([c] + e.writes, e.sent, 1 + e.consumed, e.stop);
    assert done + ([c] + e.writes) == (done + [c]) + e.writes;
  }

  /** The loop condition fails: the trace ends here. */
  lemma AfterDone(done: seq<seq<byte>>, k: nat, sent: nat, length: u64, rest: seq<ReadResult>)
    requires sent >= length
    ensures After(done, k, RunLoop(sent, length, rest)) == LoopEnd(done, sent, k, Done)
  {
    assert done + [] == done;
  }

  /** A failed read ends the trace before anything is written. */
  lemma AfterFailed(done: seq<seq<byte>>, k: nat, sent: nat, length: u64, rest: seq<ReadResult>)
    requires sent < length && Next(rest).ReadError?
    ensures After(done, k, RunLoop(sent, length, rest)) == LoopEnd(done, sent, k + 1, Aborted)
  {
    assert done + [] == done;
  }

  /** A read at end of file writes an empty slice and stalls. */
  lemma AfterEnd(done: seq<seq<byte>>, k: nat, sent: nat, length: u64, rest: seq<ReadResult>)
    requires sent < length && rest == []
    ensures After(done, k, RunLoop(sent, length, rest)) == LoopEnd(done + [[]], sent, k, Stalled)
  {
  }

  /** A read that overflows `sent` is written, then the addition panics. */
  lemma AfterOverflow(done: seq<seq<byte>>, k: nat, sent: nat, length: u64, rest: seq<ReadResult>)
    requires sent < length && rest != [] && rest[0].Got?
    requires sent + |rest[0].bytes| > U64Max
    ensures After(done, k, RunLoop(sent, length, rest)) == LoopEnd(done + [rest[0].bytes], sent, k + 1, Aborted)
  {
    assert [rest[0].bytes] + [] == [rest[0].bytes];
  }

  /**
   * `handle_file_request` once the file is open: writes the head, then runs
   * the send loop. What reaches the stream and how the loop ends are given
   * by `RunLoop` from `sent == 0`.
   */
  method SendFile(file: FileHandle, stream: Stream) returns (stop: Stop)
    requires file.Valid() && file.cursor == 0
    modifies file, stream
    ensures file.Valid()
    ensures stop == RunLoop(0, file.length, file.script).stop
    ensures file.cursor == RunLoop(0, file.length, file.script).consumed
    ensures stream.writes ==
      old(stream.writes) + [FileHeader(file.length)] + RunLoop(0, file.length, file.script).writes
  {
    stream.Write(FileHeader(file.length));
    stop := SendBody(file, stream);
  }

  /** What the next `read` returns: end of file reads zero bytes. */
  function Next(rest: seq<ReadResult>): ReadResult {
    if rest == [] then Got([]) else rest[0]
  }

  /**
   * One iteration of the send loop: `file.read(&mut content)`, then
   * `stream.write(&content[..chunk])` and `sent += chunk`. Taking the
   * writes made so far as the done part of the trace, the trace from here
   * is unchanged: either the iteration ends it (`stop` says how), or it
   * continues from the new `sent` and the remaining reads. At end of file
   * the source would repeat this iteration forever; the model stops after
   * it with `Stalled`.
   */
  method Step(file: FileHandle, content: array<byte>, stream: Stream, sent: nat)
    returns (stop: Option<Stop>, sent': nat)
    requires file.Valid() && content.Length == ChunkSize && sent < file.length
    modifies file, content, stream
    ensures file.Valid()
    ensures stop.None? ==> file.cursor == old(file.cursor) + 1 && sent' <= U64Max
    ensures After(old(stream.writes), old(file.cursor), RunLoop(sent, file.length, old(file.script[file.cursor..])))
      == if stop.Some? then LoopEnd(stream.writes, sent', file.cursor, stop.value)
         else After(stream.writes, file.cursor, RunLoop(sent', file.length, file.script[file.cursor..]))
  {
    ghost var rest := file.script[file.cursor..];
    ghost var at := file.cursor;
    ghost var before := stream.writes;
    assert rest == [] <==> at == |file.script|;
    assert rest != [] ==> rest[0] == file.script[at] && rest[1..] == file.script[at + 1..];
    var atEnd := file.AtEnd();
    var n := file.Read(content);
    assert n.None? <==> Next(rest).ReadError?;
    assert n.Some? ==> n.value <= ChunkSize && Next(rest) == Got(content[..n.value]);
    if n.None? {
      AfterFailed(before, at, sent, file.length, rest);
      return Some(Aborted), sent;
    }
    var chunk := n.value;
    stream.Write(content[..chunk]);
    if atEnd {
      AfterEnd(before, at, sent, file.length, rest);
      return Some(Stalled), sent;
    }
    if sent + chunk > U64Max {
      AfterOverflow(before, at, sent, file.length, rest);
      return Some(Aborted), sent;
    }
    AfterStep(before, at, sent, file.length, rest);
    return None, sent + chunk;
  }

  /**
   * The `while sent < length` loop, one `Step` per iteration, as `RunLoop`
   * traces it.
   */
  method SendBody(file: FileHandle, stream: Stream) returns (stop: Stop)
    requires file.Valid() && file.cursor == 0
    modifies file, stream
    ensures file.Valid()
    ensures var e := RunLoop(0, file.length, file.script);
      stop == e.stop && file.cursor == e.consumed && stream.writes == old(stream.writes) + e.writes
  {
    ghost var whole := After(stream.writes, 0, RunLoop(0, file.length, file.script));
    var content := new byte[ChunkSize];
    var sent: nat := 0;
    assert file.script[0..] == file.script;
    while sent < file.length
      invariant file.Valid() && sent <= U64Max
      invariant whole == After(stream.writes, file.cursor, RunLoop(sent, file.length, file.script[file.cursor..]))
      decreases |file.script| - file.cursor
    {
      var next;
      next, sent := Step(file, content, stream, sent);
      if next.Some? {
        return next.value;
      }
    }
    AfterDone(stream.writes, file.cursor, sent, file.length, file.script[file.cursor..]);
    return Done;
  }
}
