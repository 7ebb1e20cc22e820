/**
 * `handle_connection`: one request turned into what is written to the
 * socket. Filesystem answers are inputs: the three flags for the resolved
 * path, the opened file (or its failure to open) and the directory entries
 * (or a failure to list them).
 */
module Connection {
  import opened Bytes
  import opened Http
  import opened Wire
  import opened Router
  import opened FileResponder
  import opened DirResponder
  import opened NotFound

  /** The answers of `exists`, `is_file` and `is_dir` for the resolved path. */
  datatype Probe = Probe(present: bool, isFile: bool, isDir: bool)

  /** An opened file as data: its metadata size and its read script. */
  datatype OpenedFile = OpenedFile(length: u64, script: seq<ReadResult>)

  /**
   * How the job ends: without writing, by a panic, by looping forever in
   * the send loop, or normally after the named responder ran.
   */
  datatype Outcome = NoResponse | Panicked | Hangs | Responded(responder: Responder)

  /** The writes made on the socket, in order, and how the job ended. */
  datatype Exchange = Exchange(writes: seq<seq<byte>>, outcome: Outcome)

  function LoopOutcome(stop: Stop): Outcome {
    match stop
    case Done => Responded(ServeFile)
    case Stalled => Hangs
    case Aborted => Panicked
  }

  /**
   * The whole exchange for one connection. Nothing is written unless a
   * path is served, and a normal end names the responder the flags select.
   */
  function Respond(req: Request, probe: Probe, file: Option<OpenedFile>, listing: Option<seq<Entry>>): (x: Exchange)
    ensures x.writes != [] ==> PlanFor(req).Serve?
    ensures x.outcome.Responded? ==>
      PlanFor(req).Serve? && x.outcome.responder == Route(probe.present, probe.isFile, probe.isDir)
    ensures x.outcome == Hangs ==> Route(probe.present, probe.isFile, probe.isDir) == ServeFile && file.Some?
  {
    match PlanFor(req)
    case Silent => Exchange([], NoResponse)
    case Abort => Exchange([], Panicked)
    case Serve(_) =>
      match Route(probe.present, probe.isFile, probe.isDir)
      case ServeNotFound => Exchange([NotFoundResponse()], Responded(ServeNotFound))
      case ServeDir =>
        if listing.None? then Exchange([], Panicked)
        else Exchange([DirResponse(listing.value)], Responded(ServeDir))
      case ServeFile =>
        if file.None? then Exchange([], Panicked)
        else
          var e := RunLoop(0, file.value.length, file.value.script);
          Exchange([FileHeader(file.value.length)] + e.writes, LoopOutcome(e.stop))
  }

  /**
   * The handler itself, on a socket object and an opened-file object
   * (`null` when opening or reading the metadata failed).
   */
  method HandleConnection(req: Request, probe: Probe, file: FileHandle?, listing: Option<seq<Entry>>, stream: Stream)
    returns (outcome: Outcome)
    requires file != null ==> file.Valid() && file.cursor == 0
    modifies stream, file
    ensures var x := Respond(req, probe, if file == null then None else Some(OpenedFile(file.length, file.script)), listing);
      stream.writes == old(stream.writes) + x.writes && outcome == x.outcome
  {
    var plan := PlanFor(req);
    match plan
    case Silent =>
      outcome := NoResponse;
    case Abort =>
      outcome := Panicked;
    case Serve(_) =>
      var responder := Route(probe.present, probe.isFile, probe.isDir);
      match responder
      case ServeNotFound =>
        stream.Write(NotFoundResponse());
        outcome := Responded(ServeNotFound);
      case ServeDir =>
        if listing.None? {
          outcome := Panicked;
        } else {
          stream.Write(DirResponse(listing.value));
          outcome := Responded(ServeDir);
        }
      case ServeFile =>
        if file == null {
          outcome := Panicked;
        } else {
          var stop := SendFile(file, stream);
          outcome := LoopOutcome(stop);
        }
  }

  /** Nothing is written unless the plan is to serve a path. */
  lemma SilentWithoutPath(req: Request, probe: Probe, file: Option<OpenedFile>, listing: Option<seq<Entry>>)
    ensures var x := Respond(req, probe, file, listing);
      (x.outcome == NoResponse <==> req.Partial? || req == Complete(None))
      && (!PlanFor(req).Serve? ==> x.writes == [])
  {
  }

  /** A path that is not rooted aborts the job before anything is written. */
  lemma UnrootedPathAborts(path: string, probe: Probe, file: Option<OpenedFile>, listing: Option<seq<Entry>>)
    requires path == [] || path[0] != '/'
    ensures Respond(Complete(Some(path)), probe, file, listing) == Exchange([], Panicked)
  {
  }

  /** Which responder runs depends only on the three flags, exactly as `Route` says. */
  lemma RoutedByFlags(req: Request, probe: Probe, file: Option<OpenedFile>, listing: Option<seq<Entry>>)
    requires PlanFor(req).Serve?
    ensures var x := Respond(req, probe, file, listing);
      (x.outcome == Responded(ServeFile) ==> probe.present && probe.isFile && !probe.isDir)
      && (x.outcome == Responded(ServeDir) <==> probe.present && !probe.isFile && probe.isDir && listing.Some?)
      && (x.outcome == Responded(ServeNotFound) <==> !(probe.present && probe.isFile != probe.isDir))
  {
  }

  /** Every combination of flags other than the file and directory ones gives exactly the 404 message. */
  lemma NotFoundWire(req: Request, probe: Probe, file: Option<OpenedFile>, listing: Option<seq<Entry>>)
    requires PlanFor(req).Serve?
    requires !(probe.present && probe.isFile != probe.isDir)
    ensures Concat(Respond(req, probe, file, listing).writes) == Message("404", "NOT FOUND", [], [])
  {
    assert Concat([NotFoundResponse()]) == NotFoundResponse() + Concat<byte>([]);
  }

  /** A listed directory gets the 200 status line, no header field, and the page with one item per entry. */
  lemma DirectoryWire(req: Request, probe: Probe, file: Option<OpenedFile>, es: seq<Entry>)
    requires PlanFor(req).Serve?
    requires probe.present && !probe.isFile && probe.isDir
    ensures Concat(Respond(req, probe, file, Some(es)).writes) == Message("200", "OK", [], Page(es))
  {
    assert Concat([DirResponse(es)]) == DirResponse(es) + Concat<byte>([]);
  }

  /**
   * For any read script, the bytes on the wire are the head announcing the
   * metadata length followed by exactly the bytes read, in order, and no
   * body write exceeds the buffer.
   */
  lemma FileWire(req: Request, probe: Probe, f: OpenedFile, listing: Option<seq<Entry>>)
    requires PlanFor(req).Serve?
    requires probe.present && probe.isFile && !probe.isDir
    requires ReadsFit(f.script)
    ensures var x := Respond(req, probe, Some(f), listing);
      var e := RunLoop(0, f.length, f.script);
      x.writes[0] == FileHeader(f.length)
      && (forall i | 1 <= i < |x.writes| :: |x.writes[i]| <= ChunkSize)
      && Concat(x.writes) == FileHeader(f.length) + ReadBytes(f.script[..e.consumed])
  {
    var e := RunLoop(0, f.length, f.script);
    var x := Respond(req, probe, Some(f), listing);
    assert x.writes == [FileHeader(f.length)] + e.writes;
    WritesFitBuffer(0, f.length, f.script);
    WritesAreReads(0, f.length, f.script);
    ConcatAppend([FileHeader(f.length)], e.writes);
    assert Concat([FileHeader(f.length)]) == FileHeader(f.length) + Concat<byte>([]);
  }

  /**
   * When the reads return the file's content in non-empty pieces and the
   * metadata length is the content's length, the response is a complete
   * 200 message whose Content-Length is that length and whose body is the
   * content.
   */
  lemma FileServed(req: Request, probe: Probe, content: seq<byte>, script: seq<ReadResult>, listing: Option<seq<Entry>>)
    requires PlanFor(req).Serve?
    requires probe.present && probe.isFile && !probe.isDir
    requires AllPositive(script) && ReadBytes(script) == content && |content| <= U64Max
    ensures var x := Respond(req, probe, Some(OpenedFile(|content|, script)), listing);
      x.outcome == Responded(ServeFile)
      && Concat(x.writes) == Message("200", "OK", [Header("Content-Length", Decimal(|content|))], content)
  {
    var e := RunLoop(0, |content|, script);
    assert Respond(req, probe, Some(OpenedFile(|content|, script)), listing)
      == Exchange([FileHeader(|content|)] + e.writes, LoopOutcome(e.stop));
    CompleteTransfer(0, |content|, script);
    ConcatAppend([FileHeader(|content|)], e.writes);
    assert Concat([FileHeader(|content|)]) == FileHeader(|content|) + Concat<byte>([]);
    FileMessage(|content|, content);
  }

  /**
   * On the wire of a served file, the head carries one `Content-Length`
   * value, and that value reads back as the number of bytes after the head.
   */
  lemma ContentLengthIsBodyLength(req: Request, probe: Probe, content: seq<byte>, script: seq<ReadResult>,
                                  listing: Option<seq<Entry>>)
    requires PlanFor(req).Serve?
    requires probe.present && probe.isFile && !probe.isDir
    requires AllPositive(script) && ReadBytes(script) == content && |content| <= U64Max
    ensures var wire := Concat(Respond(req, probe, Some(OpenedFile(|content|, script)), listing).writes);
      var v := Decimal(|content|);
      var head := Ascii(Head("200", "OK", [Header("Content-Length", v)]));
      |head| <= |wire| && wire[..|head|] == head && ParseDecimal(v) == |wire| - |head|
  {
    FileServed(req, probe, content, script, listing);
    DecimalRoundTrip(|content|);
  }

  /** `GET /index.html` of a five-byte file read in one piece. */
  lemma HelloExample(path: string, hello: seq<byte>)
    requires path == "/index.html" && hello == Ascii("hello")
    ensures var x := Respond(Complete(Some(path)), Probe(true, true, false), Some(OpenedFile(5, [Got(hello)])), None);
      x.outcome == Responded(ServeFile)
      && Concat(x.writes) == Ascii("HTTP/1.1 200 OK\r\n") + Ascii("Content-Length: 5\r\n") + Ascii("\r\n") + hello
  {
    var req := Complete(Some(path));
    assert PlanFor(req).Serve? by {
      assert Slashes(1) + "index.html" == path;
      StripRootRoundTrip(1, "index.html");
    }
    assert ReadBytes([Got(hello)]) == hello by {
      assert ReadBytes([Got(hello)]) == hello + ReadBytes([]);
    }
    FileServed(req, Probe(true, true, false), hello, [Got(hello)], None);
    var status, field, blank := "HTTP/1.1 200 OK\r\n", "Content-Length: 5\r\n", "\r\n";
    assert Decimal(5) == "5";
    assert Head("200", "OK", [Header("Content-Length", "5")]) == status + field + blank by {
      StatusLineOk();
      HeadOneHeader("200", "OK", "Content-Length", "5");
      assert "Content-Length" + ": " + "5" + "\r\n" == field;
    }
    AsciiAppend(status, field);
    AsciiAppend(status + field, blank);
  }

  /**
   * A directory holding a subdirectory `a` and a file `b.txt`, listed in
   * that order: two items, `a` rendered as `a/` in href and text, `b.txt`
   * unchanged.
   */
  lemma DirectoryExample(a: Entry, b: Entry)
    requires a == Entry(Ascii("a"), true) && b == Entry(Ascii("b.txt"), false)
    ensures Listing([a, b]) == Item(a) + Item(b)
    ensures ParseItem(Item(a)) == Some((Ascii("a") + [Slash], Ascii("a") + [Slash]))
    ensures ParseItem(Item(b)) == Some((Ascii("b.txt"), Ascii("b.txt")))
  {
    ListingPair(a, b);
    assert Quote !in a.name && Quote !in b.name;
    ItemRoundTrip(a);
    ItemRoundTrip(b);
  }

  /** A two-entry listing is the two items laid end to end. */
  lemma ListingPair(a: Entry, b: Entry)
    ensures Listing([a, b]) == Item(a) + Item(b)
  {
    ListingAppend([a], [b]);
    assert [a] + [b] == [a, b];
    assert Listing([a]) == Item(a) + Concat(Items([a])[1..]);
    assert Listing([b]) == Item(b) + Concat(Items([b])[1..]);
  }
}
