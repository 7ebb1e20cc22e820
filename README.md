# static-server: per-connection response logic

This project models what one connection of the `static-server` HTTP/1.1
server turns into on the wire. The server serves files and directory
listings from its working directory. The code is `src/main.rs`.

- The **router** (`handle_connection`) takes the result of parsing the
  first read of the socket. It strips the root from the request path and
  picks one of three responders from the triple `(exists, is_file, is_dir)`.
- The **file responder** (`handle_file_request`) writes
  `HTTP/1.1 200 OK`, a `Content-Length` header holding the metadata size and
  an empty line (sections 3.1.2 and 3.3.2 of RFC 7230). It then streams the
  body through one reused 1024-byte buffer in a `while sent < length` loop.
- The **directory responder** (`handle_dir_request`) renders one
  `<li><a href="N">N</a>` item per entry, in iteration order. A directory
  entry gets a `/` appended. The items sit inside a fixed HTML page. There
  is no length header, so the body ends when the connection closes
  (section 3.3.3 of RFC 7230).
- The **not-found responder** (`handle_not_found`) writes the constant
  `HTTP/1.1 404 NOT FOUND\r\n\r\n`.

Filesystem queries and reads are inputs:

- three booleans for the probes;
- an opened file, given as its metadata length and the script of what its
  successive `read` calls return;
- an optional list of `(name, isDir)` directory entries.

The socket is a `Stream` object that records every `write` call.

Modules, one per component:

- `Bytes`: bytes, ASCII text, concatenation, decimal numerals and their parser.
- `Http`: a reference rendering of a response message after section 3 of
  RFC 7230 (status line, header fields, empty line, body). The responders
  are proved equal to it.
- `Wire`: the `Stream` class.
- `Router`: the request plan, the root strip and the routing match.
- `FileResponder`: the `FileHandle` class and the `SendFile` method with its
  loop. `SendFile` is proved against the `RunLoop` trace function, and
  `RunLoop`'s properties are proved as lemmas.
- `DirResponder`: items, the listing, the page, and an item reader that is
  used to state what each item holds.
- `NotFound`: the 404 response.
- `Connection`: the `Respond` exchange function, the `HandleConnection`
  method proved against it, and end-to-end lemmas.

Outcomes of one job:

- `NoResponse`: an incomplete parse, or no path.
- `Panicked`: one of the modelled `unwrap`s failed, or the `u64` counter
  overflowed. Nothing more is written.
- `Hangs`: the scripted reads ran out before `length` bytes were sent. From
  there every read returns zero bytes (end of file), and the source repeats
  the same zero-byte read and empty write forever. The model records that
  iteration once and stops. A zero-byte read earlier in the script writes an
  empty slice, and the loop goes on with the next read.
- `Responded(r)`: responder `r` finished normally.

Three behaviours of the code are worth stating outright:

- `name` gets the `/` pushed onto it before `format!`, so the `/` is in the
  href as well as in the link text (`DirResponder.ItemRoundTrip`).
- A path without a leading `/` makes `strip_prefix("/").unwrap()` panic, so
  the job ends with nothing written (`Connection.UnrootedPathAborts`).
- `format!` escapes nothing. In the item of a name holding `"`, the href
  ends at that `"` (`DirResponder.QuoteCutsHref`).

## Model

| member | source | states |
|---|---|---|
| Router.StripRoot | src/main.rs:40-42 | `strip_prefix("/")` fails exactly when the path is empty or not rooted. Otherwise the result is the path minus its leading run of separators, and does not start with `/`. |
| Router.StripRootRoundTrip | src/main.rs:42 | Prefixing a relative path with one or more `/` and stripping gives the relative path back. |
| Router.PlanFor | src/main.rs:31-57 | Nothing happens exactly for an incomplete parse or a complete one without a path. The job aborts exactly for a failed socket read or parse, or a path that is not rooted. Otherwise it serves the stripped path. |
| Router.Route | src/main.rs:46-50 | File responder iff `exists && is_file && !is_dir`. Directory responder iff `exists && !is_file && is_dir`. 404 for every other combination of the flags. |
| Wire.Stream.Write | src/main.rs:66 | One write call appends its buffer to the recorded writes, and the peer's bytes grow by exactly that buffer. |
| Bytes.Decimal | src/main.rs:65 | The `{}` rendering of the length has at least one digit, only ASCII digits, and no leading zero unless the number is 0. |
| Bytes.DecimalRoundTrip | src/main.rs:65 | Reading back the rendered Content-Length value gives the length: the header is unambiguous. |
| Bytes.DecimalInjective | src/main.rs:65 | Different lengths render as different Content-Length values. |
| FileResponder.FileHeader | src/main.rs:63-66 | The head is the RFC 7230 rendering of status 200 `OK` with exactly one header field, `Content-Length`, whose value is the decimal metadata length. |
| FileResponder.FileHandle.Read | src/main.rs:71 | A read fills `buf[..n]` with the next scripted chunk and returns its size, or returns an error. Once the script is exhausted it returns 0 (end of file). |
| FileResponder.RunLoop | src/main.rs:70-74 | The trace of the loop never consumes more reads than scripted and never lowers `sent`. It ends normally exactly when `sent` has reached `length`. It stalls only after every scripted read was made. |
| FileResponder.FileMessage | src/main.rs:65-74 | The head followed by any body is the complete 200 message whose only header field is the decimal `Content-Length`. |
| FileResponder.SendFile | src/main.rs:60-75 | The head is written before any body byte. The body writes, the reads consumed and the way the loop ends are those of `RunLoop` from `sent == 0`. |
| FileResponder.SendBody | src/main.rs:68-74 | The `while sent < length` loop makes exactly the body writes of `RunLoop` from `sent == 0`, consumes exactly its reads, and ends as it says. |
| FileResponder.Step | src/main.rs:71-73 | One iteration keeps the trace: a read error, a read at end of file or an overflow ends it with the writes made so far; otherwise it goes on from the new `sent` and the next read. |
| FileResponder.WritesFitBuffer | src/main.rs:68-73 | Every body write carries at most 1024 bytes. |
| FileResponder.WritesAreReads | src/main.rs:70-74 | The body writes, laid end to end, equal the bytes read, in the same order. Unless the loop panicked, `sent` grew by exactly the number of body bytes written. |
| FileResponder.CompleteTransfer | src/main.rs:70-74 | If the reads return non-empty chunks adding up to the remaining length, the loop ends normally with `sent == length`, consumes every read, and the body equals the chunks. |
| FileResponder.EmptyFileNoBody | src/main.rs:70 | A zero-length file gets no body write and no read. |
| FileResponder.ZeroReadRepeats | src/main.rs:70-74 | A zero-byte read while `sent < length` adds one empty write and changes nothing else: the loop goes on with the same `sent` and the next read. |
| FileResponder.DoneMeansLengthReached | src/main.rs:70-74 | The loop ends normally only once `sent >= length`, overshooting by less than one buffer. When it stalls, fewer than `length` body bytes were sent. |
| DirResponder.Shown | src/main.rs:82-85 | The rendered name is the entry's name followed, for a directory only, by exactly one `/`. |
| DirResponder.Item | src/main.rs:82-86 | Each item is `<li><a href="`, the rendered name, `">`, the rendered name again and `</a>`, whatever bytes the name holds. |
| DirResponder.Listing | src/main.rs:80-87 | No entries give an empty listing; otherwise the listing starts with the first entry's item. |
| DirResponder.Page | src/main.rs:89-100 | The page is the fixed opening text, then exactly the listing, then the fixed closing text. |
| DirResponder.DirResponse | src/main.rs:89-101 | The listing response is the RFC 7230 rendering of status 200 `OK` with no header field, followed by the HTML page around the items. |
| DirResponder.ShownSlashes | src/main.rs:82-86 | A directory's rendered name is its name plus exactly one `/`. Any other name is left unchanged. |
| DirResponder.ShownSlashCount | src/main.rs:82-86 | For a file name without `/`, a directory's rendered name holds exactly one `/` and a file's holds none. |
| DirResponder.ListingAppend | src/main.rs:80-87 | Joining with the empty separator turns a split of the entry list into a split of the listing. |
| DirResponder.ListingItemAt | src/main.rs:80-100 | The listing holds entry `i`'s item right after the items of entries `0..i`: one item per entry, in iteration order. |
| DirResponder.ItemRoundTrip | src/main.rs:82-86 | For a name without `"`, both the href and the link text read back from an item are the rendered name, trailing `/` included. |
| DirResponder.QuoteCutsHref | src/main.rs:86 | For a name holding `"`, the item does not read back as the rendered name: nothing is escaped. |
| NotFound.NotFoundResponse | src/main.rs:104-106 | The response is the RFC 7230 rendering of status 404 `NOT FOUND` with no header field and an empty body. |
| Connection.Respond | src/main.rs:29-58 | Nothing is written unless a path is served. A normal end names the responder the three flags select. The job hangs only in the file responder. |
| Connection.HandleConnection | src/main.rs:29-58 | The writes on the socket and the job's outcome are exactly those of `Respond` for the same inputs. |
| Connection.SilentWithoutPath | src/main.rs:37-57 | No response iff the parse is incomplete or has no path. Whenever no path is served, nothing is written. |
| Connection.UnrootedPathAborts | src/main.rs:42 | A request path that is not rooted aborts the job with nothing written. |
| Connection.RoutedByFlags | src/main.rs:46-50 | Which responder completes depends only on the three flags, as the routing match says. |
| Connection.NotFoundWire | src/main.rs:49 | Every non-file, non-directory combination of the flags puts exactly the 404 message on the wire. |
| Connection.DirectoryWire | src/main.rs:48 | A listed directory puts the 200 message with no length header and the page on the wire. |
| Connection.FileWire | src/main.rs:60-75 | For any read script, the wire holds the head and then exactly the bytes read, in order. Every body write is at most 1024 bytes. |
| Connection.FileServed | src/main.rs:60-75 | A file read in non-empty chunks matching its metadata length is served as a complete 200 message. Its Content-Length equals the body length, and the body is the file content. |
| Connection.ContentLengthIsBodyLength | src/main.rs:63-74 | On the wire of a served file, the head carries one Content-Length value, and it reads back as the number of bytes after the head. |
| Connection.HelloExample | src/main.rs:60-75 | `/index.html` holding `hello` yields `HTTP/1.1 200 OK`, `Content-Length: 5`, an empty line and `hello`. |
| Connection.DirectoryExample | src/main.rs:77-102 | A directory holding subdirectory `a` and file `b.txt` lists two items. Their href and text are `a/` and `b.txt`. |

## Left out

- The TCP listener, its accept loop and `stream.flush` are network I/O. The worker thread pool is about concurrency, and `thread_pool` is not part of this model.
- The 512-byte first read of the socket (`src/main.rs:31`) and the `httparse` parse (`src/main.rs:33-35`) are abstracted. Only their result is modelled: failed, incomplete, or complete with or without a path.
- Filesystem queries are inputs. The three probes are independent booleans, because they are separate calls that can race. Directory iteration order is whatever the input list gives.
- `env::current_dir` is taken to succeed. So is every socket `write`, which sends its whole buffer. Partial writes are not modelled, although the source ignores the count `write` returns.
- Each other failing `unwrap` is collapsed into the `Panicked` outcome. These are: the socket read and the parse, opening the file and reading its metadata, a file `read`, `read_dir`, a directory entry and its file type.
- `to_string_lossy` is not modelled. Entry names are the bytes of the name as rendered.
- The diagnostic `println!` is left out.
- Router.StripRoot: removes the root and the leading separators only. Rust's `strip_prefix` also drops trailing separators and `.` components, which the model keeps. The joined path feeds nothing but the filesystem probes, which are inputs, so this does not change any response.
- FileResponder.RunLoop: the read script is finite, and after it every read returns zero bytes; a file that grows again after reaching end of file is not modelled. From there the source loops forever, and the trace stops with `Stalled` (outcome `Hangs`). Each later iteration would write zero bytes and change no state.
- FileResponder.RunLoop: an overflow of the `u64` counter `sent` is modelled as a panic, as in a debug build. The wrap-around of a release build is not modelled.
