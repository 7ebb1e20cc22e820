/** `handle_not_found`: a bare 404 status line and an empty header block. */
module NotFound {
  import opened Bytes
  import opened Http

  /** The response has status 404, reason `NOT FOUND`, no header field and no body. */
  function NotFoundResponse(): (r: seq<byte>)
    ensures r == Message("404", "NOT FOUND", [], [])
  {
    StatusLineNotFound();
    assert Head("404", "NOT FOUND", []) == "HTTP/1.1 404 NOT FOUND\r\n\r\n";
    Ascii("HTTP/1.1 404 NOT FOUND\r\n\r\n")
  }
}
