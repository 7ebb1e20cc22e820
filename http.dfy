/**
 * The shape of an HTTP/1.1 response message as section 3 of RFC 7230 writes
 * it: a status line, header fields each ended by CRLF, an empty line, then
 * the body. The responders are checked against this reference.
 */
module Http {
  import opened Bytes

  datatype Header = Header(name: string, value: string)

  /** A status-code is three digits (section 3.1.2 of RFC 7230). */
  predicate IsStatusCode(code: string) {
    |code| == 3 && IsNumeral(code)
  }

  /** status-line = HTTP-version SP status-code SP reason-phrase CRLF (section 3.1.2 of RFC 7230) */
  function StatusLine(code: string, reason: string): string
    requires IsStatusCode(code)
  {
    "HTTP/1.1 " + code + " " + reason + "\r\n"
  }

  /** header-field = field-name ":" OWS field-value OWS, each followed by CRLF (section 3.2 of RFC 7230) */
  function HeaderLines(hs: seq<Header>): string
  {
    if hs == [] then ""
    else hs[0].name + ": " + hs[0].value + "\r\n" + HeaderLines(hs[1..])
  }

  /** Everything before the message body, including the empty line. */
  function Head(code: string, reason: string, hs: seq<Header>): string
    requires IsStatusCode(code)
  {
    StatusLine(code, reason) + HeaderLines(hs) + "\r\n"
  }

  lemma HeadOneHeader(code: string, reason: string, name: string, value: string)
    requires IsStatusCode(code)
    ensures Head(code, reason, [Header(name, value)])
      == StatusLine(code, reason) + (name + ": " + value + "\r\n") + "\r\n"
  {
    assert HeaderLines([Header(name, value)]) == name + ": " + value + "\r\n" + HeaderLines([]);
  }

  lemma StatusLineOk()
    ensures StatusLine("200", "OK") == "HTTP/1.1 200 OK\r\n"
  {
  }

  /** The head of a message without header fields: status line and empty line. */
  lemma HeadNoFields(code: string, reason: string)
    requires IsStatusCode(code)
    ensures Head(code, reason, []) == StatusLine(code, reason) + "\r\n"
  {
  }

  lemma StatusLineNotFound()
    ensures StatusLine("404", "NOT FOUND") == "HTTP/1.1 404 NOT FOUND\r\n"
  {
  }

  /** The bytes of a whole response message. */
  function Message(code: string, reason: string, hs: seq<Header>, body: seq<byte>): (r: seq<byte>)
    requires IsStatusCode(code)
    ensures |r| == |Head(code, reason, hs)| + |body|
    ensures r[|Head(code, reason, hs)|..] == body
  {
    Ascii(Head(code, reason, hs)) + body
  }
}
