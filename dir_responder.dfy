/**
 * `handle_dir_request`: one `<li><a href="N">N</a>` item per directory
 * entry, in iteration order, joined with the empty separator inside a fixed
 * HTML page sent after `HTTP/1.1 200 OK` and an empty header block. There is
 * no Content-Length: the body ends when the connection closes (section 3.3.3
 * of RFC 7230).
 */
module DirResponder {
  import opened Bytes
  import opened Http

  /** A directory entry: its file name's bytes and whether it is a directory. */
  datatype Entry = Entry(name: seq<byte>, isDir: bool)

  const Slash: byte := 47
  const Quote: byte := 34

  /** The name as rendered: a directory gets one `/` pushed onto it. */
  function Shown(e: Entry): (r: seq<byte>)
    ensures |r| == |e.name| + (if e.isDir then 1 else 0) && r[..|e.name|] == e.name
    ensures e.isDir ==> r[|e.name|] == Slash
  {
    if e.isDir then e.name + [Slash] else e.name
  }

  const ItemOpen: seq<byte> := Ascii("<li><a href=\"")
  const ItemMid: seq<byte> := Ascii("\">")
  const ItemClose: seq<byte> := Ascii("</a>")

  /**
   * The item for one entry. `name` is changed before `format!`, so the
   * trailing `/` is in the href as well as in the link text.
   */
  function Item(e: Entry): (r: seq<byte>)
    ensures |r| == |ItemOpen| + 2 * |Shown(e)| + |ItemMid| + |ItemClose|
    ensures r[..|ItemOpen|] == ItemOpen && r[|r| - |ItemClose|..] == ItemClose
    ensures r[|ItemOpen|..|ItemOpen| + |Shown(e)|] == Shown(e)
    ensures r[|ItemOpen| + |Shown(e)|..|ItemOpen| + |Shown(e)| + |ItemMid|] == ItemMid
    ensures r[|ItemOpen| + |Shown(e)| + |ItemMid|..|r| - |ItemClose|] == Shown(e)
  {
    ItemOpen + Shown(e) + ItemMid + Shown(e) + ItemClose
  }

  /** The items of a listing, in iteration order. */
  function Items(es: seq<Entry>): (r: seq<seq<byte>>)
    ensures |r| == |es| && forall i | 0 <= i < |es| :: r[i] == Item(es[i])
  {
    seq(|es|, i requires 0 <= i < |es| => Item(es[i]))
  }

  /** `list.join("")`. */
  function Listing(es: seq<Entry>): (r: seq<byte>)
    ensures es == [] ==> r == []
    ensures es != [] ==> |Item(es[0])| <= |r| && r[..|Item(es[0])|] == Item(es[0])
  {
    Concat(Items(es))
  }

  /** The fixed page around the items; indentation is that of the source literal. */
  const Title: string := "Directory listing for /"
  const PageOpen: string :=
    "\n        <html>" + "\n        <title>" + Title + "</title>" + "\n        <body>" +
    "\n        <h2>" + Title + "</h2>" + "\n        <hr>" + "\n        <ul>" + "\n        "
  const PageClose: string := "\n        </ul>" + "\n        <hr>" + "\n        </body>" + "\n        </html>"

  function Page(es: seq<Entry>): (r: seq<byte>)
    ensures |r| == |PageOpen| + |Listing(es)| + |PageClose|
    ensures r[..|PageOpen|] == Ascii(PageOpen) && r[|r| - |PageClose|..] == Ascii(PageClose)
    ensures r[|PageOpen|..|PageOpen| + |Listing(es)|] == Listing(es)
  {
    Ascii(PageOpen) + Listing(es) + Ascii(PageClose)
  }

  /** The whole response: a 200 status line, no header fields, then the page. */
  function DirResponse(es: seq<Entry>): (r: seq<byte>)
    ensures r == Message("200", "OK", [], Page(es))
  {
    var status := "HTTP/1.1 200 OK\r\n\r\n";
    OkHeadNoFields(status);
    PageAfterHead(status, PageOpen, Listing(es), PageClose);
    Ascii(status + PageOpen) + Listing(es) + Ascii(PageClose)
  }

  lemma OkHeadNoFields(status: string)
    requires status == "HTTP/1.1 200 OK\r\n\r\n"
    ensures Head("200", "OK", []) == status
  {
    StatusLineOk();
    HeadNoFields("200", "OK");
  }

  /** Rendering the head and the page's opening text in one piece changes no byte. */
  lemma PageAfterHead(head: string, open: string, items: seq<byte>, close: string)
    ensures Ascii(head + open) + items + Ascii(close) == Ascii(head) + (Ascii(open) + items + Ascii(close))
  {
    AsciiAppend(head, open);
  }

  /**
   * Exactly one `/` is appended to a directory's name, none to any other
   * name, and the name itself is kept as its prefix.
   */
  lemma ShownSlashes(e: Entry)
    ensures Shown(e)[..|e.name|] == e.name
    ensures Count(Shown(e), Slash) == Count(e.name, Slash) + (if e.isDir then 1 else 0)
    ensures e.isDir ==> |Shown(e)| == |e.name| + 1 && Shown(e)[|e.name|] == Slash
    ensures !e.isDir ==> Shown(e) == e.name
  {
    if e.isDir {
      CountAppend(e.name, [Slash], Slash);
      assert Count([Slash], Slash) == 1 + Count([], Slash);
    }
  }

  /** A file name never holds `/`, so a directory's rendered name has exactly one, at its end. */
  lemma ShownSlashCount(e: Entry)
    requires Slash !in e.name
    ensures Count(Shown(e), Slash) == (if e.isDir then 1 else 0)
  {
    ShownSlashes(e);
    CountAbsent(e.name, Slash);
  }

  /** Listing of a concatenation of entry lists. */
  lemma ListingAppend(es: seq<Entry>, fs: seq<Entry>)
    ensures Listing(es + fs) == Listing(es) + Listing(fs)
  {
    assert Items(es + fs) == Items(es) + Items(fs);
    ConcatAppend(Items(es), Items(fs));
  }

  /** Where the item of entry `i` begins in the listing. */
  function Offset(es: seq<Entry>, i: nat): nat
    requires i <= |es|
  {
    |Listing(es[..i])|
  }

  /** The listing holds the item of entry `i` at `Offset(es, i)`, right after the items of entries `0..i`. */
  lemma ListingItemAt(es: seq<Entry>, i: nat)
    requires i < |es|
    ensures Offset(es, i + 1) == Offset(es, i) + |Item(es[i])| <= |Listing(es)|
    ensures Listing(es)[Offset(es, i)..Offset(es, i + 1)] == Item(es[i])
  {
    assert es[..i + 1] == es[..i] + [es[i]];
    assert es == es[..i + 1] + es[i + 1..];
    ListingAppend(es[..i], [es[i]]);
    ListingAppend(es[..i + 1], es[i + 1..]);
    assert Listing([es[i]]) == Item(es[i]) + Concat(Items([es[i]])[1..]);
  }

  /** Index of the first `b` in `s`, or `|s|` when there is none. */
  function Find(s: seq<byte>, b: byte): (k: nat)
    ensures k <= |s| && (k < |s| ==> s[k] == b)
    ensures forall j | 0 <= j < k :: s[j] != b
  {
    if s == [] then 0 else if s[0] == b then 0 else 1 + Find(s[1..], b)
  }

  lemma {:induction false} FindAcross(a: seq<byte>, c: seq<byte>, b: byte)
    requires b !in a && c != [] && c[0] == b
    ensures Find(a + c, b) == |a|
  {
    if a != [] {
      assert (a + c)[1..] == a[1..] + c;
      FindAcross(a[1..], c, b);
    }
  }

  /**
   * Reads an item back: the href (up to the first `"`) and the link text
   * (between `">` and the closing `</a>`).
   */
  function ParseItem(s: seq<byte>): Option<(seq<byte>, seq<byte>)>
  {
    if |s| < |ItemOpen| || s[..|ItemOpen|] != ItemOpen then None
    else
      var r := s[|ItemOpen|..];
      var k := Find(r, Quote);
      if k + |ItemMid| > |r| || r[k..k + |ItemMid|] != ItemMid then None
      else
        var t := r[k + |ItemMid|..];
        if |t| < |ItemClose| || t[|t| - |ItemClose|..] != ItemClose then None
        else Some((r[..k], t[..|t| - |ItemClose|]))
  }

  /**
   * For a name without `"`, the item's href and its link text are both the
   * rendered name: for a directory, the name with its trailing `/`.
   */
  lemma ItemRoundTrip(e: Entry)
    requires Quote !in e.name
    ensures ParseItem(Item(e)) == Some((Shown(e), Shown(e)))
  {
    var n := Shown(e);
    assert Quote !in n;
    var tail := n + ItemClose;
    var r := n + (ItemMid + tail);
    assert Item(e) == ItemOpen + r;
    ParseFramed(n, tail, r);
  }

  /** Both halves of a concatenation are read back by slicing at the seam. */
  lemma Seam<T>(a: seq<T>, b: seq<T>)
    ensures (a + b)[..|a|] == a && (a + b)[|a|..] == b
  {
  }

  /** What `ParseItem` reads from an item whose name `n` holds no `"`. */
  lemma ParseFramed(n: seq<byte>, tail: seq<byte>, r: seq<byte>)
    requires Quote !in n && tail == n + ItemClose && r == n + (ItemMid + tail)
    ensures ParseItem(ItemOpen + r) == Some((n, n))
  {
    assert |ItemOpen| == 13 && |ItemMid| == 2 && |ItemClose| == 4 && ItemMid[0] == Quote;
    Seam(ItemOpen, r);
    FindAcross(n, ItemMid + tail, Quote);
    Seam(n, ItemMid + tail);
    Seam(ItemMid, tail);
    assert r[|n|..|n| + 2] == ItemMid;
    assert r[|n| + 2..] == tail;
    Seam(n, ItemClose);
  }

  /**
   * `format!` escapes nothing: in the item of a name holding `"`, the href
   * ends at that `"`, so the item does not read back as the rendered name.
   */
  lemma QuoteCutsHref(e: Entry)
    requires Quote in e.name
    ensures ParseItem(Item(e)) != Some((Shown(e), Shown(e)))
  {
    var n := Shown(e);
    var s := Item(e);
    var i :| 0 <= i < |e.name| && e.name[i] == Quote;
    assert n[i] == Quote;
    assert s[|ItemOpen|..|ItemOpen| + |n|] == n;
    var r := s[|ItemOpen|..];
    assert r[i] == s[|ItemOpen|..|ItemOpen| + |n|][i];
    assert Find(r, Quote) <= i;
  }
}
