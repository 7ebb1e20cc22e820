/**
 * The pure part of `handle_connection`: what the parse result leads to, the
 * strip of the leading `/`, and the match on `(exists, is_file, is_dir)`.
 */
module Router {
  import opened Bytes

  /**
   * What the first 512-byte read of the socket gave after `httparse`:
   * `Failed` when the read or the parse returned an error (both unwrapped),
   * `Partial` when the request is incomplete, `Complete` with the path if
   * the request line had one.
   */
  datatype Request = Failed | Partial | Complete(path: Option<string>)

  /** The three responders. */
  datatype Responder = ServeFile | ServeDir | ServeNotFound

  /**
   * What the handler goes on to do: nothing, abort the job (a panic), or
   * serve the path relative to the working directory.
   */
  datatype Plan = Silent | Abort | Serve(target: string)

  /** `k` path separators. */
  function Slashes(k: nat): (r: string)
    ensures |r| == k && forall i | 0 <= i < k :: r[i] == '/'
  {
    seq(k, i => '/')
  }

  /** The path without its leading run of separators. */
  function DropSlashes(p: string): (r: string)
    ensures |r| <= |p| && p == Slashes(|p| - |r|) + r
    ensures r == [] || r[0] != '/'
  {
    if p != [] && p[0] == '/' then DropSlashes(p[1..]) else p
  }

  /**
   * `uri.strip_prefix("/")` on a `PathBuf`: it fails unless the path is
   * rooted; a rooted path loses its root, and since path components ignore
   * repeated separators, every leading `/` goes with it.
   */
  function StripRoot(path: string): (r: Option<string>)
    ensures r.None? <==> path == [] || path[0] != '/'
    ensures r.Some? ==> |r.value| < |path| && path == Slashes(|path| - |r.value|) + r.value
    ensures r.Some? ==> r.value == [] || r.value[0] != '/'
  {
    if path == [] || path[0] != '/' then None else Some(DropSlashes(path))
  }

  /** Stripping undoes prefixing a relative path with one or more separators. */
  lemma {:induction false} StripRootRoundTrip(k: nat, rel: string)
    requires k >= 1
    requires rel == [] || rel[0] != '/'
    ensures StripRoot(Slashes(k) + rel) == Some(rel)
  {
    var p := Slashes(k) + rel;
    assert p[0] == '/';
    DropSlashesOf(k, rel);
  }

  lemma {:induction false} DropSlashesOf(k: nat, rel: string)
    requires rel == [] || rel[0] != '/'
    ensures DropSlashes(Slashes(k) + rel) == rel
  {
    if k > 0 {
      assert (Slashes(k) + rel)[1..] == Slashes(k - 1) + rel;
      DropSlashesOf(k - 1, rel);
    } else {
      assert Slashes(0) + rel == rel;
    }
  }

  /**
   * An incomplete parse, or a complete one without a path, does nothing; a
   * failed read or parse, or a path that is not rooted, aborts the job;
   * otherwise the stripped path is served.
   */
  function PlanFor(req: Request): (p: Plan)
    ensures p == Silent <==> req.Partial? || req == Complete(None)
    ensures p == Abort <==> req.Failed? || (req.Complete? && req.path.Some? && StripRoot(req.path.value).None?)
    ensures p.Serve? ==> req.Complete? && req.path.Some? && StripRoot(req.path.value) == Some(p.target)
  {
    match req
    case Failed => Abort
    case Partial => Silent
    case Complete(None) => Silent
    case Complete(Some(path)) =>
      match StripRoot(path)
      case None => Abort
      case Some(rel) => Serve(rel)
  }

  /**
   * The match on `(path.exists(), path.is_file(), path.is_dir())`, with
   * `present` for `exists`. The three queries are separate calls, so every
   * combination of the flags can occur.
   */
  function Route(present: bool, isFile: bool, isDir: bool): (r: Responder)
    ensures r == ServeFile <==> present && isFile && !isDir
    ensures r == ServeDir <==> present && !isFile && isDir
    ensures r == ServeNotFound <==> !(present && isFile != isDir)
  {
    match (present, isFile, isDir)
    case (true, true, false) => ServeFile
    case (true, false, true) => ServeDir
    case (_, _, _) => ServeNotFound
  }
}
