/**
 * `resolveRelativePath`: a configured target path, used as it is or
 * re-expressed relative to the file being rewritten.
 */
module Paths {
  import opened Vinyl

  /**
   * The three functions of Node's `path` module the resolver calls.  They
   * depend on the host platform and the process's working directory, so
   * the model takes them as given.
   */
  datatype HostPath = HostPath(
    join: (string, string) -> string,
    resolve: string -> string,
    relative: (string, string) -> string)

  /** `p` and `q` differ at most where `p` has a backslash and `q` a slash. */
  predicate SameUpToSeparators(p: string, q: string) {
    |p| == |q| && forall i :: 0 <= i < |p| ==> q[i] == (if p[i] == '\\' then '/' else p[i])
  }

  /** `p` with every backslash turned into a forward slash. */
  function ToForwardSlashes(p: string): (r: string)
    ensures SameUpToSeparators(p, r)
    ensures '\\' !in r
  {
    if p == [] then []
    else [if p[0] == '\\' then '/' else p[0]] + ToForwardSlashes(p[1..])
  }

  /** Replacing backslashes a second time changes nothing. */
  lemma ToForwardSlashesIdempotent(p: string)
    ensures ToForwardSlashes(ToForwardSlashes(p)) == ToForwardSlashes(p)
  {
    var q := ToForwardSlashes(p);
    assert SameUpToSeparators(q, ToForwardSlashes(q));
  }

  /** The path from the file's own location to the resolved target, as the host computes it. */
  function HostRelative(host: HostPath, inPath: string, file: VinylFile): string {
    var absoluteFilePath := host.join(file.base, file.relative);
    var absoluteTargetPath := host.resolve(inPath);
    host.relative(absoluteFilePath, absoluteTargetPath)
  }

  /**
   * `resolveRelativePath(inPath, relative, file)`: the path itself unless
   * `relative` is set, otherwise the host's relative path with every
   * backslash turned into a slash.
   */
  function ResolveRelativePath(inPath: string, relative: bool, file: VinylFile, host: HostPath): (r: string)
    ensures !relative ==> r == inPath
    ensures relative ==> '\\' !in r && SameUpToSeparators(HostRelative(host, inPath, file), r)
  {
    if !relative then inPath
    else ToForwardSlashes(HostRelative(host, inPath, file))
  }
}
