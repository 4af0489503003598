/** File-system paths: the operating system's path functions, left uninterpreted, and the
    one string operation the server itself performs on paths (backslash to slash). */
module Paths {

  /** `os.path.join`, `os.path.relpath(_, start=os.getcwd())` and `werkzeug.secure_filename`.
      Their results depend on the platform and the working directory, so they are parameters. */
  datatype PathLib = PathLib(
    join: (string, string) -> string,
    relpath: string -> string,
    secureFilename: string -> string)

  const UPLOAD_FOLDER := "server/uploads"

  function AvatarFolder(lib: PathLib): string {
    lib.join(UPLOAD_FOLDER, "avatars")
  }

  /** The path names the file `name`: it ends in a separator of either kind followed by `name`. */
  predicate EndsInFile(path: string, name: string) {
    |path| > |name| && path[|path| - |name|..] == name && path[|path| - |name| - 1] in {'/', '\\'}
  }

  /** `s.replace('\\', '/')`: every backslash becomes a slash, every other character stays. */
  function NormalizeSlashes(s: string): (r: string)
    ensures |r| == |s|
    ensures forall i :: 0 <= i < |s| ==> r[i] == (if s[i] == '\\' then '/' else s[i])
    ensures '\\' !in r
  {
    if s == [] then [] else [if s[0] == '\\' then '/' else s[0]] + NormalizeSlashes(s[1..])
  }

  /** A path that already uses slashes only is left as it is; hence normalising twice is normalising once. */
  lemma NormalizeSlashesIdempotent(s: string)
    ensures NormalizeSlashes(NormalizeSlashes(s)) == NormalizeSlashes(s)
  {
  }

  /** A path ending in a separator and a file name (either separator) ends, once normalised,
      in a slash and that same file name, provided the name holds no backslash. */
  lemma NormalizedPathKeepsFileName(path: string, name: string)
    requires '\\' !in name
    requires EndsInFile(path, name)
    ensures NormalizeSlashes(path)[|path| - |name| - 1..] == "/" + name
  {
    var r := NormalizeSlashes(path);
    var k := |path| - |name| - 1;
    var tail := r[k..];
    assert path[k] == '/' || path[k] == '\\';
    assert tail[0] == '/';
    forall i | 0 <= i < |name|
      ensures tail[i + 1] == name[i]
    {
      assert path[k + 1 + i] == path[|path| - |name|..][i];
      assert r[k + 1 + i] == path[k + 1 + i];
    }
    assert tail == "/" + name;
  }
}
