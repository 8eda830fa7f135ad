/** The part of the operating system's filesystem the object store relies on: regular
    files with their contents, directories, and the `os` calls `Stat`, `WriteFile`,
    `ReadFile`, `Remove` and `MkdirAll` over them.

    Paths are plain strings: a path names a regular file, a directory, or nothing. The
    directory tree is flat here: a file may be recorded without its parent directories,
    and a path below a regular file simply names nothing, where the operating system
    would report "not a directory". */
module FileSystem {
  import opened Errors

  type byte = b: int | 0 <= b < 256

  datatype FileKind = RegularFile | Directory

  /** The abstract value of a filesystem. */
  datatype FsState = FsState(files: map<string, seq<byte>>, dirs: set<string>) {

    /** A path is a regular file or a directory, never both, and the empty path is
        neither: `os.Stat("")` always reports that nothing is there. */
    ghost predicate Valid()
    {
      files.Keys !! dirs && "" !in files && "" !in dirs
    }

    /** `os.Stat(p)`: what kind of object `p` names, or the not-exist error. */
    function Stat(p: string): (r: Result<FileKind>)
      ensures r == Ok(RegularFile) <==> p in files
      ensures r == Ok(Directory) <==> p in dirs && p !in files
      ensures r.Err? ==> r.error == PathError("stat", p, NotExist) && IsNotExist(r.error)
    {
      if p in files then Ok(RegularFile)
      else if p in dirs then Ok(Directory)
      else Err(PathError("stat", p, NotExist))
    }

    /** `os.WriteFile(p, data, 0o600)`: creates or truncates the regular file `p`; the
        empty path or a directory at `p` makes it fail and leaves everything as it was. */
    function WriteFile(p: string, data: seq<byte>): (e: Effect<Option<Error>>)
      ensures e.result.None? <==> p != "" && p !in dirs
      ensures e.result.None? ==> e.state == FsState(files[p := data], dirs)
      ensures e.result.Some? ==> e.state == this
      ensures p == "" ==> e.result == Some(PathError("open", p, NotExist))
      ensures p != "" && p in dirs ==> e.result == Some(PathError("open", p, IsDirectory))
      ensures Valid() ==> e.state.Valid()
    {
      if p == "" then Effect(this, Some(PathError("open", p, NotExist)))
      else if p in dirs then Effect(this, Some(PathError("open", p, IsDirectory)))
      else Effect(FsState(files[p := data], dirs), None)
    }

    /** `os.Remove(p)` of a regular file. */
    function Remove(p: string): (s: FsState)
      requires p in files
      ensures s.files.Keys == files.Keys - {p} && s.dirs == dirs
      ensures forall q :: q in s.files ==> s.files[q] == files[q]
      ensures Valid() ==> s.Valid()
    {
      FsState(files - {p}, dirs)
    }

    /** `os.MkdirAll(d, 0o755)`: makes `d` and every directory above it, failing when a
        regular file is in the way. */
    function MkdirAll(d: string): (e: Effect<Option<Error>>)
      ensures e.result.None? <==> (forall q :: q in Ancestors(d) ==> q !in files)
      ensures e.result.None? ==> e.state == FsState(files, dirs + Ancestors(d))
      ensures e.result.Some? ==> e.state == this && e.result.value == PathError("mkdir", d, NotDirectory)
      ensures Valid() ==> e.state.Valid()
    {
      if exists q :: q in Ancestors(d) && q in files then Effect(this, Some(PathError("mkdir", d, NotDirectory)))
      else Effect(FsState(files, dirs + Ancestors(d)), None)
    }
  }

  /** A filesystem after a call, together with what the call returned. */
  datatype Effect<T> = Effect(state: FsState, result: T)

  /** `d` and every path that names a directory above it: each prefix that ends right
      before a `/`, and `d` itself. */
  function Ancestors(d: string): (ps: set<string>)
    ensures forall q :: q in ps ==> 0 < |q| <= |d| && q == d[..|q|]
    ensures d != [] ==> d in ps
  {
    assert d[..|d|] == d;
    set i | 0 < i <= |d| && (i == |d| || d[i] == '/') :: d[..i]
  }

  /** `filepath.Dir(p)` for a clean path: everything before the last `/`, "/" when that is
      the only one and comes first, and "." when there is none. */
  function Dir(p: string): (d: string)
    ensures '/' !in p ==> d == "."
    ensures '/' in p ==>
      || (d == "/" && p[0] == '/' && '/' !in p[1..])
      || (0 < |d| < |p| && d == p[..|d|] && p[|d|] == '/' && '/' !in p[|d| + 1..])
  {
    assert p[..|p|] == p;
    LastSlashDir(p, |p|)
  }

  /** `Dir` of the first `i` characters of `p`. */
  function LastSlashDir(p: string, i: nat): (d: string)
    requires i <= |p|
    ensures '/' !in p[..i] ==> d == "."
    ensures '/' in p[..i] ==>
      || (d == "/" && 0 < i && p[0] == '/' && '/' !in p[1..i])
      || (0 < |d| < i && d == p[..|d|] && p[|d|] == '/' && '/' !in p[|d| + 1..i])
  {
    if i == 0 then "."
    else if p[i - 1] == '/' then
      assert p[..i][i - 1] == '/';
      if i == 1 then "/" else p[..i - 1]
    else
      var d := LastSlashDir(p, i - 1);
      assert p[..i] == p[..i - 1] + [p[i - 1]];
      if '/' !in p[..i - 1] then d
      else if d == "/" && 0 < i - 1 && p[0] == '/' && '/' !in p[1..i - 1] then
        assert p[1..i] == p[1..i - 1] + [p[i - 1]];
        d
      else
        assert p[|d| + 1..i] == p[|d| + 1..i - 1] + [p[i - 1]];
        d
  }

  /** The filesystem the process runs against, changed in place by the `os` calls. */
  class Disk {
    var files: map<string, seq<byte>>
    var dirs: set<string>

    function State(): FsState
      reads this
    {
      FsState(files, dirs)
    }

    ghost predicate Valid()
      reads this
    {
      State().Valid()
    }

    constructor (files: map<string, seq<byte>>, dirs: set<string>)
      requires FsState(files, dirs).Valid()
      ensures Valid() && State() == FsState(files, dirs)
    {
      this.files := files;
      this.dirs := dirs;
    }

    method WriteFile(p: string, data: seq<byte>) returns (err: Option<Error>)
      requires Valid()
      modifies this
      ensures Valid()
      ensures Effect(State(), err) == old(State()).WriteFile(p, data)
    {
      if p == "" {
        err := Some(PathError("open", p, NotExist));
      } else if p in dirs {
        err := Some(PathError("open", p, IsDirectory));
      } else {
        files := files[p := data];
        err := None;
      }
    }

    /** `os.ReadFile(p)` of a path the caller has just seen to be a regular file. */
    method ReadFile(p: string) returns (data: seq<byte>)
      requires p in files
      ensures data == files[p]
    {
      data := files[p];
    }

    method Remove(p: string)
      requires Valid() && p in files
      modifies this
      ensures Valid()
      ensures State() == old(State()).Remove(p)
    {
      files := files - {p};
    }

    method MkdirAll(d: string) returns (err: Option<Error>)
      requires Valid()
      modifies this
      ensures Valid()
      ensures Effect(State(), err) == old(State()).MkdirAll(d)
    {
      var ps := Ancestors(d);
      if exists q :: q in ps && q in files {
        err := Some(PathError("mkdir", d, NotDirectory));
      } else {
        dirs := dirs + ps;
        err := None;
      }
    }
  }
}
