/** The filesystem-backed object store: each object lives in a data file at
    `path.Join(baseDir, key)`, and its metadata, when it has any, in a companion file at
    that path plus ".meta".

    The JSON encoding of metadata is not modelled: the store is given an encoder and a
    decoder, and the properties that read metadata back state the one round trip they
    rely on as a hypothesis. */
module ObjectStore {
  import opened Errors
  import opened FileSystem
  import Decimal

  /** The port and base URL the local file server answers on. */
  const LocalFileServerPort: nat := 9000
  const LocalFileServerBaseURL := "http://localhost"

  type Metadata = map<string, string>

  /** What a caller stores; `None` metadata is Go's nil map. */
  datatype PutObject = PutObject(data: seq<byte>, metaData: Option<Metadata>)

  /** A stored object together with its key. */
  datatype Object = Object(data: seq<byte>, metaData: Option<Metadata>, key: string)

  /** `json.Marshal` and `json.Unmarshal` of metadata; unmarshalling JSON `null` gives a
      nil map, hence the `Option`. Marshalling a `map[string]string` cannot fail. */
  datatype MetaCodec = MetaCodec(marshal: Metadata -> seq<byte>, unmarshal: seq<byte> -> Result<Option<Metadata>>)

  /** Decoding what was encoded gives back the metadata. */
  predicate RoundTrips(codec: MetaCodec, m: Metadata)
  {
    codec.unmarshal(codec.marshal(m)) == Ok(Some(m))
  }

  /** `path.Join(base, key)` for components that are already clean (no ".", "..", repeated
      or trailing slashes): the empty component is dropped, otherwise one `/` separates. */
  function Join(base: string, key: string): (p: string)
    ensures p == "" <==> base == "" && key == ""
    ensures key != "" ==> |key| <= |p| && p[|p| - |key|..] == key
  {
    if key == "" then base
    else if base == "" then key
    else if base[|base| - 1] == '/' then base + key
    else base + "/" + key
  }

  /** `metaFilePath(p)`: the companion file of data path `p`. */
  function MetaFilePath(p: string): (m: string)
    ensures |m| == |p| + 5 && m[..|p|] == p && m[|p|..] == ".meta"
  {
    p + ".meta"
  }

  /** A data path is never the metadata path of itself, and distinct data paths have
      distinct metadata paths. */
  lemma MetaFilePathDistinct(p: string, q: string)
    ensures MetaFilePath(p) != p
    ensures MetaFilePath(p) == MetaFilePath(q) ==> p == q
  {
    if MetaFilePath(p) == MetaFilePath(q) {
      assert p == MetaFilePath(p)[..|p|] == MetaFilePath(q)[..|q|] == q;
    }
  }

  /** `getFullPath`: the empty key is refused, any other key is joined to the base
      directory. */
  function GetFullPath(base: string, key: string): (r: Result<string>)
    ensures key == "" <==> r == Err(New("object key is empty"))
    ensures key != "" ==> r == Ok(Join(base, key)) && r.value != ""
  {
    if key == "" then Err(New("object key is empty"))
    else
      var full := Join(base, key);
      if full == "" then Err(New("cannot construct object path")) else Ok(full)
  }

  /** `checkFileExists`: true for a regular file, false for nothing at all, and an error
      for anything else at `p`. */
  function CheckFileExists(st: FsState, p: string): (r: Result<bool>)
    requires st.Valid()
    ensures r == Ok(true) <==> p in st.files
    ensures r == Ok(false) <==> p !in st.files && p !in st.dirs
    ensures r.Err? <==> p in st.dirs
    ensures r.Err? ==> r.error == New("not a regular file")
  {
    match st.Stat(p)
    case Err(e) => if IsNotExist(e) then Ok(false) else Err(Wrap(e, "error getting file information"))
    case Ok(kind) => if kind != RegularFile then Err(New("not a regular file")) else Ok(true)
  }

  /** `checkBaseDirExists`: succeeds exactly when the base directory is a directory. */
  function CheckBaseDirExists(st: FsState, base: string): (r: Option<Error>)
    requires st.Valid()
    ensures r.None? <==> base in st.dirs
    ensures base in st.files ==> r == Some(New("not a directory"))
    ensures base !in st.files && base !in st.dirs ==>
      r == Some(Wrap(PathError("stat", base, NotExist), "base directory does not exist"))
  {
    match st.Stat(base)
    case Err(e) =>
      if IsNotExist(e) then Some(Wrap(e, "base directory does not exist"))
      else Some(Wrap(e, "error getting file information"))
    case Ok(kind) => if kind != Directory then Some(New("not a directory")) else None
  }

  /** `ensureDir`: checks the base directory, then makes the directory that will hold
      `file`. */
  function EnsureDirEffect(st: FsState, base: string, file: string): (e: Effect<Option<Error>>)
    requires st.Valid()
    ensures e.state.Valid() && e.state.files == st.files && st.dirs <= e.state.dirs
    ensures e.result.None? ==> base in st.dirs && e.state.dirs == st.dirs + Ancestors(Dir(file))
    ensures e.result.Some? ==> e.state == st
    ensures e.result.None? <==> base in st.dirs && forall q :: q in Ancestors(Dir(file)) ==> q !in st.files
  {
    match CheckBaseDirExists(st, base)
    case Some(err) => Effect(st, Some(err))
    case None => st.MkdirAll(Dir(file))
  }

  /** `removeFile`: removes a regular file, does nothing when there is nothing at `p`, and
      fails when something other than a regular file is there. */
  function RemoveFileEffect(st: FsState, p: string): (e: Effect<Option<Error>>)
    requires st.Valid()
    ensures e.state.Valid() && e.state.dirs == st.dirs
    ensures e.result.None? <==> p !in st.dirs
    ensures e.result.None? ==> p !in e.state.files && e.state.files == st.files - {p}
    ensures e.result.Some? ==> e.state == st
  {
    match CheckFileExists(st, p)
    case Err(err) => Effect(st, Some(Wrap(err, "error checking file before deletion")))
    case Ok(found) => if found then Effect(st.Remove(p), None) else Effect(st, None)
  }

  /** `PutObject` on a filesystem: the data file is written, then the metadata file when
      there is metadata; the result is the object as given, under the given key. */
  function Put(st: FsState, base: string, key: string, obj: PutObject, codec: MetaCodec): (e: Effect<Result<Object>>)
    requires st.Valid()
    ensures e.state.Valid()
    ensures e.result.Ok? ==> e.result.value == Object(obj.data, obj.metaData, key)
    ensures e.result.Ok? ==>
      && key != "" && base in st.dirs
      && var full := Join(base, key);
      && e.state.files == (if obj.metaData.None? then st.files[full := obj.data]
                           else st.files[full := obj.data][MetaFilePath(full) := codec.marshal(obj.metaData.value)])
      && e.state.dirs == st.dirs + Ancestors(Dir(full))
    ensures key == "" ==> e == Effect(st, Err(Wrap(New("object key is empty"), "cannot construct object path")))
    ensures e.result.Ok? <==>
      && key != "" && base in st.dirs
      && var full := Join(base, key);
      && var made := Ancestors(Dir(full));
      && (forall q :: q in made ==> q !in st.files)
      && full !in st.dirs + made
      && (obj.metaData.Some? ==> MetaFilePath(full) !in st.dirs + made)
    ensures e.result.Err? ==>
      var full := Join(base, key);
      var made := Ancestors(Dir(full));
      if key != "" && base in st.dirs && (forall q :: q in made ==> q !in st.files) then
        && e.state.dirs == st.dirs + made
        && e.state.files == (if full in st.dirs + made then st.files else st.files[full := obj.data])
      else e.state == st
  {
    match GetFullPath(base, key)
    case Err(err) => Effect(st, Err(Wrap(err, "cannot construct object path")))
    case Ok(full) =>
      var ensured := EnsureDirEffect(st, base, full);
      if ensured.result.Some? then
        Effect(ensured.state, Err(Wrap(ensured.result.value, "cannot create object subdirectories")))
      else
        var written := ensured.state.WriteFile(full, obj.data);
        if written.result.Some? then
          Effect(written.state, Err(Wrap(written.result.value, "cannot write object data to a file")))
        else if obj.metaData.None? then
          Effect(written.state, Ok(Object(obj.data, obj.metaData, key)))
        else
          var metaWritten := written.state.WriteFile(MetaFilePath(full), codec.marshal(obj.metaData.value));
          if metaWritten.result.Some? then
            Effect(metaWritten.state, Err(Wrap(metaWritten.result.value, "cannot write object metadata to a file")))
          else
            Effect(metaWritten.state, Ok(Object(obj.data, obj.metaData, key)))
  }

  /** `GetObject` on a filesystem: the data file's contents with the decoded metadata file
      when there is one; no data file means "object does not exist". */
  function Get(st: FsState, base: string, key: string, codec: MetaCodec): (r: Result<Object>)
    requires st.Valid()
    ensures r.Ok? ==>
      && base in st.dirs && key != ""
      && var full := Join(base, key);
      && full in st.files && r.value.data == st.files[full] && r.value.key == key
      && (MetaFilePath(full) !in st.files ==> r.value.metaData.None?)
      && (MetaFilePath(full) in st.files ==> codec.unmarshal(st.files[MetaFilePath(full)]) == Ok(r.value.metaData))
    ensures base !in st.dirs ==> r.Err?
    ensures r.Ok? <==>
      && base in st.dirs && key != ""
      && var full := Join(base, key);
      && full in st.files && MetaFilePath(full) !in st.dirs
      && (MetaFilePath(full) in st.files ==> codec.unmarshal(st.files[MetaFilePath(full)]).Ok?)
  {
    match CheckBaseDirExists(st, base)
    case Some(err) => Err(Wrap(err, "error checking object store base directory"))
    case None =>
      match GetFullPath(base, key)
      case Err(err) => Err(Wrap(err, "cannot construct object path"))
      case Ok(full) =>
        var metaFile := MetaFilePath(full);
        match CheckFileExists(st, metaFile)
        case Err(err) => Err(Wrap(err, "error checking meta file exists"))
        case Ok(metaExists) =>
          var metaData: Result<Option<Metadata>> :=
            if metaExists then
              (match codec.unmarshal(st.files[metaFile])
               case Err(err) => Err(Wrap(err, "cannot decode meta file contents"))
               case Ok(m) => Ok(m))
            else Ok(None);
          if metaData.Err? then Err(metaData.error)
          else
            match CheckFileExists(st, full)
            case Err(err) => Err(Wrap(err, "error checking data file exists"))
            case Ok(dataExists) =>
              if dataExists then Ok(Object(st.files[full], metaData.value, key))
              else Err(New("object does not exist"))
  }

  /** `DeleteObject` on a filesystem: the metadata file is removed, then the data file;
      absent files are skipped. */
  function Delete(st: FsState, base: string, key: string): (e: Effect<Option<Error>>)
    requires st.Valid()
    ensures e.state.Valid() && e.state.dirs == st.dirs
    ensures e.result.None? ==>
      && base in st.dirs
      && var full := Join(base, key);
      && e.state.files == st.files - {full, MetaFilePath(full)}
    ensures base !in st.dirs ==> e.state == st && e.result.Some?
    ensures e.result.None? <==>
      && base in st.dirs
      && var full := Join(base, key);
      && full != "" && full !in st.dirs && MetaFilePath(full) !in st.dirs
    ensures base in st.dirs && e.result.Some? ==>
      var full := Join(base, key);
      e.state.files == (if full == "" || MetaFilePath(full) in st.dirs then st.files
                        else st.files - {MetaFilePath(full)})
  {
    match CheckBaseDirExists(st, base)
    case Some(err) => Effect(st, Some(err))
    case None =>
      var full := Join(base, key);
      if full == "" then Effect(st, Some(New("cannot construct object path")))
      else
        var metaRemoved := RemoveFileEffect(st, MetaFilePath(full));
        if metaRemoved.result.Some? then
          Effect(metaRemoved.state, Some(Wrap(metaRemoved.result.value, "cannot remove meta file")))
        else
          var dataRemoved := RemoveFileEffect(metaRemoved.state, full);
          if dataRemoved.result.Some? then
            Effect(dataRemoved.state, Some(Wrap(dataRemoved.result.value, "cannot remove file")))
          else
            Effect(dataRemoved.state, None)
  }

  /** Round trip: after a successful put with metadata, a get returns the same data and
      metadata (given that the metadata survives its JSON encoding). */
  lemma PutThenGet(st: FsState, base: string, key: string, data: seq<byte>, m: Metadata, codec: MetaCodec)
    requires st.Valid() && RoundTrips(codec, m)
    requires Put(st, base, key, PutObject(data, Some(m)), codec).result.Ok?
    ensures Get(Put(st, base, key, PutObject(data, Some(m)), codec).state, base, key, codec)
         == Ok(Object(data, Some(m), key))
  {
    var full := Join(base, key);
    var meta := MetaFilePath(full);
    MetaFilePathDistinct(full, full);
    var after := Put(st, base, key, PutObject(data, Some(m)), codec).state;
    assert after.files == st.files[full := data][meta := codec.marshal(m)];
    assert full in after.files && after.files[full] == data;
    assert meta in after.files && after.files[meta] == codec.marshal(m);
    assert base in after.dirs && full !in after.dirs && meta !in after.dirs;
  }

  /** A put without metadata leaves an existing metadata file alone, so a later get
      returns the stale metadata with the new data. */
  lemma PutWithoutMetadataKeepsStaleMetadata(st: FsState, base: string, key: string, data: seq<byte>,
                                             old_: Metadata, codec: MetaCodec)
    requires st.Valid() && RoundTrips(codec, old_)
    requires var meta := MetaFilePath(Join(base, key)); meta in st.files && st.files[meta] == codec.marshal(old_)
    requires Put(st, base, key, PutObject(data, None), codec).result.Ok?
    ensures Get(Put(st, base, key, PutObject(data, None), codec).state, base, key, codec)
         == Ok(Object(data, Some(old_), key))
  {
    var full := Join(base, key);
    MetaFilePathDistinct(full, full);
  }

  /** A put without metadata on a key that has no metadata file reads back with nil
      metadata. */
  lemma PutWithoutMetadataThenGet(st: FsState, base: string, key: string, data: seq<byte>, codec: MetaCodec)
    requires st.Valid()
    requires var meta := MetaFilePath(Join(base, key)); meta !in st.files && meta !in st.dirs
    requires Put(st, base, key, PutObject(data, None), codec).result.Ok?
    ensures Get(Put(st, base, key, PutObject(data, None), codec).state, base, key, codec)
         == Ok(Object(data, None, key))
  {
    var full := Join(base, key);
    MetaFilePathDistinct(full, full);
    assert MetaFilePath(full) !in Ancestors(Dir(full));
  }

  /** Without a data file there is no object, whether or not a metadata file is there. */
  lemma GetNeedsDataFile(st: FsState, base: string, key: string, codec: MetaCodec)
    requires st.Valid() && base in st.dirs && key != ""
    requires var full := Join(base, key); full !in st.files && full !in st.dirs
    requires var meta := MetaFilePath(Join(base, key));
      meta !in st.dirs && (meta in st.files ==> codec.unmarshal(st.files[meta]).Ok?)
    ensures Get(st, base, key, codec) == Err(New("object does not exist"))
  {
  }

  /** Deleting twice succeeds and the second delete changes nothing. */
  lemma DeleteTwice(st: FsState, base: string, key: string)
    requires st.Valid() && Delete(st, base, key).result.None?
    ensures var after := Delete(st, base, key).state;
      Delete(after, base, key) == Effect(after, None)
  {
  }

  /** After a successful delete a get reports that the object does not exist. */
  lemma GetAfterDelete(st: FsState, base: string, key: string, codec: MetaCodec)
    requires st.Valid() && key != "" && Delete(st, base, key).result.None?
    ensures Get(Delete(st, base, key).state, base, key, codec) == Err(New("object does not exist"))
  {
  }

  /** A missing or non-directory base directory makes every operation fail, and nothing
      on the filesystem changes. */
  lemma NoBaseDirectory(st: FsState, base: string, key: string, obj: PutObject, codec: MetaCodec)
    requires st.Valid() && base !in st.dirs
    ensures Put(st, base, key, obj, codec).result.Err? && Put(st, base, key, obj, codec).state == st
    ensures Get(st, base, key, codec).Err?
    ensures Delete(st, base, key) == Effect(st, CheckBaseDirExists(st, base))
  {
  }

  /** The object store over a base directory of a filesystem. */
  class FsStore {
    const baseDir: string
    const disk: Disk
    const codec: MetaCodec

    /** `newFS(baseDir)`. */
    constructor (baseDir: string, disk: Disk, codec: MetaCodec)
      ensures this.baseDir == baseDir && this.disk == disk && this.codec == codec
    {
      this.baseDir := baseDir;
      this.disk := disk;
      this.codec := codec;
    }

    /** The URL the local file server serves the object under; it never fails and does
        not look at the filesystem. */
    function GetDownloadURL(key: string): (r: Result<string>)
      ensures r == Ok("http://localhost:9000/" + key)
    {
      assert Decimal.Format(LocalFileServerPort) == "9000" by {
        assert Decimal.Format(9) == "9";
        assert Decimal.Format(90) == "90";
        assert Decimal.Format(900) == "900";
      }
      assert LocalFileServerBaseURL + ":" + "9000" + "/" + key == "http://localhost:9000/" + key;
      Ok(LocalFileServerBaseURL + ":" + Decimal.Format(LocalFileServerPort) + "/" + key)
    }

    method EnsureDir(base: string, file: string) returns (err: Option<Error>)
      requires disk.Valid()
      modifies disk
      ensures disk.Valid()
      ensures Effect(disk.State(), err) == EnsureDirEffect(old(disk.State()), base, file)
    {
      err := CheckBaseDirExists(disk.State(), base);
      if err.None? {
        err := disk.MkdirAll(Dir(file));
      }
    }

    method RemoveFile(p: string) returns (err: Option<Error>)
      requires disk.Valid()
      modifies disk
      ensures disk.Valid()
      ensures Effect(disk.State(), err) == RemoveFileEffect(old(disk.State()), p)
    {
      var found := CheckFileExists(disk.State(), p);
      if found.Err? {
        err := Some(Wrap(found.error, "error checking file before deletion"));
      } else {
        if found.value {
          disk.Remove(p);
        }
        err := None;
      }
    }

    method PutObject(key: string, obj: PutObject) returns (r: Result<Object>)
      requires disk.Valid()
      modifies disk
      ensures disk.Valid()
      ensures Effect(disk.State(), r) == Put(old(disk.State()), baseDir, key, obj, codec)
    {
      var full := GetFullPath(baseDir, key);
      if full.Err? {
        return Err(Wrap(full.error, "cannot construct object path"));
      }
      var err := EnsureDir(baseDir, full.value);
      if err.Some? {
        return Err(Wrap(err.value, "cannot create object subdirectories"));
      }
      err := disk.WriteFile(full.value, obj.data);
      if err.Some? {
        return Err(Wrap(err.value, "cannot write object data to a file"));
      }
      if obj.metaData.Some? {
        var b := codec.marshal(obj.metaData.value);
        err := disk.WriteFile(MetaFilePath(full.value), b);
        if err.Some? {
          return Err(Wrap(err.value, "cannot write object metadata to a file"));
        }
      }
      r := Ok(Object(obj.data, obj.metaData, key));
    }

    method GetObject(key: string) returns (r: Result<Object>)
      requires disk.Valid()
      ensures r == Get(disk.State(), baseDir, key, codec)
      ensures r.Ok? ==> Join(baseDir, key) in disk.files && r.value.data == disk.files[Join(baseDir, key)]
    {
      var baseErr := CheckBaseDirExists(disk.State(), baseDir);
      if baseErr.Some? {
        return Err(Wrap(baseErr.value, "error checking object store base directory"));
      }
      var full := GetFullPath(baseDir, key);
      if full.Err? {
        return Err(Wrap(full.error, "cannot construct object path"));
      }
      var metaData: Option<Metadata> := None;
      var metaFile := MetaFilePath(full.value);
      var metaExists := CheckFileExists(disk.State(), metaFile);
      if metaExists.Err? {
        return Err(Wrap(metaExists.error, "error checking meta file exists"));
      } else if metaExists.value {
        var contents := disk.ReadFile(metaFile);
        var decoded := codec.unmarshal(contents);
        if decoded.Err? {
          return Err(Wrap(decoded.error, "cannot decode meta file contents"));
        }
        metaData := decoded.value;
      }
      var dataExists := CheckFileExists(disk.State(), full.value);
      if dataExists.Err? {
        return Err(Wrap(dataExists.error, "error checking data file exists"));
      } else if dataExists.value {
        var contents := disk.ReadFile(full.value);
        return Ok(Object(contents, metaData, key));
      }
      r := Err(New("object does not exist"));
    }

    method DeleteObject(key: string) returns (err: Option<Error>)
      requires disk.Valid()
      modifies disk
      ensures disk.Valid()
      ensures Effect(disk.State(), err) == Delete(old(disk.State()), baseDir, key)
    {
      err := CheckBaseDirExists(disk.State(), baseDir);
      if err.Some? {
        return;
      }
      var full := Join(baseDir, key);
      if full == "" {
        return Some(New("cannot construct object path"));
      }
      var metaFile := MetaFilePath(full);
      err := RemoveFile(metaFile);
      if err.Some? {
        return Some(Wrap(err.value, "cannot remove meta file"));
      }
      err := RemoveFile(full);
      if err.Some? {
        return Some(Wrap(err.value, "cannot remove file"));
      }
    }
  }
}
