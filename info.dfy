/** The statistics handler: it resolves `stats-{book_id}.json` inside the
    data directory, refuses any name that resolves outside it, and serves the
    file's text as JSON. Paths are sequences of components, the root being
    the empty sequence; the file system is a value. */
module Info {
  import opened Wrappers
  import opened Lib
  import Utf8

  type Path = seq<string>

  /** The directories and the files (with their text) that exist, the working
      directory, and the files that exist but cannot be opened. */
  datatype FileSystem = FileSystem(dirs: set<Path>, files: map<Path, string>, cwd: Path, unreadable: set<Path>)

  /** The components of a relative path written with `/`; empty components
      (from `//` or a trailing `/`) are dropped. */
  function Components(s: string): seq<string> {
    ComponentsFrom(s, "")
  }

  function ComponentsFrom(s: string, acc: string): seq<string>
    decreases |s|
  {
    if s == [] then (if acc == "" then [] else [acc])
    else if s[0] == '/' then (if acc == "" then [] else [acc]) + ComponentsFrom(s[1..], "")
    else ComponentsFrom(s[1..], acc + [s[0]])
  }

  /** A name without `/` is a single component. */
  lemma {:induction false} ComponentsOfPlainName(s: string, acc: string)
    requires '/' !in s && acc + s != ""
    ensures ComponentsFrom(s, acc) == [acc + s]
    decreases |s|
  {
    if s == [] {
      assert acc + s == acc;
    } else {
      assert acc + s == (acc + [s[0]]) + s[1..];
      ComponentsOfPlainName(s[1..], acc + [s[0]]);
    }
  }

  /** A name without `/` followed by `/` is one component, then the rest. */
  lemma {:induction false} ComponentsOfSegment(s: string, rest: string, acc: string)
    requires '/' !in s && acc + s != ""
    ensures ComponentsFrom(s + "/" + rest, acc) == [acc + s] + Components(rest)
    decreases |s|
  {
    if s == [] {
      assert acc + s == acc;
      assert (s + "/" + rest)[1..] == rest;
    } else {
      assert acc + s == (acc + [s[0]]) + s[1..];
      assert (s + "/" + rest)[1..] == s[1..] + "/" + rest;
      ComponentsOfSegment(s[1..], rest, acc + [s[0]]);
    }
  }

  /** No component of `p` is `.` or `..`: nothing in it is left to resolve. */
  predicate NoDots(p: Path) {
    forall i :: 0 <= i < |p| ==> p[i] != "." && p[i] != ".."
  }

  /** The longest file name a directory entry can have, in bytes (NAME_MAX). */
  const NAME_MAX: nat := 255

  /** `canonicalize` from directory `cur`: resolve `.` and `..` (the parent of
      the root is the root), and require every component to exist, each one
      but the last being a directory; a component longer than `NAME_MAX`
      bytes is refused by the system before it is looked up. Symbolic links
      are not modelled. */
  function Canonicalize(fs: FileSystem, cur: Path, comps: seq<string>): (r: Result<Path, IoError>)
    requires cur in fs.dirs
    ensures r.Success? ==> r.value in fs.dirs || r.value in fs.files
    ensures r.Success? && NoDots(cur) ==> NoDots(r.value)
    decreases |comps|
  {
    if comps == [] then Success(cur)
    else if comps[0] == "." then Canonicalize(fs, cur, comps[1..])
    else if comps[0] == ".." then
      var parent := if cur == [] then [] else cur[..|cur| - 1];
      if parent in fs.dirs then Canonicalize(fs, parent, comps[1..]) else Failure(NoSuchFile)
    else if Utf8.ByteLength(comps[0]) > NAME_MAX then Failure(NameTooLong)
    else
      var next := cur + [comps[0]];
      if next in fs.dirs then Canonicalize(fs, next, comps[1..])
      else if next in fs.files then (if |comps| == 1 then Success(next) else Failure(NotADirectory))
      else Failure(NoSuchFile)
  }

  /** `path.ancestors()`: the path itself, then each parent up to the root. */
  function Ancestors(p: Path): (r: seq<Path>)
    ensures |r| == |p| + 1 && r[0] == p
    decreases |p|
  {
    [p] + (if p == [] then [] else Ancestors(p[..|p| - 1]))
  }

  /** The guard: one of the ancestors is the data directory exactly when the
      path lies inside it (or is it). */
  lemma {:induction false} AncestorsArePrefixes(p: Path, d: Path)
    ensures d in Ancestors(p) <==> d <= p
    decreases |p|
  {
    if p != [] {
      AncestorsArePrefixes(p[..|p| - 1], d);
      if d <= p && d != p {
        assert d <= p[..|p| - 1];
      }
      if d <= p[..|p| - 1] {
        assert d <= p;
      }
    }
  }

  /** `format!("stats-{}.json", book_id)`. */
  function StatsName(bookId: string): string {
    "stats-" + bookId + ".json"
  }

  /** The file name holds a NUL character exactly when the book id does. */
  lemma StatsNameNul(bookId: string)
    ensures '\0' in StatsName(bookId) <==> '\0' in bookId
  {
    assert '\0' !in "stats-" && '\0' !in ".json";
  }

  /** `Path::new("./data").canonicalize()`. */
  function DataDir(fs: FileSystem): Result<Path, IoError> {
    if fs.cwd in fs.dirs then Canonicalize(fs, fs.cwd, [".", "data"]) else Failure(NoSuchFile)
  }

  /** `data_dir_path.join(name).canonicalize()`: the canonical path of the
      requested statistics file. The whole path becomes a C string first, so
      a NUL character in the name is refused before anything is looked up;
      a data path that is a file, not a directory, then fails the lookup. */
  function StatsPath(fs: FileSystem, dataDir: Path, bookId: string): Result<Path, IoError> {
    if '\0' in StatsName(bookId) then Failure(NulInPath)
    else if dataDir !in fs.dirs then Failure(NotADirectory)
    else Canonicalize(fs, dataDir, Components(StatsName(bookId)))
  }

  /** `handler`, given the outcome of parsing the query string (the book id,
      or the parser's message): each failing step becomes the error the
      source maps it to. */
  function Handler(query: Result<string, string>, fs: FileSystem): (r: Result<Response, RequestError>)
    ensures r.Success? ==> r.value.code == OK && r.value.contentType == "application/json"
    ensures query.Failure? ==> r == Failure(QueryStringError(query.error))
  {
    match query
    case Failure(detail) => Failure(QueryStringError(detail))
    case Success(bookId) =>
      match DataDir(fs)
      case Failure(e) => Failure(Other(e))
      case Success(dataDir) =>
        match StatsPath(fs, dataDir, bookId)
        case Failure(e) => Failure(Other(e))
        case Success(path) =>
          if dataDir !in Ancestors(path) then Failure(NotFoundError)
          else if path in fs.unreadable then Failure(NotFoundError)
          else if path in fs.dirs then Failure(Other(IsADirectory))
          else Success(Response(OK, "application/json", fs.files[path]))
  }

  /** Whatever the book id, a file served is a file inside the data
      directory, and its text is served unchanged. */
  lemma ServesOnlyDataFiles(bookId: string, fs: FileSystem)
    requires Handler(Success(bookId), fs).Success?
    ensures DataDir(fs).Success? && DataDir(fs).value in fs.dirs
    ensures StatsPath(fs, DataDir(fs).value, bookId).Success?
    ensures var path := StatsPath(fs, DataDir(fs).value, bookId).value;
      && DataDir(fs).value <= path && path in fs.files
      && Handler(Success(bookId), fs).value.data == fs.files[path]
      && (NoDots(fs.cwd) ==> NoDots(path))
  {
    var path := StatsPath(fs, DataDir(fs).value, bookId).value;
    AncestorsArePrefixes(path, DataDir(fs).value);
  }

  /** A book id that resolves outside the data directory is refused with
      `NotFoundError` before any file is opened. */
  lemma OutsideIsNotFound(bookId: string, fs: FileSystem)
    requires DataDir(fs).Success? && DataDir(fs).value in fs.dirs
    requires StatsPath(fs, DataDir(fs).value, bookId).Success?
    requires !(DataDir(fs).value <= StatsPath(fs, DataDir(fs).value, bookId).value)
    ensures Handler(Success(bookId), fs) == Failure(NotFoundError)
  {
    AncestorsArePrefixes(StatsPath(fs, DataDir(fs).value, bookId).value, DataDir(fs).value);
  }

  /** A book id without `/` names the file `stats-{id}.json` of the data
      directory itself; when that file exists and opens, its text is served. */
  lemma PlainIdIsServed(bookId: string, fs: FileSystem)
    requires '/' !in bookId && '\0' !in bookId && Utf8.ByteLength(StatsName(bookId)) <= NAME_MAX
    requires DataDir(fs).Success? && DataDir(fs).value in fs.dirs
    requires DataDir(fs).value + [StatsName(bookId)] in fs.files
    requires DataDir(fs).value + [StatsName(bookId)] !in fs.dirs + fs.unreadable
    ensures Handler(Success(bookId), fs)
         == Success(Response(OK, "application/json", fs.files[DataDir(fs).value + [StatsName(bookId)]]))
  {
    var d := DataDir(fs).value;
    var name := StatsName(bookId);
    assert '/' !in "stats-" && '/' !in ".json";
    ComponentsOfPlainName(name, "");
    assert "" + name == name;
    assert name != "." && name != ".." by {
      assert |name| >= 11;
    }
    StatsNameNul(bookId);
    AncestorsArePrefixes(d + [name], d);
  }

  /** The file opened is inside the data directory but cannot be opened:
      `NotFoundError`, the same answer as for a path outside it. */
  lemma UnopenableIsNotFound(bookId: string, fs: FileSystem)
    requires DataDir(fs).Success? && DataDir(fs).value in fs.dirs
    requires StatsPath(fs, DataDir(fs).value, bookId).Success?
    requires DataDir(fs).value <= StatsPath(fs, DataDir(fs).value, bookId).value
    requires StatsPath(fs, DataDir(fs).value, bookId).value in fs.unreadable
    ensures Handler(Success(bookId), fs) == Failure(NotFoundError)
  {
    AncestorsArePrefixes(StatsPath(fs, DataDir(fs).value, bookId).value, DataDir(fs).value);
  }

  /** A name that does not resolve fails in `canonicalize`, before the
      ancestor guard: the error is passed on as `Other`, not `NotFoundError`. */
  lemma UnresolvedIsOther(bookId: string, fs: FileSystem)
    requires DataDir(fs).Success?
    requires StatsPath(fs, DataDir(fs).value, bookId).Failure?
    ensures Handler(Success(bookId), fs) == Failure(Other(StatsPath(fs, DataDir(fs).value, bookId).error))
  {
  }

  /** In particular a plain book id with no statistics file gives the
      system's "no such file" error, a 500, not `NotFoundError`. */
  lemma MissingFileIsOther(bookId: string, fs: FileSystem)
    requires '/' !in bookId && '\0' !in bookId && Utf8.ByteLength(StatsName(bookId)) <= NAME_MAX
    requires DataDir(fs).Success? && DataDir(fs).value in fs.dirs
    requires DataDir(fs).value + [StatsName(bookId)] !in fs.dirs
    requires DataDir(fs).value + [StatsName(bookId)] !in fs.files
    ensures Handler(Success(bookId), fs) == Failure(Other(NoSuchFile))
  {
    var name := StatsName(bookId);
    assert '/' !in "stats-" && '/' !in ".json";
    ComponentsOfPlainName(name, "");
    assert "" + name == name;
    assert name != "." && name != ".." by {
      assert |name| >= 11;
    }
    StatsNameNul(bookId);
  }

  /** A NUL character in the book id is refused before any lookup under the
      data path, whether that path is a directory or a file. */
  lemma NulIdIsOther(bookId: string, fs: FileSystem)
    requires '\0' in bookId
    requires DataDir(fs).Success?
    ensures Handler(Success(bookId), fs) == Failure(Other(NulInPath))
  {
    StatsNameNul(bookId);
  }

  /** A data directory holding a directory `stats-`, and a file `x.json` at
      the root, outside it. */
  const TraversalFs := FileSystem({[], ["data"], ["data", "stats-"]}, map[["x.json"] := "secret"], [], {})

  lemma TraversalComponents()
    ensures Components(StatsName("/../../x")) == ["stats-", "..", "..", "x.json"]
  {
    assert StatsName("/../../x") == "stats-" + "/" + (".." + "/" + (".." + "/" + "x.json"));
    ComponentsOfPlainName("x.json", "");
    ComponentsOfSegment("..", ".." + "/" + "x.json", "");
    ComponentsOfSegment("..", "x.json", "");
    ComponentsOfSegment("stats-", ".." + "/" + (".." + "/" + "x.json"), "");
    assert "" + "x.json" == "x.json" && "" + ".." == ".." && "" + "stats-" == "stats-";
  }

  lemma TraversalResolves()
    ensures DataDir(TraversalFs) == Success(["data"])
    ensures Canonicalize(TraversalFs, ["data"], ["stats-", "..", "..", "x.json"]) == Success(["x.json"])
  {
    var fs := TraversalFs;
    var comps := ["stats-", "..", "..", "x.json"];
    assert "data" != "." && "data" != "..";
    assert "stats-" != "." && "stats-" != "..";
    assert "x.json" != "." && "x.json" != "..";
    assert [] + ["data"] == ["data"] && ["data"] + ["stats-"] == ["data", "stats-"];
    assert [] + ["x.json"] == ["x.json"];
    assert ["x.json"] !in fs.dirs;
    assert Canonicalize(fs, [], comps[3..]) == Success(["x.json"]);
    assert comps[2..][1..] == comps[3..];
    assert Canonicalize(fs, ["data"], comps[2..]) == Success(["x.json"]);
    assert comps[1..][1..] == comps[2..];
    assert Canonicalize(fs, ["data", "stats-"], comps[1..]) == Success(["x.json"]);
    assert Canonicalize(fs, [], ["data"]) == Success(["data"]);
    assert [".", "data"][1..] == ["data"];
  }

  /** A traversal: with a directory `data/stats-` in place, the id
      `/../../x` climbs out of the data directory and is refused. */
  lemma TraversalIsRefused()
    ensures Handler(Success("/../../x"), TraversalFs) == Failure(NotFoundError)
  {
    TraversalComponents();
    TraversalResolves();
    StatsNameNul("/../../x");
    assert StatsPath(TraversalFs, ["data"], "/../../x") == Success(["x.json"]);
    AncestorsArePrefixes(["x.json"], ["data"]);
  }
}
