/**
 * The small abstract file system the configuration resolver works on: a map
 * from absolute paths to file contents plus the set of existing directories.
 * A path is the sequence of its components below the root; `exists` is
 * membership in either collection.
 */
module FileSystem {
  import opened Wrappers
  import opened Text
  import Json

  type Path = seq<string>

  /**
   * What a file holds, as far as the resolver can tell: a document whose text
   * (after comment stripping) parses as a JSON value, a Markdown file with a
   * YAML front-matter block, or any other text.
   */
  datatype Content =
    | Doc(value: Json.Value)
    | Md(frontmatter: map<string, Json.Value>, body: string)
    | Plain(text: string)

  datatype FS = FS(files: map<Path, Content>, dirs: set<Path>)

  /** The errors the operations report. */
  datatype Error =
    | NotFound
    | AlreadyExists
    | InvalidName
    | InvalidReference
    | MissingDescription
    | MissingId
    | PathUnavailable
    | ParseError
    | IoError

  predicate Exists(fs: FS, p: Path) {
    p in fs.files || p in fs.dirs
  }

  /** `q` lies strictly below `p`. */
  predicate Below(p: Path, q: Path) {
    |p| < |q| && q[..|p|] == p
  }

  /** `q` is `p` or lies below it. */
  predicate AtOrBelow(p: Path, q: Path) {
    |p| <= |q| && q[..|p|] == p
  }

  /** The proper prefixes of `p`: the root and every ancestor directory. */
  function Ancestors(p: Path): (r: set<Path>)
    ensures forall q :: q in r <==> Below(q, p)
  {
    var r := set i | 0 <= i < |p| :: p[..i];
    assert forall q :: Below(q, p) ==> q == p[..|q|];
    r
  }

  function Parent(p: Path): Option<Path> {
    if p == [] then None else Some(p[..|p| - 1])
  }

  predicate IsEmptyDir(fs: FS, p: Path) {
    p in fs.dirs &&
    (forall q :: q in fs.files ==> !Below(p, q)) &&
    (forall q :: q in fs.dirs ==> !Below(p, q))
  }

  /** The names of the directories directly inside `p` (`read_dir` filtered by `is_dir`). */
  function ChildDirs(fs: FS, p: Path): (r: set<string>)
    ensures forall n :: n in r <==> p + [n] in fs.dirs
  {
    var r := set q | q in fs.dirs && |q| == |p| + 1 && q[..|p|] == p :: q[|p|];
    assert forall n :: p + [n] in fs.dirs ==> (p + [n])[..|p|] == p && (p + [n])[|p|] == n;
    assert forall q :: q in fs.dirs && |q| == |p| + 1 && q[..|p|] == p ==> q == p + [q[|p|]];
    r
  }

  /**
   * `fs::write`: fails on a directory or below a file. Unlike `fs::write`,
   * which fails when the parent directory is missing, it creates the missing
   * ancestors; every writer in the model creates the parent first.
   */
  function WriteFile(fs: FS, p: Path, c: Content): (r: Result<FS, Error>)
    ensures r.Ok? <==> p !in fs.dirs && forall q :: q in Ancestors(p) ==> q !in fs.files
    ensures r.Ok? ==> r.value.files == fs.files[p := c] && r.value.dirs == fs.dirs + Ancestors(p)
  {
    if p in fs.dirs || exists q :: q in Ancestors(p) && q in fs.files then Err(IoError)
    else Ok(FS(fs.files[p := c], fs.dirs + Ancestors(p)))
  }

  /** A path just written can be written again. */
  lemma WriteAgain(fs: FS, p: Path, c: Content, c': Content)
    requires WriteFile(fs, p, c).Ok?
    ensures WriteFile(WriteFile(fs, p, c).value, p, c').Ok?
  {
    var fs1 := WriteFile(fs, p, c).value;
    assert p !in Ancestors(p);
    forall q | q in Ancestors(p) ensures q !in fs1.files {
      assert q != p;
    }
  }

  /** `fs::create_dir_all`: fails when `p` or one of its ancestors is a file. */
  function CreateDirAll(fs: FS, p: Path): (r: Result<FS, Error>)
    ensures r.Ok? <==> p !in fs.files && forall q :: q in Ancestors(p) ==> q !in fs.files
    ensures r.Ok? ==> r.value.files == fs.files && r.value.dirs == fs.dirs + Ancestors(p) + {p}
  {
    if p in fs.files || exists q :: q in Ancestors(p) && q in fs.files then Err(IoError)
    else Ok(FS(fs.files, fs.dirs + Ancestors(p) + {p}))
  }

  /** `fs::remove_file`: fails unless `p` is a file. */
  function RemoveFile(fs: FS, p: Path): (r: Result<FS, Error>)
    ensures r.Ok? <==> p in fs.files
    ensures r.Ok? ==> r.value.files == fs.files - {p} && r.value.dirs == fs.dirs
  {
    if p in fs.files then Ok(FS(fs.files - {p}, fs.dirs)) else Err(IoError)
  }

  /** `fs::remove_dir_all`: fails unless `p` is a directory; removes it and everything below it. */
  function RemoveDirAll(fs: FS, p: Path): (r: Result<FS, Error>)
    ensures r.Ok? <==> p in fs.dirs
    ensures r.Ok? ==>
      && (forall q :: q in r.value.files <==> q in fs.files && !AtOrBelow(p, q))
      && (forall q :: q in r.value.files ==> r.value.files[q] == fs.files[q])
      && (forall q :: q in r.value.dirs <==> q in fs.dirs && !AtOrBelow(p, q))
  {
    if p in fs.dirs then
      Ok(FS(map q | q in fs.files && !AtOrBelow(p, q) :: fs.files[q],
            set q | q in fs.dirs && !AtOrBelow(p, q)))
    else Err(IoError)
  }

  /** `std::fs::remove_dir` with its result ignored: only an empty directory goes. */
  function RemoveEmptyDir(fs: FS, p: Path): (r: FS)
    ensures r.files == fs.files
    ensures r.dirs == if IsEmptyDir(fs, p) then fs.dirs - {p} else fs.dirs
  {
    if IsEmptyDir(fs, p) then FS(fs.files, fs.dirs - {p}) else fs
  }

  /**
   * The components of a relative path string: split on `/`, with empty
   * components and `.` components dropped as path comparison does. `..` is
   * kept as a component and not resolved.
   */
  function Segments(s: string): (r: seq<string>)
    ensures forall i :: 0 <= i < |r| ==> r[i] != "" && r[i] != "."
  {
    DropEmpty(Split(s, '/'))
  }

  function DropEmpty(parts: seq<string>): (r: seq<string>)
    ensures forall i :: 0 <= i < |r| ==> r[i] != "" && r[i] != "." && r[i] in parts
  {
    if parts == [] then []
    else if parts[0] == "" || parts[0] == "." then DropEmpty(parts[1..])
    else [parts[0]] + DropEmpty(parts[1..])
  }

  /** `Path::join`: an absolute argument replaces the base; a relative one extends it. */
  function JoinStr(dir: Path, rel: string): (r: Path)
    ensures StartsWith(rel, "/") ==> r == Segments(rel)
    ensures !StartsWith(rel, "/") ==> r == dir + Segments(rel)
  {
    if StartsWith(rel, "/") then Segments(rel) else dir + Segments(rel)
  }

  /** A relative argument that is one plain component (no separator, not `.`) adds exactly that component. */
  lemma JoinPlainName(dir: Path, name: string)
    requires name != "" && name != "." && '/' !in name
    ensures JoinStr(dir, name) == dir + [name]
  {
    assert Split(name, '/') == [name];
    assert DropEmpty([name]) == [name] + DropEmpty([]);
    assert name[0] != '/';
  }
}
