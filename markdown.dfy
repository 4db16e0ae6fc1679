/**
 * Markdown definition files with a YAML front-matter block
 * (`parse_md_file` and `write_md_file`, opencode_config.rs). The YAML encoder
 * and decoder are not modelled: a file written by `WriteMd` holds its
 * front-matter map and body as such.
 */
module Markdown {
  import opened Wrappers
  import opened Text
  import opened Json
  import opened FileSystem

  /** Parsed Markdown: the front-matter fields and the trimmed body. */
  datatype MdData = MdData(frontmatter: map<string, Value>, body: string)

  const EmptyMd := MdData(map[], "")

  /**
   * Reading a definition file. A file with front matter yields its fields and
   * its trimmed body; any other text yields no fields and the whole text,
   * trimmed, as body. Reading a missing path or a directory fails. A file
   * holding a JSON document, whose text the model does not keep, reads as no
   * fields and an empty body.
   */
  function ReadMd(fs: FS, p: Path): (r: Result<MdData, Error>)
    ensures r.Ok? <==> p in fs.files
    ensures r.Ok? && fs.files[p].Md? ==> r.value == MdData(fs.files[p].frontmatter, Trim(fs.files[p].body))
    ensures r.Ok? && fs.files[p].Plain? ==> r.value == MdData(map[], Trim(fs.files[p].text))
    ensures r.Ok? && fs.files[p].Doc? ==> r.value == EmptyMd
  {
    if p !in fs.files then Err(IoError)
    else
      match fs.files[p]
      case Md(fm, body) => Ok(MdData(fm, Trim(body)))
      case Plain(t) => Ok(MdData(map[], Trim(t)))
      case Doc(_) => Ok(EmptyMd)
  }

  /** The body read from a definition file is already trimmed. */
  lemma ReadMdBodyTrimmed(fs: FS, p: Path)
    requires ReadMd(fs, p).Ok?
    ensures Trim(ReadMd(fs, p).value.body) == ReadMd(fs, p).value.body
  {
    match fs.files[p]
    case Md(_, body) => TrimIdempotent(body);
    case Plain(t) => TrimIdempotent(t);
    case Doc(_) =>
  }

  /** The front matter without its null-valued keys. */
  function WithoutNulls(fm: map<string, Value>): (r: map<string, Value>)
    ensures forall k :: k in r <==> k in fm && fm[k] != Null
    ensures forall k :: k in r ==> r[k] == fm[k]
  {
    map k | k in fm && fm[k] != Null :: fm[k]
  }

  /** Writing a definition file: null-valued keys are omitted, the body is written as given. */
  function WriteMd(fs: FS, p: Path, fm: map<string, Value>, body: string): (r: Result<FS, Error>)
    ensures r.Ok? <==> WriteFile(fs, p, Md(WithoutNulls(fm), body)).Ok?
    ensures r.Ok? ==> r.value.files == fs.files[p := Md(WithoutNulls(fm), body)]
  {
    WriteFile(fs, p, Md(WithoutNulls(fm), body))
  }

  /**
   * Reading back what was written gives the front matter without its nulls
   * and the trimmed body.
   */
  lemma ReadAfterWrite(fs: FS, p: Path, fm: map<string, Value>, body: string)
    requires WriteMd(fs, p, fm, body).Ok?
    ensures ReadMd(WriteMd(fs, p, fm, body).value, p) == Ok(MdData(WithoutNulls(fm), Trim(body)))
  {
  }

  /** Dropping nulls twice is dropping them once. */
  lemma WithoutNullsIdempotent(fm: map<string, Value>)
    ensures WithoutNulls(WithoutNulls(fm)) == WithoutNulls(fm)
  {
    var once := WithoutNulls(fm);
    var twice := WithoutNulls(once);
    assert twice.Keys == once.Keys;
  }

  /** A second write of what was read back changes nothing: the format is stable. */
  lemma RewriteStable(fs: FS, p: Path, fm: map<string, Value>, body: string)
    requires WriteMd(fs, p, fm, body).Ok?
    ensures WriteMd(WriteMd(fs, p, fm, body).value, p, WithoutNulls(fm), Trim(body)).Ok?
    ensures ReadMd(WriteMd(WriteMd(fs, p, fm, body).value, p, WithoutNulls(fm), Trim(body)).value, p)
         == Ok(MdData(WithoutNulls(fm), Trim(body)))
  {
    var fs1 := WriteMd(fs, p, fm, body).value;
    WriteAgain(fs, p, Md(WithoutNulls(fm), body), Md(WithoutNulls(WithoutNulls(fm)), Trim(body)));
    ReadAfterWrite(fs1, p, WithoutNulls(fm), Trim(body));
    WithoutNullsIdempotent(fm);
    TrimIdempotent(body);
  }
}
