/**
 * The three JSON configuration layers (opencode_config.rs): the user file
 * `opencode.json` in the configuration directory, the project file found in
 * the working directory, and the custom file named by `OPENCODE_CONFIG`.
 * Later layers take precedence: custom over project over user.
 */
module ConfigLayers {
  import opened Wrappers
  import opened Text
  import opened Json
  import opened JsonComments
  import opened FileSystem
  import opened ConfigPaths

  datatype LayerPaths = LayerPaths(user: Path, project: Option<Path>, custom: Option<Path>)

  datatype Layers = Layers(user: Value, project: Value, custom: Value, paths: LayerPaths)

  datatype LayerId = UserLayer | ProjectLayer | CustomLayer

  /** The project configuration files in priority order: root before `.opencode`, `.json` before `.jsonc`. */
  function ProjectConfigCandidates(wd: Path): seq<Path> {
    [wd + ["opencode.json"], wd + ["opencode.jsonc"], wd + [".opencode", "opencode.json"], wd + [".opencode", "opencode.jsonc"]]
  }

  /** The first existing path of `candidates`, if any. */
  function FirstExisting(fs: FS, candidates: seq<Path>): (r: Option<nat>)
    ensures r.Some? ==> r.value < |candidates| && Exists(fs, candidates[r.value])
    ensures r.Some? ==> forall j :: 0 <= j < r.value ==> !Exists(fs, candidates[j])
    ensures r.None? ==> forall j :: 0 <= j < |candidates| ==> !Exists(fs, candidates[j])
  {
    if candidates == [] then None
    else if Exists(fs, candidates[0]) then Some(0)
    else match FirstExisting(fs, candidates[1..])
      case None => None
      case Some(i) => Some(i + 1)
  }

  /**
   * `get_project_config_file`: the first existing candidate, or the root
   * `opencode.json` when none exists.
   */
  function ProjectConfigFile(fs: FS, wd: Path): (r: Path)
    ensures exists i :: (0 <= i < 4 && r == ProjectConfigCandidates(wd)[i] &&
      (forall j :: 0 <= j < i ==> !Exists(fs, ProjectConfigCandidates(wd)[j])) &&
      (Exists(fs, r) || i == 0))
    ensures !Exists(fs, r) ==> r == wd + ["opencode.json"] && forall c :: c in ProjectConfigCandidates(wd) ==> !Exists(fs, c)
  {
    var cands := ProjectConfigCandidates(wd);
    match FirstExisting(fs, cands)
    case Some(i) => cands[i]
    case None => cands[0]
  }

  /** `get_config_paths`. */
  function LayerPathsFor(fs: FS, env: Env, wd: Option<Path>): LayerPaths {
    LayerPaths(
      env.configDir + ["opencode.json"],
      if wd.Some? then Some(ProjectConfigFile(fs, wd.value)) else None,
      env.customConfig)
  }

  /**
   * `read_config_file`: a missing file is the empty object; otherwise the
   * text with comments stripped and trimmed is parsed, blank text again
   * giving the empty object. Reading a directory fails; text that is not a
   * JSON document (a Markdown file, non-blank plain text) is a parse error.
   */
  function ReadConfigFile(fs: FS, p: Path): (r: Result<Value, Error>)
    ensures !Exists(fs, p) ==> r == Ok(EmptyObject)
    ensures p in fs.dirs && p !in fs.files ==> r == Err(IoError)
    ensures p in fs.files && fs.files[p].Doc? ==> r == Ok(fs.files[p].value)
    ensures p in fs.files && fs.files[p].Plain? ==>
      (r.Ok? <==> IsBlank(Strip(fs.files[p].text, Code))) && (r.Ok? ==> r.value == EmptyObject)
  {
    if !Exists(fs, p) then Ok(EmptyObject)
    else if p !in fs.files then Err(IoError)
    else
      match fs.files[p]
      case Doc(v) => Ok(v)
      case Plain(t) =>
        TrimEmptyIffBlank(Strip(t, Code));
        if Trim(Strip(t, Code)) == [] then Ok(EmptyObject) else Err(ParseError)
      case Md(_, _) => Err(ParseError)
  }

  /**
   * The facts every set of layers read from one file system shares: an
   * unconfigured layer is the empty object, and two layers read from the same
   * path hold the same document.
   */
  predicate Coherent(l: Layers) {
    && (l.paths.project.None? ==> l.project == EmptyObject)
    && (l.paths.custom.None? ==> l.custom == EmptyObject)
    && (l.paths.project.Some? && l.paths.custom == l.paths.project ==> l.custom == l.project)
    && (l.paths.project == Some(l.paths.user) ==> l.project == l.user)
    && (l.paths.custom == Some(l.paths.user) ==> l.custom == l.user)
  }

  /** `read_config_layers`: user, then project, then custom; the first failure is reported. */
  function ReadConfigLayers(fs: FS, env: Env, wd: Option<Path>): (r: Result<Layers, Error>)
    ensures r.Ok? ==> Coherent(r.value) && r.value.paths == LayerPathsFor(fs, env, wd)
    ensures r.Ok? ==> ReadConfigFile(fs, r.value.paths.user) == Ok(r.value.user)
    ensures r.Ok? && r.value.paths.project.Some? ==> ReadConfigFile(fs, r.value.paths.project.value) == Ok(r.value.project)
    ensures r.Ok? && r.value.paths.custom.Some? ==> ReadConfigFile(fs, r.value.paths.custom.value) == Ok(r.value.custom)
  {
    var paths := LayerPathsFor(fs, env, wd);
    var user :- ReadConfigFile(fs, paths.user);
    var project :- if paths.project.Some? then ReadConfigFile(fs, paths.project.value) else Ok(EmptyObject);
    var custom :- if paths.custom.Some? then ReadConfigFile(fs, paths.custom.value) else Ok(EmptyObject);
    Ok(Layers(user, project, custom, paths))
  }

  /** The document every consumer sees: user, overlaid by project, overlaid by custom. */
  function Merged(l: Layers): Value {
    Merge(Merge(l.user, l.project), l.custom)
  }

  function LayerValue(l: Layers, id: LayerId): Value {
    match id
    case UserLayer => l.user
    case ProjectLayer => l.project
    case CustomLayer => l.custom
  }

  function WithLayer(l: Layers, id: LayerId, v: Value): (r: Layers)
    ensures LayerValue(r, id) == v && r.paths == l.paths
    ensures forall other :: other != id ==> LayerValue(r, other) == LayerValue(l, other)
  {
    match id
    case UserLayer => l.(user := v)
    case ProjectLayer => l.(project := v)
    case CustomLayer => l.(custom := v)
  }

  /** The entry `name` of the object section `key` of a document. */
  function SectionEntry(doc: Value, key: string, name: string): Option<Value> {
    At(doc, [key, name])
  }

  /** A two-step path unfolded: the document and the section are objects holding the key and the name. */
  lemma SectionEntryUnfold(doc: Value, key: string, name: string)
    ensures SectionEntry(doc, key, name) ==
      if doc.Object? && key in doc.fields && doc.fields[key].Object? && name in doc.fields[key].fields
      then Some(doc.fields[key].fields[name]) else None
  {
    var path := [key, name];
    assert path[1..] == [name] && [name][1..] == [];
    if doc.Object? && key in doc.fields {
      assert At(doc, path) == At(doc.fields[key], [name]);
      var sec := doc.fields[key];
      if sec.Object? && name in sec.fields {
        assert At(sec, [name]) == At(sec.fields[name], []);
      }
    }
  }

  datatype EntrySource = Absent | Found(path: Path, entry: Value)

  /**
   * `get_json_entry_source`: the entry from the custom layer if a custom path
   * is configured and defines it, else from the project layer if a project
   * path is configured and defines it, else from the user layer.
   */
  function GetJsonEntrySource(l: Layers, key: string, name: string): (r: EntrySource)
    ensures l.paths.custom.Some? && SectionEntry(l.custom, key, name).Some? ==>
      r == Found(l.paths.custom.value, SectionEntry(l.custom, key, name).value)
    ensures ((l.paths.custom.None? || SectionEntry(l.custom, key, name).None?) &&
      l.paths.project.Some? && SectionEntry(l.project, key, name).Some?) ==>
      r == Found(l.paths.project.value, SectionEntry(l.project, key, name).value)
    ensures ((l.paths.custom.None? || SectionEntry(l.custom, key, name).None?) &&
      (l.paths.project.None? || SectionEntry(l.project, key, name).None?)) ==>
      r == if SectionEntry(l.user, key, name).Some? then Found(l.paths.user, SectionEntry(l.user, key, name).value) else Absent
  {
    if l.paths.custom.Some? && SectionEntry(l.custom, key, name).Some? then
      Found(l.paths.custom.value, SectionEntry(l.custom, key, name).value)
    else if l.paths.project.Some? && SectionEntry(l.project, key, name).Some? then
      Found(l.paths.project.value, SectionEntry(l.project, key, name).value)
    else if SectionEntry(l.user, key, name).Some? then
      Found(l.paths.user, SectionEntry(l.user, key, name).value)
    else Absent
  }

  /** A document that does not replace a whole section when merged over another. */
  predicate SectionShaped(doc: Value, key: string) {
    doc.Object? && (key in doc.fields ==> doc.fields[key].Object?)
  }

  /**
   * The entry source agrees with the merged document: when the layers are
   * objects with object sections, a found non-object entry is exactly what
   * the merged document holds, and an entry is found exactly when the merged
   * document has one.
   */
  lemma {:induction false} EntrySourceAgreesWithMerge(l: Layers, key: string, name: string)
    requires Coherent(l)
    requires SectionShaped(l.user, key) && SectionShaped(l.project, key) && SectionShaped(l.custom, key)
    ensures GetJsonEntrySource(l, key, name).Found? <==> SectionEntry(Merged(l), key, name).Some?
    ensures GetJsonEntrySource(l, key, name).Found? && !GetJsonEntrySource(l, key, name).entry.Object? ==>
      SectionEntry(Merged(l), key, name) == Some(GetJsonEntrySource(l, key, name).entry)
  {
    var path := [key, name];
    assert path[1..] == [name] && [name][1..] == [];
    var lower := Merge(l.user, l.project);
    var m := Merged(l);
    if At(l.custom, path).Some? {
      MergeAt(lower, l.custom, path, At(l.custom, path).value);
    } else {
      AbsentLeavesToBase(l.custom, key, name);
      if At(l.project, path).Some? {
        MergeAt(l.user, l.project, path, At(l.project, path).value);
        BaseKeptWhereOverlayAbsent(lower, l.custom, path, At(lower, path).value);
      } else {
        AbsentLeavesToBase(l.project, key, name);
        if At(l.user, path).Some? {
          BaseKeptWhereOverlayAbsent(l.user, l.project, path, At(l.user, path).value);
          BaseKeptWhereOverlayAbsent(lower, l.custom, path, At(lower, path).value);
        } else {
          MergedEntryAbsent(l, key, name);
        }
      }
    }
  }

  /** A section-shaped document without the entry leaves it to the document below. */
  lemma AbsentLeavesToBase(doc: Value, key: string, name: string)
    requires SectionShaped(doc, key) && At(doc, [key, name]).None?
    ensures LeavesToBase(doc, [key, name])
  {
    var path := [key, name];
    assert path[1..] == [name] && [name][1..] == [];
    SectionEntryUnfold(doc, key, name);
    if key in doc.fields {
      assert LeavesToBase(doc.fields[key], [name]);
    }
  }

  /** With no layer defining the entry, neither does the merged document. */
  lemma MergedEntryAbsent(l: Layers, key: string, name: string)
    requires SectionShaped(l.user, key) && SectionShaped(l.project, key) && SectionShaped(l.custom, key)
    requires At(l.user, [key, name]).None? && At(l.project, [key, name]).None? && At(l.custom, [key, name]).None?
    ensures At(Merged(l), [key, name]).None?
  {
    MergeEntryAbsent(l.user, l.project, key, name);
    MergeEntryAbsent(Merge(l.user, l.project), l.custom, key, name);
  }

  /** Merging two section-shaped documents that both lack an entry gives one that lacks it too. */
  lemma MergeEntryAbsent(b: Value, o: Value, key: string, name: string)
    requires SectionShaped(b, key) && SectionShaped(o, key)
    requires At(b, [key, name]).None? && At(o, [key, name]).None?
    ensures SectionShaped(Merge(b, o), key) && At(Merge(b, o), [key, name]).None?
  {
    SectionEntryUnfold(b, key, name);
    SectionEntryUnfold(o, key, name);
    var m := Merge(b, o);
    SectionEntryUnfold(m, key, name);
    if key in o.fields {
      var bk := if key in b.fields then b.fields[key] else Null;
      assert m.fields[key] == Merge(bk, o.fields[key]);
    }
  }

  /**
   * `get_json_write_target`: the custom path if configured, else the project
   * path if configured, else the user path.
   */
  function GetJsonWriteTarget(l: Layers, preferred: Option<Scope>): (r: Path)
    ensures l.paths.custom.Some? ==> r == l.paths.custom.value
    ensures l.paths.custom.None? && l.paths.project.Some? ==> r == l.paths.project.value
    ensures l.paths.custom.None? && l.paths.project.None? ==> r == l.paths.user
  {
    if l.paths.custom.Some? then l.paths.custom.value
    else if preferred == Some(Project) && l.paths.project.Some? then l.paths.project.value
    else if l.paths.project.Some? then l.paths.project.value
    else l.paths.user
  }

  /** The preferred scope never changes the write target. */
  lemma WriteTargetIgnoresPreference(l: Layers, a: Option<Scope>, b: Option<Scope>)
    ensures GetJsonWriteTarget(l, a) == GetJsonWriteTarget(l, b)
  {
  }

  /** `get_config_for_path`: the layer read from `target`, custom before project, the user layer otherwise. */
  function LayerFor(l: Layers, target: Path): (r: LayerId)
    ensures r == CustomLayer <==> l.paths.custom == Some(target)
    ensures r == ProjectLayer <==> l.paths.custom != Some(target) && l.paths.project == Some(target)
  {
    if l.paths.custom == Some(target) then CustomLayer
    else if l.paths.project == Some(target) then ProjectLayer
    else UserLayer
  }

  /**
   * The layer chosen for the path of a found entry holds that very entry, so
   * editing it edits what was found, even when two layers share a path.
   */
  lemma LayerForFoundEntry(l: Layers, key: string, name: string)
    requires Coherent(l)
    requires GetJsonEntrySource(l, key, name).Found?
    ensures var src := GetJsonEntrySource(l, key, name);
      SectionEntry(LayerValue(l, LayerFor(l, src.path)), key, name) == Some(src.entry)
  {
  }

  /** The backup copy's path: the file name with `.openchamber.backup` appended. */
  function BackupPath(p: Path): Option<Path> {
    if p == [] || p[|p| - 1] == ".." then None
    else Some(p[..|p| - 1] + [p[|p| - 1] + ".openchamber.backup"])
  }

  /**
   * `write_config_at`: an existing file is first copied to its backup path;
   * then the parent directories are created and the document written.
   */
  function WriteConfigAt(fs: FS, v: Value, p: Path): (r: Result<FS, Error>)
    ensures r.Ok? ==> p in r.value.files && r.value.files[p] == Doc(v)
    ensures r.Ok? && p in fs.files ==>
      BackupPath(p).Some? && BackupPath(p).value in r.value.files && r.value.files[BackupPath(p).value] == fs.files[p]
    ensures r.Ok? ==> forall q :: q in fs.files && q != p && Some(q) != BackupPath(p) ==>
      q in r.value.files && r.value.files[q] == fs.files[q]
  {
    var fs1 :-
      if !Exists(fs, p) then Ok(fs)
      else if BackupPath(p).None? || p !in fs.files then Err(IoError)
      else WriteFile(fs, BackupPath(p).value, fs.files[p]);
    assert BackupPath(p).Some? ==> BackupPath(p).value != p;
    var fs2 :- if p == [] then Ok(fs1) else CreateDirAll(fs1, p[..|p| - 1]);
    WriteFile(fs2, p, Doc(v))
  }

  /** What was written reads back as the same document. */
  lemma ReadAfterWriteConfig(fs: FS, v: Value, p: Path)
    requires WriteConfigAt(fs, v, p).Ok?
    ensures ReadConfigFile(WriteConfigAt(fs, v, p).value, p) == Ok(v)
  {
  }

  /** The document with `entry` stored under `key`/`name`, making the document and the section objects first. */
  function SetEntry(doc: Value, key: string, name: string, entry: Value): (r: Value)
    ensures r.Object? && key in r.fields && r.fields[key].Object?
    ensures SectionEntry(r, key, name) == Some(entry)
    ensures forall k :: k in FieldsOrEmpty(doc) && k != key ==> k in r.fields && r.fields[k] == doc.fields[k]
    ensures forall n :: (doc.Object? && key in doc.fields && doc.fields[key].Object? && n in doc.fields[key].fields && n != name) ==>
      n in r.fields[key].fields && r.fields[key].fields[n] == doc.fields[key].fields[n]
  {
    var fields := FieldsOrEmpty(doc);
    var section := if key in fields then FieldsOrEmpty(fields[key]) else map[];
    var r := Object(fields[key := Object(section[name := entry])]);
    SectionEntryUnfold(r, key, name);
    r
  }

  /**
   * The document with `name` removed from its `key` section, when that
   * section is an object holding it; no change (`None`) otherwise.
   */
  function RemoveEntry(doc: Value, key: string, name: string): (r: Option<Value>)
    ensures r.Some? <==> SectionEntry(doc, key, name).Some?
    ensures r.Some? ==> doc.Object? && key in doc.fields && doc.fields[key].Object? && name in doc.fields[key].fields
    ensures r.Some? ==> SectionEntry(r.value, key, name).None? && r.value.Object? && r.value.fields.Keys == doc.fields.Keys
    ensures r.Some? ==> r.value.fields[key].Object?
    ensures r.Some? ==> forall k :: k in doc.fields && k != key ==> r.value.fields[k] == doc.fields[k]
    ensures r.Some? ==> forall n :: n in doc.fields[key].fields && n != name ==>
      n in r.value.fields[key].fields && r.value.fields[key].fields[n] == doc.fields[key].fields[n]
  {
    SectionEntryUnfold(doc, key, name);
    if doc.Object? && key in doc.fields && doc.fields[key].Object? && name in doc.fields[key].fields then
      var r := Object(doc.fields[key := Object(doc.fields[key].fields - {name})]);
      SectionEntryUnfold(r, key, name);
      Some(r)
    else None
  }

  /** Removing an entry just stored in an existing section gives back the original document. */
  lemma RemoveUndoesSet(doc: Value, key: string, name: string, entry: Value)
    requires doc.Object? && key in doc.fields && doc.fields[key].Object? && name !in doc.fields[key].fields
    ensures RemoveEntry(SetEntry(doc, key, name, entry), key, name) == Some(doc)
  {
    var set' := SetEntry(doc, key, name, entry);
    var r := RemoveEntry(set', key, name).value;
    assert r.fields[key].fields == doc.fields[key].fields;
    assert r.fields == doc.fields;
  }
}
