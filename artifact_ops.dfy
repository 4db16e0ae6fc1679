/**
 * The operations on agents and commands (opencode_config.rs): update,
 * create and delete, over the file system and the JSON layers.
 */
module ArtifactOps {
  import opened Wrappers
  import opened Text
  import opened Json
  import opened FileSystem
  import opened Markdown
  import opened ConfigPaths
  import opened ConfigLayers
  import opened Artifacts

  /** What `update_agent` / `update_command` determine before placing any field. */
  datatype UpdatePlan = UpdatePlan(
    scope: Scope, mdExists: bool, layers: Layers, entry0: map<string, Value>,
    jsonTarget: Path, builtin: bool, targetPath: Path, md0: Option<MdData>)

  /**
   * The definition file and its scope, the layers, the JSON entry found (its
   * fields, or none when it is not an object), the JSON file to write, and
   * whether this is the first override of a built-in entry (neither a
   * definition file nor JSON fields), which is then created at user level.
   */
  function PlanUpdate(fs: FS, env: Env, wd: Option<Path>, kind: Kind, name: string): (r: Result<UpdatePlan, Error>)
    ensures r.Ok? ==> ReadConfigLayers(fs, env, wd) == Ok(r.value.layers)
    ensures r.Ok? ==> (r.value.mdExists <==> MdScope(fs, env, wd, kind, name).Some?)
    ensures r.Ok? ==> r.value.targetPath == (if r.value.mdExists then MdScope(fs, env, wd, kind, name).value.1 else UserMdPath(fs, env, kind, name))
    ensures r.Ok? ==> (r.value.builtin <==> !r.value.mdExists && r.value.entry0 == map[])
    ensures r.Ok? ==> (r.value.md0.Some? <==> r.value.mdExists || r.value.builtin)
    ensures r.Ok? && r.value.mdExists ==> ReadMd(fs, r.value.targetPath).Ok? && r.value.md0 == Some(ReadMd(fs, r.value.targetPath).value)
    ensures r.Ok? && !r.value.mdExists ==> r.value.md0 == (if r.value.builtin then Some(EmptyMd) else None)
    ensures r.Ok? ==> match GetJsonEntrySource(r.value.layers, kind.SectionKey(), name)
      case Found(path, entry) => r.value.jsonTarget == path && r.value.entry0 == FieldsOrEmpty(entry)
      case Absent => r.value.jsonTarget == GetJsonWriteTarget(r.value.layers, Some(Project)) && r.value.entry0 == map[]
    ensures r.Err? ==> ReadConfigLayers(fs, env, wd).Err? || (MdScope(fs, env, wd, kind, name).Some? && ReadMd(fs, MdScope(fs, env, wd, kind, name).value.1).Err?)
  {
    var (scope, mdPath) := MdWritePath(fs, env, wd, kind, name, None);
    var mdExists := Exists(fs, mdPath);
    var layers :- ReadConfigLayers(fs, env, wd);
    var source := GetJsonEntrySource(layers, kind.SectionKey(), name);
    var entry0 := if source.Found? then FieldsOrEmpty(source.entry) else map[];
    var preferred := if wd.Some? then Some(Project) else Some(User);
    WriteTargetIgnoresPreference(layers, preferred, Some(Project));
    var jsonTarget := if source.Found? then source.path else GetJsonWriteTarget(layers, preferred);
    var builtin := !mdExists && entry0 == map[];
    var targetPath := if !mdExists && builtin then UserMdPath(fs, env, kind, name) else mdPath;
    var md0 :-
      if mdExists then
        var data :- ReadMd(fs, mdPath);
        Ok(Some(data))
      else if builtin then Ok(Some(EmptyMd))
      else Ok(None);
    Ok(UpdatePlan(scope, mdExists, layers, entry0, jsonTarget, builtin, targetPath, md0))
  }

  function CtxOf(plan: UpdatePlan, env: Env, kind: Kind): (ctx: PlaceCtx)
    ensures ctx.md0 == plan.md0 && ctx.entry0 == plan.entry0 && ctx.mdExists == plan.mdExists
    ensures ValidCtx(ctx) <==> (plan.md0.Some? <==> plan.mdExists || plan.builtin)
  {
    PlaceCtx(env, kind.ContentField(), plan.mdExists, plan.builtin, plan.entry0, plan.md0)
  }

  /** The files a configuration write may touch: the file and its backup. */
  function ConfigWrites(p: Path): set<Path> {
    {p} + (if BackupPath(p).Some? then {BackupPath(p).value} else {})
  }

  /** The files an update may write: the prompt file, the definition file, the JSON file and its backup. */
  function UpdateWrites(plan: UpdatePlan, placed: Placement): set<Path> {
    (if placed.contentFile.Some? then {placed.contentFile.value.0} else {}) +
    {plan.targetPath} + ConfigWrites(plan.jsonTarget)
  }

  /** Every file outside `written` is as it was. */
  predicate SameOutside(fs0: FS, fs: FS, written: set<Path>) {
    forall q :: q in fs0.files && q !in written ==> q in fs.files && fs.files[q] == fs0.files[q]
  }

  lemma SameOutsideTrans(a: FS, b: FS, c: FS, s: set<Path>, t: set<Path>)
    requires SameOutside(a, b, s) && SameOutside(b, c, t)
    ensures SameOutside(a, c, s + t)
  {
  }

  /** Placing fields only ever marks the definition file modified when there is Markdown data. */
  lemma ModifiedHasMd(ctx: PlaceCtx, updates: Updates, p: Placement)
    requires ValidCtx(ctx) && PlacementSpec(ctx, updates, p) && p.mdModified
    ensures p.md.Some?
  {
    var f :| f in updates && TouchesMd(ctx, f, updates[f]);
  }

  /** The JSON entry written into the layer document its target path was read from. */
  method WriteJsonEntry(fs0: FS, kind: Kind, name: string, plan: UpdatePlan, entry: map<string, Value>)
    returns (fs: FS, err: Option<Error>)
    ensures err.None? ==>
      && plan.jsonTarget in fs.files
      && fs.files[plan.jsonTarget] == Doc(SetEntry(LayerValue(plan.layers, LayerFor(plan.layers, plan.jsonTarget)), kind.SectionKey(), name, Object(entry)))
    ensures err.None? ==> SameOutside(fs0, fs, ConfigWrites(plan.jsonTarget))
  {
    fs, err := fs0, None;
    var doc := SetEntry(LayerValue(plan.layers, LayerFor(plan.layers, plan.jsonTarget)), kind.SectionKey(), name, Object(entry));
    var written := WriteConfigAt(fs, doc, plan.jsonTarget);
    if written.Err? {
      err := Some(written.error);
      return;
    }
    fs := written.value;
  }

  /** The referenced prompt file, when the content field was placed there. */
  method WritePromptStep(fs0: FS, placed: Placement) returns (fs: FS, err: Option<Error>)
    ensures err.None? && placed.contentFile.Some? ==>
      placed.contentFile.value.0 in fs.files && fs.files[placed.contentFile.value.0] == Plain(placed.contentFile.value.1)
    ensures err.None? ==> SameOutside(fs0, fs, if placed.contentFile.Some? then {placed.contentFile.value.0} else {})
    ensures err.None? && placed.contentFile.None? ==> fs == fs0
  {
    fs, err := fs0, None;
    if placed.contentFile.Some? {
      var written := WritePromptFile(fs, placed.contentFile.value.0, placed.contentFile.value.1);
      if written.Err? {
        err := Some(written.error);
        return;
      }
      fs := written.value;
    }
  }

  /** The definition file, when the placement changed it. */
  method WriteDefinitionStep(fs0: FS, path: Path, placed: Placement) returns (fs: FS, err: Option<Error>)
    requires placed.mdModified ==> placed.md.Some?
    ensures err.None? && placed.mdModified ==> path in fs.files && fs.files[path] == Md(WithoutNulls(placed.md.value.frontmatter), placed.md.value.body)
    ensures err.None? ==> SameOutside(fs0, fs, {path})
    ensures err.None? && !placed.mdModified ==> fs == fs0
  {
    fs, err := fs0, None;
    if placed.mdModified {
      var written := WriteMd(fs, path, placed.md.value.frontmatter, placed.md.value.body);
      if written.Err? {
        err := Some(written.error);
        return;
      }
      fs := written.value;
    }
  }

  /**
   * The writes that end `update_agent` / `update_command`, in the source's
   * order: the referenced prompt file, the definition file if it changed, and
   * the JSON entry if it changed, unless the entry lives only in its
   * definition file.
   */
  method WriteUpdate(fs0: FS, kind: Kind, name: string, plan: UpdatePlan, placed: Placement)
    returns (fs: FS, err: Option<Error>, jsonWritten: bool)
    requires placed.mdModified ==> placed.md.Some?
    ensures jsonWritten <==> placed.jsonModified && !(plan.mdExists && plan.entry0 == map[])
    ensures err.None? && jsonWritten ==>
      && plan.jsonTarget in fs.files
      && fs.files[plan.jsonTarget] == Doc(SetEntry(LayerValue(plan.layers, LayerFor(plan.layers, plan.jsonTarget)), kind.SectionKey(), name, Object(placed.entry)))
    ensures err.None? && placed.mdModified && !(jsonWritten && plan.targetPath in ConfigWrites(plan.jsonTarget)) ==>
      plan.targetPath in fs.files && fs.files[plan.targetPath] == Md(WithoutNulls(placed.md.value.frontmatter), placed.md.value.body)
    ensures err.None? ==> SameOutside(fs0, fs, UpdateWrites(plan, placed))
    ensures err.None? && placed.contentFile.None? && !placed.mdModified && !jsonWritten ==> fs == fs0
  {
    jsonWritten := placed.jsonModified && !(plan.mdExists && plan.entry0 == map[]);
    fs, err := WritePromptStep(fs0, placed);
    if err.Some? {
      return;
    }
    ghost var afterPrompt := fs;
    fs, err := WriteDefinitionStep(fs, plan.targetPath, placed);
    if err.Some? {
      return;
    }
    ghost var afterMd := fs;
    SameOutsideTrans(fs0, afterPrompt, afterMd, if placed.contentFile.Some? then {placed.contentFile.value.0} else {}, {plan.targetPath});
    if jsonWritten {
      fs, err := WriteJsonEntry(fs, kind, name, plan, placed.entry);
      if err.Some? {
        return;
      }
      SameOutsideTrans(fs0, afterMd, fs, (if placed.contentFile.Some? then {placed.contentFile.value.0} else {}) + {plan.targetPath}, ConfigWrites(plan.jsonTarget));
    }
    assert (if placed.contentFile.Some? then {placed.contentFile.value.0} else {}) + {plan.targetPath} + ConfigWrites(plan.jsonTarget) == UpdateWrites(plan, placed);
  }

  /**
   * `update_agent` / `update_command`. Returns, besides the new file system,
   * the plan and the placement (which report the scope and whether the
   * definition file was written) and whether the JSON file was written. A
   * failure after a write leaves that write in place, as the source does.
   */
  method UpdateEntry(fs0: FS, env: Env, wd: Option<Path>, kind: Kind, name: string, updates: Updates)
    returns (fs: FS, err: Option<Error>, plan: UpdatePlan, placed: Placement, jsonWritten: bool)
    ensures err.None? ==> EnsureDirs(fs0, env).Ok? && PlanUpdate(EnsureDirs(fs0, env).value, env, wd, kind, name) == Ok(plan)
    ensures err.None? ==> PlacementSpec(CtxOf(plan, env, kind), updates, placed)
    ensures err.None? ==> (jsonWritten <==> placed.jsonModified && !(plan.mdExists && plan.entry0 == map[]))
    ensures err.None? && jsonWritten ==>
      && plan.jsonTarget in fs.files
      && fs.files[plan.jsonTarget] == Doc(SetEntry(LayerValue(plan.layers, LayerFor(plan.layers, plan.jsonTarget)), kind.SectionKey(), name, Object(placed.entry)))
    ensures err.None? && placed.mdModified ==> placed.md.Some?
    ensures err.None? && placed.mdModified && !(jsonWritten && plan.targetPath in ConfigWrites(plan.jsonTarget)) ==>
      plan.targetPath in fs.files && fs.files[plan.targetPath] == Md(WithoutNulls(placed.md.value.frontmatter), placed.md.value.body)
    ensures err.None? ==> SameOutside(fs0, fs, UpdateWrites(plan, placed))
    ensures err.None? && placed.contentFile.None? && !placed.mdModified && !jsonWritten ==> fs.files == fs0.files
  {
    fs, err, jsonWritten := fs0, None, false;
    placed := Placement(map[], None, false, false, None);
    plan := UpdatePlan(User, false, Layers(EmptyObject, EmptyObject, EmptyObject, LayerPaths([], None, None)), map[], [], false, [], None);
    var ensured := EnsureDirs(fs0, env);
    if ensured.Err? {
      err := Some(ensured.error);
      return;
    }
    fs := ensured.value;
    var planned := PlanUpdate(fs, env, wd, kind, name);
    if planned.Err? {
      err := Some(planned.error);
      return;
    }
    plan := planned.value;
    var ctx := CtxOf(plan, env, kind);
    var e;
    placed, e := PlaceFields(ctx, updates);
    if e.Some? {
      err := e;
      return;
    }
    if placed.mdModified {
      ModifiedHasMd(ctx, updates, placed);
    }
    ghost var ensuredFs := fs;
    fs, err, jsonWritten := WriteUpdate(fs, kind, name, plan, placed);
    assert SameOutside(fs0, ensuredFs, {});
    if err.None? {
      SameOutsideTrans(fs0, ensuredFs, fs, {}, UpdateWrites(plan, placed));
    }
  }

  // ---- create ----

  /** The front matter of a new definition file: the given fields minus the content field and `scope`. */
  function NewFrontmatter(config: map<string, Value>, kind: Kind): (r: map<string, Value>)
    ensures forall k :: k in r <==> k in config && k != kind.ContentField() && k != "scope"
    ensures forall k :: k in r ==> r[k] == config[k]
  {
    config - {kind.ContentField(), "scope"}
  }

  /** The body of a new definition file: the content field when it is a string, else empty. */
  function NewBody(config: map<string, Value>, kind: Kind): string {
    if kind.ContentField() in config then StrOrEmpty(config[kind.ContentField()]) else ""
  }

  /** Some JSON layer already defines the entry. */
  predicate InJson(fs: FS, env: Env, wd: Option<Path>, kind: Kind, name: string) {
    ReadConfigLayers(fs, env, wd).Ok? && GetJsonEntrySource(ReadConfigLayers(fs, env, wd).value, kind.SectionKey(), name).Found?
  }

  /**
   * `create_agent` / `create_command`: refused when a definition file or a
   * JSON entry already exists; otherwise a definition file is written at
   * project level when that scope is requested and a working directory is
   * known (both project directories are created first), else at user level.
   */
  method CreateEntry(fs0: FS, env: Env, wd: Option<Path>, kind: Kind, name: string, config: map<string, Value>, scope: Option<Scope>)
    returns (fs: FS, err: Option<Error>, target: Path)
    ensures EnsureDirs(fs0, env).Ok? && MdScope(EnsureDirs(fs0, env).value, env, wd, kind, name).Some? ==> err == Some(AlreadyExists)
    ensures EnsureDirs(fs0, env).Ok? && InJson(EnsureDirs(fs0, env).value, env, wd, kind, name) ==> err == Some(AlreadyExists)
    ensures err.None? ==>
      && EnsureDirs(fs0, env).Ok?
      && MdScope(EnsureDirs(fs0, env).value, env, wd, kind, name).None?
      && ReadConfigLayers(EnsureDirs(fs0, env).value, env, wd).Ok?
      && !InJson(EnsureDirs(fs0, env).value, env, wd, kind, name)
    ensures err.None? && !(scope == Some(Project) && wd.Some?) ==> target == UserMdPath(EnsureDirs(fs0, env).value, env, kind, name)
    ensures err.None? && scope == Some(Project) && wd.Some? ==>
      target == JoinStr(wd.value + [".opencode", kind.PluralDir()], name + ".md") || target == JoinStr(wd.value + [".opencode", kind.LegacyDir()], name + ".md")
    ensures err.None? ==> target in fs.files && fs.files[target] == Md(WithoutNulls(NewFrontmatter(config, kind)), NewBody(config, kind))
    ensures err.None? ==> SameOutside(fs0, fs, {target})
  {
    fs, err, target := fs0, None, [];
    var ensured := EnsureDirs(fs0, env);
    if ensured.Err? {
      err := Some(ensured.error);
      return;
    }
    fs := ensured.value;
    if wd.Some? && Exists(fs, ProjectMdPath(fs, wd.value, kind, name)) {
      err := Some(AlreadyExists);
      return;
    }
    var userPath := UserMdPath(fs, env, kind, name);
    if Exists(fs, userPath) {
      err := Some(AlreadyExists);
      return;
    }
    var layers := ReadConfigLayers(fs, env, wd);
    if layers.Err? {
      err := Some(layers.error);
      return;
    }
    if GetJsonEntrySource(layers.value, kind.SectionKey(), name).Found? {
      err := Some(AlreadyExists);
      return;
    }
    if scope == Some(Project) && wd.Some? {
      var dirs := EnsureProjectDir(fs, wd.value, kind);
      if dirs.Err? {
        err := Some(dirs.error);
        return;
      }
      fs := dirs.value;
      target := ProjectMdPath(fs, wd.value, kind, name);
    } else {
      target := userPath;
    }
    var written := WriteMd(fs, target, NewFrontmatter(config, kind), NewBody(config, kind));
    if written.Err? {
      err := Some(written.error);
      return;
    }
    fs := written.value;
  }

  // ---- delete ----

  /**
   * The first two steps of `delete_agent` / `delete_command`: the project
   * definition file, then the user one, each removed if it exists; reports
   * whether anything was removed.
   */
  function RemoveDefinitionFiles(fs: FS, env: Env, wd: Option<Path>, kind: Kind, name: string): (r: Result<(FS, bool), Error>)
    ensures r.Ok? ==> (r.value.1 <==> MdScope(fs, env, wd, kind, name).Some?)
    ensures r.Ok? && MdScope(fs, env, wd, kind, name).Some? ==> MdScope(fs, env, wd, kind, name).value.1 !in r.value.0.files
    ensures r.Ok? ==> r.value.0.dirs == fs.dirs && r.value.0.files.Keys <= fs.files.Keys
    ensures r.Ok? ==> forall q :: q in r.value.0.files ==> r.value.0.files[q] == fs.files[q]
    ensures r.Ok? && !r.value.1 ==> r.value.0 == fs
    ensures r.Err? ==> r.error == IoError
  {
    var (fs1, inProject) :-
      if wd.Some? && Exists(fs, ProjectMdPath(fs, wd.value, kind, name)) then
        var removed :- RemoveFile(fs, ProjectMdPath(fs, wd.value, kind, name));
        Ok((removed, true))
      else Ok((fs, false));
    var userPath := UserMdPath(fs1, env, kind, name);
    if Exists(fs1, userPath) then
      var removed :- RemoveFile(fs1, userPath);
      Ok((removed, true))
    else Ok((fs1, inProject))
  }

  /**
   * Deleting an entry defined by both a plural and a legacy project file
   * removes only the plural one; the legacy file then becomes the entry's
   * definition.
   */
  lemma DeleteRevealsLegacyDefinition(fs: FS, env: Env, wd: Path, kind: Kind, name: string)
    requires JoinStr(wd + [".opencode", kind.PluralDir()], name + ".md") in fs.files
    requires JoinStr(wd + [".opencode", kind.LegacyDir()], name + ".md") in fs.files
    requires JoinStr(wd + [".opencode", kind.PluralDir()], name + ".md") != JoinStr(wd + [".opencode", kind.LegacyDir()], name + ".md")
    requires JoinStr(wd + [".opencode", kind.PluralDir()], name + ".md") !in fs.dirs
    requires RemoveDefinitionFiles(fs, env, Some(wd), kind, name).Ok?
    requires UserMdPath(fs, env, kind, name) !in fs.files
    ensures var after := RemoveDefinitionFiles(fs, env, Some(wd), kind, name).value.0;
      MdScope(after, env, Some(wd), kind, name) == Some((Project, JoinStr(wd + [".opencode", kind.LegacyDir()], name + ".md")))
  {
    var plural := JoinStr(wd + [".opencode", kind.PluralDir()], name + ".md");
    var legacy := JoinStr(wd + [".opencode", kind.LegacyDir()], name + ".md");
    assert ProjectMdPath(fs, wd, kind, name) == plural;
    var fs1 := RemoveFile(fs, plural).value;
    assert legacy in fs1.files;
    assert ProjectMdPath(fs1, wd, kind, name) == legacy;
  }

  /** The entry written by `delete_agent` to disable a built-in agent. */
  function DisabledEntry(): Value {
    Object(map["disable" := Bool(true)])
  }

  /** The entry removed from the layer document it was found in, and that document written back. */
  method RemoveJsonEntry(fs0: FS, layers: Layers, kind: Kind, name: string) returns (fs: FS, err: Option<Error>)
    requires Coherent(layers) && GetJsonEntrySource(layers, kind.SectionKey(), name).Found?
    ensures var path := GetJsonEntrySource(layers, kind.SectionKey(), name).path;
      err.None? ==> path in fs.files && fs.files[path].Doc? && SectionEntry(fs.files[path].value, kind.SectionKey(), name).None?
    ensures err.None? ==> SameOutside(fs0, fs, ConfigWrites(GetJsonEntrySource(layers, kind.SectionKey(), name).path))
  {
    fs, err := fs0, None;
    var source := GetJsonEntrySource(layers, kind.SectionKey(), name);
    LayerForFoundEntry(layers, kind.SectionKey(), name);
    var doc := RemoveEntry(LayerValue(layers, LayerFor(layers, source.path)), kind.SectionKey(), name);
    var written := WriteConfigAt(fs, doc.value, source.path);
    if written.Err? {
      err := Some(written.error);
      return;
    }
    fs := written.value;
  }

  /** A built-in agent disabled in the JSON write target. */
  method DisableAgent(fs0: FS, layers: Layers, name: string) returns (fs: FS, err: Option<Error>)
    ensures var target := GetJsonWriteTarget(layers, Some(Project));
      err.None? ==> target in fs.files && fs.files[target].Doc? && SectionEntry(fs.files[target].value, "agent", name) == Some(DisabledEntry())
    ensures err.None? ==> SameOutside(fs0, fs, ConfigWrites(GetJsonWriteTarget(layers, Some(Project))))
  {
    fs, err := fs0, None;
    var target := GetJsonWriteTarget(layers, Some(Project));
    var doc := SetEntry(LayerValue(layers, LayerFor(layers, target)), "agent", name, DisabledEntry());
    var written := WriteConfigAt(fs, doc, target);
    if written.Err? {
      err := Some(written.error);
      return;
    }
    fs := written.value;
  }

  /**
   * `delete_agent` / `delete_command`: removes the definition files, then the
   * entry from the highest-precedence JSON layer that has it. When nothing
   * was removed, a built-in agent is disabled in the JSON write target,
   * while a command is reported not found.
   */
  method DeleteEntry(fs0: FS, env: Env, wd: Option<Path>, kind: Kind, name: string) returns (fs: FS, err: Option<Error>)
    ensures err.None? ==>
      && RemoveDefinitionFiles(fs0, env, wd, kind, name).Ok?
      && ReadConfigLayers(RemoveDefinitionFiles(fs0, env, wd, kind, name).value.0, env, wd).Ok?
    ensures err.None? ==>
      var afterMd := RemoveDefinitionFiles(fs0, env, wd, kind, name).value.0;
      var source := GetJsonEntrySource(ReadConfigLayers(afterMd, env, wd).value, kind.SectionKey(), name);
      source.Found? ==>
        && source.path in fs.files && fs.files[source.path].Doc?
        && SectionEntry(fs.files[source.path].value, kind.SectionKey(), name).None?
        && SameOutside(afterMd, fs, ConfigWrites(source.path))
    ensures err.None? ==>
      var (afterMd, deleted) := RemoveDefinitionFiles(fs0, env, wd, kind, name).value;
      var layers := ReadConfigLayers(afterMd, env, wd).value;
      GetJsonEntrySource(layers, kind.SectionKey(), name).Absent? && deleted ==> fs == afterMd
    ensures err.None? ==>
      var (afterMd, deleted) := RemoveDefinitionFiles(fs0, env, wd, kind, name).value;
      var layers := ReadConfigLayers(afterMd, env, wd).value;
      var target := GetJsonWriteTarget(layers, Some(Project));
      GetJsonEntrySource(layers, kind.SectionKey(), name).Absent? && !deleted ==>
        && kind == Agent
        && target in fs.files && fs.files[target].Doc?
        && SectionEntry(fs.files[target].value, "agent", name) == Some(DisabledEntry())
        && SameOutside(afterMd, fs, ConfigWrites(target))
    ensures (kind == Command && RemoveDefinitionFiles(fs0, env, wd, kind, name) == Ok((fs0, false)) &&
      ReadConfigLayers(fs0, env, wd).Ok? && GetJsonEntrySource(ReadConfigLayers(fs0, env, wd).value, "command", name).Absent?) ==>
      err == Some(NotFound) && fs == fs0
  {
    fs, err := fs0, None;
    var removed := RemoveDefinitionFiles(fs0, env, wd, kind, name);
    if removed.Err? {
      err := Some(removed.error);
      return;
    }
    var deleted;
    fs, deleted := removed.value.0, removed.value.1;
    var layersRead := ReadConfigLayers(fs, env, wd);
    if layersRead.Err? {
      err := Some(layersRead.error);
      return;
    }
    var layers := layersRead.value;
    if GetJsonEntrySource(layers, kind.SectionKey(), name).Found? {
      fs, err := RemoveJsonEntry(fs, layers, kind, name);
    } else if !deleted {
      if kind == Agent {
        fs, err := DisableAgent(fs, layers, name);
      } else {
        err := Some(NotFound);
      }
    }
  }
}
