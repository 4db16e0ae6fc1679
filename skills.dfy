/**
 * Skills (opencode_config.rs): a skill is a directory holding `SKILL.md`
 * (front matter plus instructions) and any supporting files. It lives in the
 * project's `.opencode/skills` directory (legacy `.opencode/skill`), in the
 * project's Claude-compatible `.claude/skills` directory, or in the user's
 * `skills` directory (legacy `skill`). Skills have no JSON form.
 */
module Skills {
  import opened Wrappers
  import opened Text
  import opened Json
  import opened FileSystem
  import opened Markdown
  import opened ConfigPaths

  /** Which convention a skill directory follows. */
  datatype SkillSource = Opencode | Claude

  // ---- names ----

  predicate LowerAlnum(c: char) {
    'a' <= c <= 'z' || '0' <= c <= '9'
  }

  /**
   * The pattern `^[a-z0-9][a-z0-9-]*[a-z0-9]$|^[a-z0-9]$`, alternative by
   * alternative: two or more characters with a letter or digit at each end
   * and letters, digits or hyphens between, or one letter or digit.
   */
  predicate MatchesSkillPattern(s: string) {
    (|s| >= 2 && LowerAlnum(s[0]) && LowerAlnum(s[|s| - 1]) &&
      forall i :: 1 <= i < |s| - 1 ==> LowerAlnum(s[i]) || s[i] == '-') ||
    (|s| == 1 && LowerAlnum(s[0]))
  }

  /**
   * `validate_skill_name`: one to 64 characters, each a lower-case letter,
   * a digit or a hyphen, with no hyphen at either end.
   */
  function ValidateSkillName(name: string): (r: Result<(), Error>)
    ensures r.Ok? <==> MatchesSkillPattern(name) && |name| <= 64
    ensures r.Err? ==> r.error == InvalidName
  {
    if name != [] && |name| <= 64 && name[0] != '-' && name[|name| - 1] != '-' &&
       forall i :: 0 <= i < |name| ==> LowerAlnum(name[i]) || name[i] == '-'
    then Ok(())
    else Err(InvalidName)
  }

  /** A valid name is one plain path component, so it names a directory directly under its parent. */
  lemma ValidNameIsComponent(dir: Path, name: string)
    requires ValidateSkillName(name).Ok?
    ensures JoinStr(dir, name) == dir + [name]
  {
    assert '/' !in name by {
      forall i | 0 <= i < |name| ensures name[i] != '/' {
        assert LowerAlnum(name[i]) || name[i] == '-';
      }
    }
    assert name != "." by {
      assert LowerAlnum(name[0]);
    }
    JoinPlainName(dir, name);
  }

  // ---- locations ----

  function UserSkillDir(fs: FS, env: Env, name: string): Path {
    PreferPlural(fs, JoinStr(env.configDir + ["skills"], name), JoinStr(env.configDir + ["skill"], name))
  }

  function UserSkillPath(fs: FS, env: Env, name: string): Path {
    PreferPlural(fs, JoinStr(env.configDir + ["skills"], name) + ["SKILL.md"], JoinStr(env.configDir + ["skill"], name) + ["SKILL.md"])
  }

  function ProjectSkillDir(fs: FS, wd: Path, name: string): Path {
    PreferPlural(fs, JoinStr(wd + [".opencode", "skills"], name), JoinStr(wd + [".opencode", "skill"], name))
  }

  function ProjectSkillPath(fs: FS, wd: Path, name: string): Path {
    PreferPlural(fs, JoinStr(wd + [".opencode", "skills"], name) + ["SKILL.md"], JoinStr(wd + [".opencode", "skill"], name) + ["SKILL.md"])
  }

  function ClaudeSkillDir(wd: Path, name: string): Path {
    JoinStr(wd + [".claude", "skills"], name)
  }

  function ClaudeSkillPath(wd: Path, name: string): Path {
    ClaudeSkillDir(wd, name) + ["SKILL.md"]
  }

  /**
   * `get_skill_scope`: the existing `SKILL.md`, looked for in the project's
   * own directory, then the Claude-compatible one, then the user directory.
   */
  function GetSkillScope(fs: FS, env: Env, wd: Option<Path>, name: string): (r: Option<(Scope, Path, SkillSource)>)
    ensures r.Some? ==> Exists(fs, r.value.1)
    ensures wd.Some? && Exists(fs, ProjectSkillPath(fs, wd.value, name)) ==>
      r == Some((Project, ProjectSkillPath(fs, wd.value, name), Opencode))
    ensures wd.Some? && !Exists(fs, ProjectSkillPath(fs, wd.value, name)) && Exists(fs, ClaudeSkillPath(wd.value, name)) ==>
      r == Some((Project, ClaudeSkillPath(wd.value, name), Claude))
    ensures r.Some? && r.value.0 == User ==>
      r.value == (User, UserSkillPath(fs, env, name), Opencode) &&
      (wd.Some? ==> !Exists(fs, ProjectSkillPath(fs, wd.value, name)) && !Exists(fs, ClaudeSkillPath(wd.value, name)))
    ensures r.None? <==>
      (wd.None? || (!Exists(fs, ProjectSkillPath(fs, wd.value, name)) && !Exists(fs, ClaudeSkillPath(wd.value, name)))) &&
      !Exists(fs, UserSkillPath(fs, env, name))
    ensures r.Some? ==> |r.value.1| > 0 && r.value.1[|r.value.1| - 1] == "SKILL.md"
  {
    if wd.Some? && Exists(fs, ProjectSkillPath(fs, wd.value, name)) then Some((Project, ProjectSkillPath(fs, wd.value, name), Opencode))
    else if wd.Some? && Exists(fs, ClaudeSkillPath(wd.value, name)) then Some((Project, ClaudeSkillPath(wd.value, name), Claude))
    else if Exists(fs, UserSkillPath(fs, env, name)) then Some((User, UserSkillPath(fs, env, name), Opencode))
    else None
  }

  /** `ensure_skill_dirs`: the user `skills` and legacy `skill` directories. */
  function EnsureSkillDirs(fs: FS, env: Env): (r: Result<FS, Error>)
    ensures r.Ok? ==> r.value.files == fs.files && fs.dirs <= r.value.dirs
    ensures r.Ok? ==> env.configDir + ["skills"] in r.value.dirs && env.configDir + ["skill"] in r.value.dirs
  {
    var fs1 :- CreateDirAll(fs, env.configDir + ["skills"]);
    CreateDirAll(fs1, env.configDir + ["skill"])
  }

  /**
   * `ensure_project_skill_dir`: the project skill directory (chosen before
   * anything is created) and the legacy one are both created; the chosen one
   * is returned.
   */
  function EnsureProjectSkillDir(fs: FS, wd: Path, name: string): (r: Result<(FS, Path), Error>)
    ensures r.Ok? ==> r.value.1 == ProjectSkillDir(fs, wd, name)
    ensures r.Ok? ==> r.value.0.files == fs.files && fs.dirs <= r.value.0.dirs && r.value.1 in r.value.0.dirs
  {
    var dir := ProjectSkillDir(fs, wd, name);
    var fs1 :- CreateDirAll(fs, dir);
    var fs2 :- CreateDirAll(fs1, JoinStr(wd + [".opencode", "skill"], name));
    Ok((fs2, dir))
  }

  // ---- supporting files ----

  /** `write_skill_supporting_file`: the file below the skill directory, its parent directories created first. */
  function WriteSupportingFile(fs: FS, skillDir: Path, rel: string, content: string): (r: Result<FS, Error>)
    ensures r.Ok? ==> JoinStr(skillDir, rel) in r.value.files && r.value.files[JoinStr(skillDir, rel)] == Plain(content)
    ensures r.Ok? ==> forall q :: q in fs.files && q != JoinStr(skillDir, rel) ==> q in r.value.files && r.value.files[q] == fs.files[q]
  {
    WritePromptFile(fs, JoinStr(skillDir, rel), content)
  }

  /**
   * The empty-directory pruning after a supporting file is deleted: starting
   * at `from`, each empty directory is removed and its parent examined next,
   * stopping at the skill directory, at a non-empty or missing directory, or
   * above the root.
   */
  function Pruned(fs: FS, skillDir: Path, from: Option<Path>): (r: FS)
    decreases if from.Some? then |from.value| + 1 else 0
  {
    if from.None? || from.value == skillDir || !IsEmptyDir(fs, from.value) then fs
    else Pruned(RemoveEmptyDir(fs, from.value), skillDir, Parent(from.value))
  }

  /**
   * Pruning removes no file, and every directory it removes lies above the
   * starting point; when the starting point lies at or below the skill
   * directory, every directory removed lies strictly below the skill
   * directory, which itself survives.
   */
  lemma {:induction false} PrunedRemovesOnlyBetween(fs: FS, skillDir: Path, from: Path)
    ensures Pruned(fs, skillDir, Some(from)).files == fs.files
    ensures Pruned(fs, skillDir, Some(from)).dirs <= fs.dirs
    ensures forall q :: q in fs.dirs - Pruned(fs, skillDir, Some(from)).dirs ==> AtOrBelow(q, from)
    ensures AtOrBelow(skillDir, from) ==>
      forall q :: q in fs.dirs - Pruned(fs, skillDir, Some(from)).dirs ==> Below(skillDir, q)
    decreases |from|
  {
    if from == skillDir || !IsEmptyDir(fs, from) {
    } else {
      var fs1 := RemoveEmptyDir(fs, from);
      if from == [] {
        assert Pruned(fs, skillDir, Some(from)) == fs1;
      } else {
        var up := from[..|from| - 1];
        PrunedRemovesOnlyBetween(fs1, skillDir, up);
        var r := Pruned(fs, skillDir, Some(from));
        assert r == Pruned(fs1, skillDir, Some(up));
        forall q | q in fs.dirs - r.dirs ensures AtOrBelow(q, from) {
          if q != from {
            assert AtOrBelow(q, up);
            assert from[..|q|] == up[..|q|];
          }
        }
        if AtOrBelow(skillDir, from) {
          assert from[..|from|] == from;
          assert |skillDir| < |from|;
          assert up[..|skillDir|] == from[..|skillDir|];
        }
      }
    }
  }

  /**
   * When every directory between the skill directory and the starting point
   * exists, pruning leaves none of them empty: each one that survives still
   * holds something.
   */
  lemma {:induction false} PrunedLeavesNoEmptyParent(fs: FS, skillDir: Path, from: Path)
    requires AtOrBelow(skillDir, from)
    requires forall q :: Below(skillDir, q) && AtOrBelow(q, from) ==> q in fs.dirs
    ensures forall q :: Below(skillDir, q) && AtOrBelow(q, from) && q in Pruned(fs, skillDir, Some(from)).dirs ==>
      !IsEmptyDir(Pruned(fs, skillDir, Some(from)), q)
    decreases |from|
  {
    var r := Pruned(fs, skillDir, Some(from));
    if from == skillDir {
      forall q | Below(skillDir, q) && AtOrBelow(q, from) ensures false {
      }
    } else if !IsEmptyDir(fs, from) {
      forall q | Below(skillDir, q) && AtOrBelow(q, from) && q in r.dirs ensures !IsEmptyDir(r, q) {
        if q != from {
          assert from in fs.dirs && Below(q, from);
        }
      }
    } else {
      var fs1 := RemoveEmptyDir(fs, from);
      var up := from[..|from| - 1];
      assert Parent(from) == Some(up);
      assert r == Pruned(fs1, skillDir, Some(up));
      assert AtOrBelow(skillDir, up) by {
        assert up[..|skillDir|] == from[..|skillDir|];
      }
      PrunedRemovesOnlyBetween(fs1, skillDir, up);
      forall q | Below(skillDir, q) && AtOrBelow(q, up) ensures q in fs1.dirs {
        assert AtOrBelow(q, from) by { assert from[..|q|] == up[..|q|]; }
      }
      PrunedLeavesNoEmptyParent(fs1, skillDir, up);
      forall q | Below(skillDir, q) && AtOrBelow(q, from) && q in r.dirs ensures !IsEmptyDir(r, q) {
        if q != from {
          assert AtOrBelow(q, up) by { assert up[..|q|] == from[..|q|]; }
        }
      }
    }
  }

  /** The upward walk of `delete_skill_supporting_file`, with the source's exits. */
  method PruneEmptyParents(fs0: FS, skillDir: Path, file: Path) returns (fs: FS)
    ensures fs == Pruned(fs0, skillDir, Parent(file))
  {
    fs := fs0;
    var parent := Parent(file);
    while parent.Some?
      invariant Pruned(fs, skillDir, parent) == Pruned(fs0, skillDir, Parent(file))
      decreases if parent.Some? then |parent.value| + 1 else 0
    {
      var p := parent.value;
      if p == skillDir {
        break;
      }
      if p in fs.dirs && IsEmptyDir(fs, p) {
        fs := RemoveEmptyDir(fs, p);
        parent := Parent(p);
      } else {
        break;
      }
    }
  }

  /**
   * `delete_skill_supporting_file`: a missing path is no error and changes
   * nothing; an existing file is removed and the directories left empty
   * above it are pruned; an existing directory cannot be removed as a file.
   */
  method DeleteSupportingFile(fs0: FS, skillDir: Path, rel: string) returns (fs: FS, err: Option<Error>)
    ensures !Exists(fs0, JoinStr(skillDir, rel)) ==> err.None? && fs == fs0
    ensures Exists(fs0, JoinStr(skillDir, rel)) ==> (err.None? <==> JoinStr(skillDir, rel) in fs0.files)
    ensures err.None? && Exists(fs0, JoinStr(skillDir, rel)) ==>
      fs == Pruned(RemoveFile(fs0, JoinStr(skillDir, rel)).value, skillDir, Parent(JoinStr(skillDir, rel)))
    ensures err.None? ==> JoinStr(skillDir, rel) !in fs.files
    ensures err.None? ==> forall q :: q in fs0.files && q != JoinStr(skillDir, rel) ==> q in fs.files && fs.files[q] == fs0.files[q]
    ensures err.Some? ==> fs == fs0 && err.value == IoError
  {
    fs, err := fs0, None;
    var full := JoinStr(skillDir, rel);
    if !Exists(fs, full) {
      return;
    }
    var removed := RemoveFile(fs, full);
    if removed.Err? {
      err := Some(removed.error);
      return;
    }
    fs := PruneEmptyParents(removed.value, skillDir, full);
    if full != [] {
      PrunedRemovesOnlyBetween(removed.value, skillDir, full[..|full| - 1]);
    }
  }

  /**
   * Deleting `scripts/run.sh`, the only thing in the skill's `scripts`
   * directory, removes that directory too and keeps the skill directory.
   */
  lemma DeleteOnlyScriptPrunesItsDirectory(fs: FS, skillDir: Path)
    requires skillDir + ["scripts", "run.sh"] in fs.files && skillDir + ["scripts"] in fs.dirs && skillDir in fs.dirs
    requires forall q :: q in fs.files && Below(skillDir + ["scripts"], q) ==> q == skillDir + ["scripts", "run.sh"]
    requires forall q :: q in fs.dirs ==> !Below(skillDir + ["scripts"], q)
    ensures var r := Pruned(RemoveFile(fs, skillDir + ["scripts", "run.sh"]).value, skillDir, Some(skillDir + ["scripts"]));
      skillDir + ["scripts"] !in r.dirs && skillDir in r.dirs && skillDir + ["scripts", "run.sh"] !in r.files
  {
    var full := skillDir + ["scripts", "run.sh"];
    var dir := skillDir + ["scripts"];
    var fs1 := RemoveFile(fs, full).value;
    assert IsEmptyDir(fs1, dir);
    var fs2 := RemoveEmptyDir(fs1, dir);
    assert dir[..|dir| - 1] == skillDir;
    assert Pruned(fs1, skillDir, Some(dir)) == Pruned(fs2, skillDir, Some(skillDir)) == fs2;
  }

  /** One entry of a `supportingFiles` list, as the source reads it. */
  datatype FileOp = DeleteOp(path: string) | WriteOp(path: string, content: string) | Skip

  /**
   * `update_skill` looks at the `delete` flag first; `create_skill` never
   * looks at it and writes every entry with a string path and content.
   */
  function FileOpOf(file: Value, allowDelete: bool): FileOp {
    if allowDelete && Get(file, "delete") == Some(Bool(true)) then
      (if GetStr(file, "path").Some? then DeleteOp(GetStr(file, "path").value) else Skip)
    else if GetStr(file, "path").Some? && GetStr(file, "content").Some? then
      WriteOp(GetStr(file, "path").value, GetStr(file, "content").value)
    else Skip
  }

  /**
   * At creation an entry flagged for deletion that carries a path and a
   * content is written like any other; on update it is a deletion.
   */
  lemma DeleteFlagOnlyCountsOnUpdate(file: Value)
    requires Get(file, "delete") == Some(Bool(true))
    requires GetStr(file, "path").Some? && GetStr(file, "content").Some?
    ensures FileOpOf(file, false) == WriteOp(GetStr(file, "path").value, GetStr(file, "content").value)
    ensures FileOpOf(file, true) == DeleteOp(GetStr(file, "path").value)
  {
  }

  /**
   * The file system after the entries of a `supportingFiles` list are
   * applied in order, or the first failure with the file system it left.
   */
  function ApplyFileOps(fs: FS, skillDir: Path, files: seq<Value>, allowDelete: bool): (r: (FS, Option<Error>))
    decreases |files|
  {
    if files == [] then (fs, None)
    else
      match FileOpOf(files[0], allowDelete)
      case DeleteOp(rel) =>
        if !Exists(fs, JoinStr(skillDir, rel)) then ApplyFileOps(fs, skillDir, files[1..], allowDelete)
        else if JoinStr(skillDir, rel) !in fs.files then (fs, Some(IoError))
        else ApplyFileOps(Pruned(RemoveFile(fs, JoinStr(skillDir, rel)).value, skillDir, Parent(JoinStr(skillDir, rel))), skillDir, files[1..], allowDelete)
      case WriteOp(rel, content) =>
        (match WriteSupportingFile(fs, skillDir, rel, content)
         case Err(e) => (fs, Some(e))
         case Ok(fs1) => ApplyFileOps(fs1, skillDir, files[1..], allowDelete))
      case Skip => ApplyFileOps(fs, skillDir, files[1..], allowDelete)
  }

  /** The file a write entry targets. */
  function WriteTarget(skillDir: Path, file: Value): Option<Path> {
    match FileOpOf(file, false)
    case WriteOp(rel, _) => Some(JoinStr(skillDir, rel))
    case _ => None
  }

  /** One entry applied when deletions are ignored: a write, or nothing. */
  function WriteStep(fs: FS, skillDir: Path, file: Value): Result<FS, Error> {
    match FileOpOf(file, false)
    case WriteOp(rel, content) => WriteSupportingFile(fs, skillDir, rel, content)
    case _ => Ok(fs)
  }

  lemma ApplyWritesUnfold(fs: FS, skillDir: Path, files: seq<Value>)
    requires files != []
    ensures ApplyFileOps(fs, skillDir, files, false) ==
      if WriteStep(fs, skillDir, files[0]).Err? then (fs, Some(WriteStep(fs, skillDir, files[0]).error))
      else ApplyFileOps(WriteStep(fs, skillDir, files[0]).value, skillDir, files[1..], false)
  {
  }

  /**
   * Applying a list of write entries (the `delete` flag ignored, as `create_skill`
   * does) leaves the file of an entry that no later entry overwrites with
   * that entry's content.
   */
  lemma {:induction false} WritesLastWins(fs: FS, skillDir: Path, files: seq<Value>, i: nat)
    requires ApplyFileOps(fs, skillDir, files, false).1.None?
    requires i < |files| && FileOpOf(files[i], false).WriteOp?
    requires forall j :: i < j < |files| ==> WriteTarget(skillDir, files[j]) != WriteTarget(skillDir, files[i])
    ensures var r := ApplyFileOps(fs, skillDir, files, false).0;
      JoinStr(skillDir, FileOpOf(files[i], false).path) in r.files && r.files[JoinStr(skillDir, FileOpOf(files[i], false).path)] == Plain(FileOpOf(files[i], false).content)
    decreases |files|
  {
    ApplyWritesUnfold(fs, skillDir, files);
    var fs1 := WriteStep(fs, skillDir, files[0]).value;
    var tail := files[1..];
    if i == 0 {
      forall j | 0 <= j < |tail| ensures WriteTarget(skillDir, tail[j]) != Some(JoinStr(skillDir, FileOpOf(files[0], false).path)) {
        assert tail[j] == files[j + 1];
      }
      WritesKeepOthers(fs1, skillDir, tail, JoinStr(skillDir, FileOpOf(files[0], false).path));
    } else {
      assert tail[i - 1] == files[i];
      forall j | i - 1 < j < |tail| ensures WriteTarget(skillDir, tail[j]) != WriteTarget(skillDir, tail[i - 1]) {
        assert tail[j] == files[j + 1];
      }
      WritesLastWins(fs1, skillDir, tail, i - 1);
    }
  }

  /** A file no write entry targets keeps its content. */
  lemma {:induction false} WritesKeepOthers(fs: FS, skillDir: Path, files: seq<Value>, p: Path)
    requires ApplyFileOps(fs, skillDir, files, false).1.None?
    requires forall j :: 0 <= j < |files| ==> WriteTarget(skillDir, files[j]) != Some(p)
    ensures p in fs.files ==> var r := ApplyFileOps(fs, skillDir, files, false).0; p in r.files && r.files[p] == fs.files[p]
    decreases |files|
  {
    if files != [] {
      ApplyWritesUnfold(fs, skillDir, files);
      var fs1 := WriteStep(fs, skillDir, files[0]).value;
      var tail := files[1..];
      forall j | 0 <= j < |tail| ensures WriteTarget(skillDir, tail[j]) != Some(p) {
        assert tail[j] == files[j + 1];
      }
      assert WriteTarget(skillDir, files[0]) != Some(p);
      WritesKeepOthers(fs1, skillDir, tail, p);
    }
  }

  /** The loop over a `supportingFiles` list, in order, stopping at the first failure. */
  method ProcessSupportingFiles(fs0: FS, skillDir: Path, files: seq<Value>, allowDelete: bool) returns (fs: FS, err: Option<Error>)
    ensures (fs, err) == ApplyFileOps(fs0, skillDir, files, allowDelete)
  {
    fs, err := fs0, None;
    var i := 0;
    while i < |files|
      invariant 0 <= i <= |files|
      invariant err.None?
      invariant ApplyFileOps(fs, skillDir, files[i..], allowDelete) == ApplyFileOps(fs0, skillDir, files, allowDelete)
    {
      assert files[i..][1..] == files[i + 1..];
      ghost var rest := ApplyFileOps(fs, skillDir, files[i..], allowDelete);
      match FileOpOf(files[i], allowDelete) {
        case DeleteOp(rel) =>
          fs, err := DeleteSupportingFile(fs, skillDir, rel);
          if err.Some? {
            assert rest == (fs, err);
            return;
          }
        case WriteOp(rel, content) =>
          var written := WriteSupportingFile(fs, skillDir, rel, content);
          if written.Err? {
            err := Some(written.error);
            assert rest == (fs, err);
            return;
          }
          fs := written.value;
        case Skip =>
      }
      i := i + 1;
    }
    assert files[i..] == [];
  }

  // ---- create ----

  /** The front matter of a new skill: the configuration minus `instructions`, `scope` and `supportingFiles`, named after the skill when it has no name. */
  function NewSkillFrontmatter(config: map<string, Value>, name: string): (r: map<string, Value>)
    ensures forall k :: k in r <==> (k in config && k != "instructions" && k != "scope" && k != "supportingFiles") || k == "name"
    ensures forall k :: k in r && k != "name" ==> r[k] == config[k]
    ensures r["name"] == if "name" in config then config["name"] else Str(name)
  {
    var fm := config - {"instructions", "scope", "supportingFiles"};
    if "name" in fm then fm else fm["name" := Str(name)]
  }

  /** The entries of the `supportingFiles` array, or none. */
  function SupportingFilesOf(config: map<string, Value>): seq<Value> {
    if "supportingFiles" in config && config["supportingFiles"].Array? then config["supportingFiles"].items else []
  }

  /**
   * The directory `create_skill` writes into: the project skill directory
   * (with its legacy twin) when the project scope is requested and a working
   * directory is known, else the user skill directory.
   */
  method PrepareSkillDir(fs0: FS, env: Env, wd: Option<Path>, name: string, scope: Option<Scope>)
    returns (fs: FS, err: Option<Error>, dir: Path)
    requires ValidateSkillName(name).Ok?
    ensures err.None? ==> fs.files == fs0.files && dir in fs.dirs
    ensures err.None? && scope == Some(Project) && wd.Some? ==>
      dir == wd.value + [".opencode", "skills", name] || dir == wd.value + [".opencode", "skill", name]
    ensures err.None? && !(scope == Some(Project) && wd.Some?) ==>
      dir == env.configDir + ["skills", name] || dir == env.configDir + ["skill", name]
  {
    fs, err, dir := fs0, None, [];
    if scope == Some(Project) && wd.Some? {
      var made := EnsureProjectSkillDir(fs, wd.value, name);
      if made.Err? {
        err := Some(made.error);
        return;
      }
      fs, dir := made.value.0, made.value.1;
      ValidNameIsComponent(wd.value + [".opencode", "skills"], name);
      ValidNameIsComponent(wd.value + [".opencode", "skill"], name);
    } else {
      dir := UserSkillDir(fs, env, name);
      ValidNameIsComponent(env.configDir + ["skills"], name);
      ValidNameIsComponent(env.configDir + ["skill"], name);
      var made := CreateDirAll(fs, dir);
      if made.Err? {
        err := Some(made.error);
        return;
      }
      fs := made.value;
    }
  }

  /**
   * `create_skill`: the name is validated and must not exist anywhere; the
   * directory is prepared; a description is required; then `SKILL.md` and
   * the supporting files are written, in that order. A failure leaves the
   * directories created before it.
   */
  method CreateSkill(fs0: FS, env: Env, wd: Option<Path>, name: string, config: map<string, Value>, scope: Option<Scope>)
    returns (fs: FS, err: Option<Error>, dir: Path)
    ensures ValidateSkillName(name).Err? ==> err.Some?
    ensures EnsureSkillDirs(fs0, env).Ok? && ValidateSkillName(name).Ok? && GetSkillScope(EnsureSkillDirs(fs0, env).value, env, wd, name).Some? ==>
      err == Some(AlreadyExists)
    ensures err.None? ==> ValidateSkillName(name).Ok? && "description" in config
    ensures err.None? ==> EnsureSkillDirs(fs0, env).Ok? && GetSkillScope(EnsureSkillDirs(fs0, env).value, env, wd, name).None?
    ensures err.None? && scope == Some(Project) && wd.Some? ==>
      dir == wd.value + [".opencode", "skills", name] || dir == wd.value + [".opencode", "skill", name]
    ensures err.None? && !(scope == Some(Project) && wd.Some?) ==>
      dir == env.configDir + ["skills", name] || dir == env.configDir + ["skill", name]
    ensures err.None? ==>
      exists mid: FS ::
        && mid.files == fs0.files[dir + ["SKILL.md"] := Md(WithoutNulls(NewSkillFrontmatter(config, name)), NewBody(config))]
        && (fs, None) == ApplyFileOps(mid, dir, SupportingFilesOf(config), false)
  {
    fs, err, dir := fs0, None, [];
    var ensured := EnsureSkillDirs(fs0, env);
    if ensured.Err? {
      err := Some(ensured.error);
      return;
    }
    fs := ensured.value;
    var valid := ValidateSkillName(name);
    if valid.Err? {
      err := Some(valid.error);
      return;
    }
    if GetSkillScope(fs, env, wd, name).Some? {
      err := Some(AlreadyExists);
      return;
    }
    fs, err, dir := PrepareSkillDir(fs, env, wd, name, scope);
    if err.Some? {
      return;
    }
    if "description" !in config {
      err := Some(MissingDescription);
      return;
    }
    var written := WriteMd(fs, dir + ["SKILL.md"], NewSkillFrontmatter(config, name), NewBody(config));
    if written.Err? {
      err := Some(written.error);
      return;
    }
    fs := written.value;
    ghost var mid := fs;
    fs, err := ProcessSupportingFiles(fs, dir, SupportingFilesOf(config), false);
    assert err.None? ==>
      mid.files == fs0.files[dir + ["SKILL.md"] := Md(WithoutNulls(NewSkillFrontmatter(config, name)), NewBody(config))] &&
      (fs, None) == ApplyFileOps(mid, dir, SupportingFilesOf(config), false);
  }

  /** The instructions of a new skill: the `instructions` string, or empty. */
  function NewBody(config: map<string, Value>): string {
    if "instructions" in config then StrOrEmpty(config["instructions"]) else ""
  }

  // ---- update ----

  /** The keys `update_skill` does not store in the front matter. */
  predicate SpecialKey(k: string) {
    k == "scope" || k == "instructions" || k == "supportingFiles"
  }

  /** The front matter after an update: every ordinary key set to its new value (a null one is dropped on writing). */
  function UpdatedFrontmatter(fm: map<string, Value>, updates: map<string, Value>): (r: map<string, Value>)
    ensures forall k :: k in r <==> k in fm || (k in updates && !SpecialKey(k))
    ensures forall k :: k in updates && !SpecialKey(k) ==> r[k] == updates[k]
    ensures forall k :: k in fm && (k !in updates || SpecialKey(k)) ==> r[k] == fm[k]
  {
    fm + map k | k in updates && !SpecialKey(k) :: updates[k]
  }

  /** The body after an update: the `instructions` string (empty if not a string) when given. */
  function UpdatedBody(body: string, updates: map<string, Value>): string {
    if "instructions" in updates then StrOrEmpty(updates["instructions"]) else body
  }

  /** Some update other than `scope` and `supportingFiles` asks for `SKILL.md` to be rewritten. */
  predicate RewritesSkillMd(updates: map<string, Value>) {
    exists k :: k in updates && k != "scope" && k != "supportingFiles"
  }

  /** The entries of an update's `supportingFiles` array, or none. */
  function FileOpsOf(updates: map<string, Value>): seq<Value> {
    if "supportingFiles" in updates && updates["supportingFiles"].Array? then updates["supportingFiles"].items else []
  }

  /** `fm` is the front matter `fm0` after the ordinary updates whose keys are in `done`. */
  ghost predicate FrontmatterAfter(fm0: map<string, Value>, updates: map<string, Value>, done: set<string>, fm: map<string, Value>) {
    && (forall k :: k in fm <==> k in fm0 || (k in updates && k in done && !SpecialKey(k)))
    && (forall k :: k in fm ==> fm[k] == if k in updates && k in done && !SpecialKey(k) then updates[k] else fm0[k])
  }

  lemma FrontmatterAfterAll(fm0: map<string, Value>, updates: map<string, Value>, fm: map<string, Value>)
    requires FrontmatterAfter(fm0, updates, updates.Keys, fm)
    ensures fm == UpdatedFrontmatter(fm0, updates)
  {
    assert fm.Keys == UpdatedFrontmatter(fm0, updates).Keys;
  }

  /** One more key of the update handled: an ordinary key sets its front-matter field, a special one leaves the front matter alone. */
  lemma FrontmatterStep(fm0: map<string, Value>, updates: map<string, Value>, done: set<string>, fm: map<string, Value>, f: string)
    requires FrontmatterAfter(fm0, updates, done, fm) && f in updates
    ensures SpecialKey(f) ==> FrontmatterAfter(fm0, updates, done + {f}, fm)
    ensures !SpecialKey(f) ==> FrontmatterAfter(fm0, updates, done + {f}, fm[f := updates[f]])
  {
  }

  /** The `supportingFiles` update, applied when its value is an array. */
  method ApplySupportingFilesUpdate(fs0: FS, mdDir: Path, v: Value) returns (fs: FS, err: Option<Error>)
    ensures (fs, err) == ApplyFileOps(fs0, mdDir, if v.Array? then v.items else [], true)
  {
    fs, err := fs0, None;
    if v.Array? {
      fs, err := ProcessSupportingFiles(fs, mdDir, v.items, true);
    }
  }

  /** The loop of `update_skill` over the update's keys, before `SKILL.md` is written. */
  method ApplyUpdates(fs0: FS, mdDir: Path, md0: MdData, updates: map<string, Value>)
    returns (fs: FS, fm: map<string, Value>, body: string, modified: bool, err: Option<Error>)
    ensures err.None? ==> ApplyFileOps(fs0, mdDir, FileOpsOf(updates), true) == (fs, None)
    ensures err.None? ==> fm == UpdatedFrontmatter(md0.frontmatter, updates)
    ensures err.None? ==> body == UpdatedBody(md0.body, updates)
    ensures err.None? ==> (modified <==> RewritesSkillMd(updates))
  {
    fs, fm, body, modified, err := fs0, md0.frontmatter, md0.body, false, None;
    ghost var after := ApplyFileOps(fs0, mdDir, FileOpsOf(updates), true);
    var todo := updates.Keys;
    ghost var done: set<string> := {};
    while todo != {}
      invariant todo <= updates.Keys && done == updates.Keys - todo
      invariant FrontmatterAfter(md0.frontmatter, updates, done, fm)
      invariant body == if "instructions" in done then StrOrEmpty(updates["instructions"]) else md0.body
      invariant modified <==> exists k :: k in done && k != "scope" && k != "supportingFiles"
      invariant fs == if "supportingFiles" in done then after.0 else fs0
      invariant "supportingFiles" in done ==> after.1.None?
      invariant err.None?
      decreases todo
    {
      var f :| f in todo;
      var v := updates[f];
      FrontmatterStep(md0.frontmatter, updates, done, fm, f);
      todo, done := todo - {f}, done + {f};
      if f == "scope" {
        continue;
      }
      if f == "instructions" {
        body := StrOrEmpty(v);
        modified := true;
        continue;
      }
      if f == "supportingFiles" {
        fs, err := ApplySupportingFilesUpdate(fs, mdDir, v);
        if err.Some? {
          return;
        }
        continue;
      }
      fm := fm[f := v];
      modified := true;
    }
    assert done == updates.Keys;
    FrontmatterAfterAll(md0.frontmatter, updates, fm);
    if "supportingFiles" !in updates {
      assert FileOpsOf(updates) == [];
    }
  }

  /**
   * `update_skill`: the skill must exist. Each update is handled by its key:
   * `scope` is ignored, `instructions` replaces the body, `supportingFiles`
   * writes and deletes files in the skill's directory at once, any other key
   * is set in the front matter. `SKILL.md` is rewritten at the end when
   * anything but `scope` and `supportingFiles` was given.
   */
  method UpdateSkill(fs0: FS, env: Env, wd: Option<Path>, name: string, updates: map<string, Value>)
    returns (fs: FS, err: Option<Error>)
    ensures GetSkillScope(fs0, env, wd, name).None? ==> err == Some(NotFound) && fs == fs0
    ensures err.None? ==> GetSkillScope(fs0, env, wd, name).Some?
    ensures err.None? ==>
      var mdPath := GetSkillScope(fs0, env, wd, name).value.1;
      var mdDir := mdPath[..|mdPath| - 1];
      var md0 := ReadMd(fs0, mdPath);
      var afterFiles := ApplyFileOps(fs0, mdDir, FileOpsOf(updates), true);
      && md0.Ok? && afterFiles.1.None?
      && (RewritesSkillMd(updates) ==>
            fs.files == afterFiles.0.files[mdPath := Md(WithoutNulls(UpdatedFrontmatter(md0.value.frontmatter, updates)), UpdatedBody(md0.value.body, updates))])
      && (!RewritesSkillMd(updates) ==> fs == afterFiles.0)
  {
    fs, err := fs0, None;
    var found := GetSkillScope(fs0, env, wd, name);
    if found.None? {
      err := Some(NotFound);
      return;
    }
    var mdPath := found.value.1;
    var mdDir := mdPath[..|mdPath| - 1];
    var read := ReadMd(fs, mdPath);
    if read.Err? {
      err := Some(read.error);
      return;
    }
    var md0 := read.value;
    var fm, body, modified;
    fs, fm, body, modified, err := ApplyUpdates(fs0, mdDir, md0, updates);
    if err.Some? {
      return;
    }
    if modified {
      var written := WriteMd(fs, mdPath, fm, body);
      if written.Err? {
        err := Some(written.error);
        return;
      }
      fs := written.value;
    }
  }

  // ---- delete ----

  /** `remove_dir_all` on `p` when it exists; reports whether it did. */
  function RemoveIfExists(fs: FS, p: Path): (r: Result<(FS, bool), Error>)
    ensures r.Ok? ==> (r.value.1 <==> Exists(fs, p)) && !Exists(r.value.0, p)
    ensures r.Ok? ==> r.value.0.files.Keys <= fs.files.Keys && r.value.0.dirs <= fs.dirs
    ensures r.Ok? ==> forall q :: q in r.value.0.files ==> r.value.0.files[q] == fs.files[q]
    ensures r.Ok? ==> forall q :: q in fs.files && !AtOrBelow(p, q) ==> q in r.value.0.files
    ensures r.Ok? && !r.value.1 ==> r.value.0 == fs
    ensures r.Err? ==> Exists(fs, p) && p !in fs.dirs
  {
    if !Exists(fs, p) then Ok((fs, false))
    else
      var removed :- RemoveDirAll(fs, p);
      assert AtOrBelow(p, p);
      Ok((removed, true))
  }

  /**
   * `delete_skill`: the project skill directory and the Claude-compatible
   * one (when a working directory is known), then the user skill directory
   * and the legacy user one, each removed when it exists. Unlike agents and
   * commands, every location found is removed; finding none is an error.
   */
  method DeleteSkill(fs0: FS, env: Env, wd: Option<Path>, name: string) returns (fs: FS, err: Option<Error>)
    ensures err == Some(NotFound) <==>
      (wd.None? || (!Exists(fs0, ProjectSkillDir(fs0, wd.value, name)) && !Exists(fs0, ClaudeSkillDir(wd.value, name)))) &&
      !Exists(fs0, JoinStr(env.configDir + ["skills"], name)) && !Exists(fs0, JoinStr(env.configDir + ["skill"], name))
    ensures err == Some(NotFound) ==> fs == fs0
    ensures err.None? ==>
      && !Exists(fs, JoinStr(env.configDir + ["skills"], name)) && !Exists(fs, JoinStr(env.configDir + ["skill"], name))
      && (wd.Some? ==> !Exists(fs, ProjectSkillDir(fs0, wd.value, name)) && !Exists(fs, ClaudeSkillDir(wd.value, name)))
    ensures err.None? ==> fs.files.Keys <= fs0.files.Keys && forall q :: q in fs.files ==> fs.files[q] == fs0.files[q]
    ensures err.None? ==> forall q :: q in fs0.files && q !in fs.files ==>
      AtOrBelow(JoinStr(env.configDir + ["skills"], name), q) || AtOrBelow(JoinStr(env.configDir + ["skill"], name), q) ||
      (wd.Some? && (AtOrBelow(ProjectSkillDir(fs0, wd.value, name), q) || AtOrBelow(ClaudeSkillDir(wd.value, name), q)))
  {
    fs, err := fs0, None;
    var deleted := false;
    var plural := JoinStr(env.configDir + ["skills"], name);
    var legacy := JoinStr(env.configDir + ["skill"], name);
    if wd.Some? {
      var r1 := RemoveIfExists(fs, ProjectSkillDir(fs0, wd.value, name));
      if r1.Err? {
        err := Some(r1.error);
        return;
      }
      fs, deleted := r1.value.0, r1.value.1;
      var r2 := RemoveIfExists(fs, ClaudeSkillDir(wd.value, name));
      if r2.Err? {
        err := Some(r2.error);
        return;
      }
      fs, deleted := r2.value.0, deleted || r2.value.1;
    }
    ghost var afterProject := fs;
    var r3 := RemoveIfExists(fs, UserSkillDir(fs, env, name));
    if r3.Err? {
      err := Some(r3.error);
      return;
    }
    fs, deleted := r3.value.0, deleted || r3.value.1;
    var r4 := RemoveIfExists(fs, legacy);
    if r4.Err? {
      err := Some(r4.error);
      return;
    }
    fs, deleted := r4.value.0, deleted || r4.value.1;
    if !deleted {
      err := Some(NotFound);
      return;
    }
  }

  // ---- discovery ----

  datatype DiscoveredSkill = DiscoveredSkill(name: string, path: Path, scope: Scope, source: SkillSource)

  /** A directory scanned for skills, with the scope and convention its skills get. */
  datatype SkillRoot = SkillRoot(dir: Path, scope: Scope, source: SkillSource)

  /**
   * The directories `discover_skills` scans, highest priority first: the
   * project's `.opencode/skills`, `.opencode/skill` and `.claude/skills`
   * (with a working directory), then the user's `skills` and `skill`.
   */
  function SkillRoots(env: Env, wd: Option<Path>): seq<SkillRoot> {
    (if wd.Some? then
      [SkillRoot(wd.value + [".opencode", "skills"], Project, Opencode),
       SkillRoot(wd.value + [".opencode", "skill"], Project, Opencode),
       SkillRoot(wd.value + [".claude", "skills"], Project, Claude)]
     else []) +
    [SkillRoot(env.configDir + ["skills"], User, Opencode),
     SkillRoot(env.configDir + ["skill"], User, Opencode)]
  }

  /** The root is a readable directory holding a directory `n` that has a `SKILL.md`. */
  predicate HasSkill(fs: FS, root: SkillRoot, n: string) {
    root.dir in fs.dirs && root.dir + [n] in fs.dirs && Exists(fs, root.dir + [n, "SKILL.md"])
  }

  function EntryFor(root: SkillRoot, n: string): DiscoveredSkill {
    DiscoveredSkill(n, root.dir + [n, "SKILL.md"], root.scope, root.source)
  }

  /** `m` with the skills of `root` that `m` does not name yet. */
  function AddRoot(fs: FS, m: map<string, DiscoveredSkill>, root: SkillRoot): (r: map<string, DiscoveredSkill>)
    ensures forall n :: n in r <==> n in m || HasSkill(fs, root, n)
    ensures forall n :: n in r ==> r[n] == if n in m then m[n] else EntryFor(root, n)
  {
    m + map n | n in NewSkillNames(fs, m, root) :: EntryFor(root, n)
  }

  /** The skills of `root` whose names `m` does not hold yet. */
  function NewSkillNames(fs: FS, m: map<string, DiscoveredSkill>, root: SkillRoot): (r: set<string>)
    ensures forall n :: n in r <==> n !in m && HasSkill(fs, root, n)
  {
    set n | n in ChildDirs(fs, root.dir) && n !in m && HasSkill(fs, root, n)
  }

  /** The skills found in `roots`, scanned in order. */
  function Discovered(fs: FS, roots: seq<SkillRoot>): map<string, DiscoveredSkill>
    decreases |roots|
  {
    if roots == [] then map[] else AddRoot(fs, Discovered(fs, roots[..|roots| - 1]), roots[|roots| - 1])
  }

  /** The first root, in scanning order, that has skill `n`. */
  predicate FirstWithSkill(fs: FS, roots: seq<SkillRoot>, n: string, i: nat) {
    i < |roots| && HasSkill(fs, roots[i], n) && forall j :: 0 <= j < i ==> !HasSkill(fs, roots[j], n)
  }

  /** Some root among `roots` has skill `n`. */
  predicate SomeRootHas(fs: FS, roots: seq<SkillRoot>, n: string) {
    exists i :: 0 <= i < |roots| && HasSkill(fs, roots[i], n)
  }

  /** Some root has the skill exactly when one before the last does or the last does. */
  lemma SomeRootHasSnoc(fs: FS, roots: seq<SkillRoot>, n: string)
    requires roots != []
    ensures SomeRootHas(fs, roots, n) <==> SomeRootHas(fs, roots[..|roots| - 1], n) || HasSkill(fs, roots[|roots| - 1], n)
  {
    var init := roots[..|roots| - 1];
    if SomeRootHas(fs, roots, n) {
      var i :| 0 <= i < |roots| && HasSkill(fs, roots[i], n);
      if i < |init| {
        assert init[i] == roots[i];
      }
    }
    if SomeRootHas(fs, init, n) {
      var i :| 0 <= i < |init| && HasSkill(fs, init[i], n);
      assert init[i] == roots[i];
    }
  }

  /** A skill is discovered exactly when some root has it. */
  lemma {:induction false} DiscoveredMembers(fs: FS, roots: seq<SkillRoot>, n: string)
    ensures n in Discovered(fs, roots) <==> SomeRootHas(fs, roots, n)
    decreases |roots|
  {
    if roots != [] {
      DiscoveredMembers(fs, roots[..|roots| - 1], n);
      SomeRootHasSnoc(fs, roots, n);
    }
  }

  /** First found wins: the entry recorded for a skill is that of the first root that has it. */
  lemma {:induction false} DiscoveredFirstWins(fs: FS, roots: seq<SkillRoot>, n: string, i: nat)
    requires FirstWithSkill(fs, roots, n, i)
    ensures n in Discovered(fs, roots) && Discovered(fs, roots)[n] == EntryFor(roots[i], n)
    decreases |roots|
  {
    var init := roots[..|roots| - 1];
    if i < |init| {
      assert forall j :: 0 <= j <= i ==> init[j] == roots[j];
      assert FirstWithSkill(fs, init, n, i);
      DiscoveredFirstWins(fs, init, n, i);
    } else {
      DiscoveredMembers(fs, init, n);
      assert forall j :: 0 <= j < |init| ==> init[j] == roots[j];
    }
  }

  /** One directory scanned: each subdirectory with a `SKILL.md` added unless its name is taken. */
  method ScanRoot(fs: FS, m: map<string, DiscoveredSkill>, root: SkillRoot) returns (skills: map<string, DiscoveredSkill>)
    ensures skills == AddRoot(fs, m, root)
  {
    skills := m;
    if root.dir !in fs.dirs {
      assert forall n :: !HasSkill(fs, root, n);
      return;
    }
    var children := ChildDirs(fs, root.dir);
    var todo := children;
    while todo != {}
      invariant todo <= children
      invariant forall n :: n in skills <==> n in m || (n !in todo && HasSkill(fs, root, n))
      invariant forall n :: n in skills ==> skills[n] == if n in m then m[n] else EntryFor(root, n)
      decreases todo
    {
      var n :| n in todo;
      if root.dir + [n] in fs.dirs && Exists(fs, root.dir + [n, "SKILL.md"]) && n !in skills {
        skills := skills[n := EntryFor(root, n)];
      }
      todo := todo - {n};
    }
    var r := AddRoot(fs, m, root);
    assert skills.Keys == r.Keys;
  }

  /**
   * `discover_skills`: every root scanned in priority order; within a root
   * the subdirectories come in whatever order the directory lists them, and a
   * skill is added only when no earlier one has its name.
   */
  method DiscoverSkills(fs: FS, env: Env, wd: Option<Path>) returns (skills: map<string, DiscoveredSkill>)
    ensures skills == Discovered(fs, SkillRoots(env, wd))
  {
    var roots := SkillRoots(env, wd);
    skills := map[];
    var i := 0;
    while i < |roots|
      invariant 0 <= i <= |roots|
      invariant skills == Discovered(fs, roots[..i])
    {
      DiscoveredStep(fs, roots, i);
      skills := ScanRoot(fs, skills, roots[i]);
      i := i + 1;
    }
    assert roots[..i] == roots;
  }

  /** One more root scanned: its skills are added to those of the roots before it. */
  lemma DiscoveredStep(fs: FS, roots: seq<SkillRoot>, i: nat)
    requires i < |roots|
    ensures Discovered(fs, roots[..i + 1]) == AddRoot(fs, Discovered(fs, roots[..i]), roots[i])
  {
    assert roots[..i + 1][..i] == roots[..i];
  }
}
