/**
 * Where agent and command definition files live (opencode_config.rs): the
 * user configuration directory and the project's `.opencode` directory, each
 * with a plural directory (`agents`, `commands`) and a legacy singular one
 * (`agent`, `command`), plus the `{file:...}` prompt references.
 */
module ConfigPaths {
  import opened Wrappers
  import opened Text
  import opened FileSystem

  /**
   * The process environment the resolver reads: the user configuration
   * directory (`~/.config/opencode`) and the path named by the
   * `OPENCODE_CONFIG` variable, if set.
   */
  datatype Env = Env(configDir: Path, customConfig: Option<Path>)

  datatype Scope = User | Project

  /** The two kinds of Markdown-defined entries; they differ only in names. */
  datatype Kind = Agent | Command {
    /** The key of the kind's section in the JSON documents. */
    function SectionKey(): string {
      match this
      case Agent => "agent"
      case Command => "command"
    }

    /** The field that holds the Markdown body. */
    function ContentField(): string {
      match this
      case Agent => "prompt"
      case Command => "template"
    }

    function PluralDir(): string {
      match this
      case Agent => "agents"
      case Command => "commands"
    }

    function LegacyDir(): string {
      match this
      case Agent => "agent"
      case Command => "command"
    }
  }

  /**
   * The rule every scope resolver shares: the legacy path is used exactly when
   * it exists and the plural one does not; otherwise the plural path.
   */
  function PreferPlural(fs: FS, plural: Path, legacy: Path): (r: Path)
    ensures r == plural || r == legacy
    ensures Exists(fs, legacy) && !Exists(fs, plural) ==> r == legacy
    ensures Exists(fs, plural) || !Exists(fs, legacy) ==> r == plural
    ensures Exists(fs, r) <==> Exists(fs, plural) || Exists(fs, legacy)
  {
    if Exists(fs, legacy) && !Exists(fs, plural) then legacy else plural
  }

  /** Once the plural location exists, it is always chosen, whatever the legacy one holds. */
  lemma PluralWinsOnceCreated(fs: FS, fs': FS, plural: Path, legacy: Path)
    requires Exists(fs', plural)
    ensures PreferPlural(fs', plural, legacy) == plural
    ensures Exists(fs, plural) ==> PreferPlural(fs, plural, legacy) == PreferPlural(fs', plural, legacy)
  {
  }

  function ProjectMdPath(fs: FS, wd: Path, kind: Kind, name: string): Path {
    PreferPlural(fs,
      JoinStr(wd + [".opencode", kind.PluralDir()], name + ".md"),
      JoinStr(wd + [".opencode", kind.LegacyDir()], name + ".md"))
  }

  function UserMdPath(fs: FS, env: Env, kind: Kind, name: string): Path {
    PreferPlural(fs,
      JoinStr(env.configDir + [kind.PluralDir()], name + ".md"),
      JoinStr(env.configDir + [kind.LegacyDir()], name + ".md"))
  }

  /**
   * `get_agent_scope` / `get_command_scope`: the existing definition file,
   * the project one before the user one.
   */
  function MdScope(fs: FS, env: Env, wd: Option<Path>, kind: Kind, name: string): (r: Option<(Scope, Path)>)
    ensures r.Some? ==> Exists(fs, r.value.1)
    ensures r.None? <==> (wd.None? || !Exists(fs, ProjectMdPath(fs, wd.value, kind, name))) && !Exists(fs, UserMdPath(fs, env, kind, name))
    ensures r.Some? && r.value.0 == Project ==> wd.Some? && r.value.1 == ProjectMdPath(fs, wd.value, kind, name)
    ensures r.Some? && r.value.0 == User ==>
      r.value.1 == UserMdPath(fs, env, kind, name) && (wd.None? || !Exists(fs, ProjectMdPath(fs, wd.value, kind, name)))
  {
    if wd.Some? && Exists(fs, ProjectMdPath(fs, wd.value, kind, name)) then Some((Project, ProjectMdPath(fs, wd.value, kind, name)))
    else if Exists(fs, UserMdPath(fs, env, kind, name)) then Some((User, UserMdPath(fs, env, kind, name)))
    else None
  }

  /**
   * `get_agent_write_path` / `get_command_write_path`: an existing definition
   * file wins whatever scope is requested; otherwise the project location only
   * when the project scope is requested and a working directory is known.
   */
  function MdWritePath(fs: FS, env: Env, wd: Option<Path>, kind: Kind, name: string, requested: Option<Scope>): (r: (Scope, Path))
    ensures MdScope(fs, env, wd, kind, name).Some? ==> r == MdScope(fs, env, wd, kind, name).value
    ensures MdScope(fs, env, wd, kind, name).None? ==>
      && (r.0 == Project <==> requested == Some(Project) && wd.Some?)
      && r.1 == (if r.0 == Project then ProjectMdPath(fs, wd.value, kind, name) else UserMdPath(fs, env, kind, name))
      && !Exists(fs, r.1)
  {
    match MdScope(fs, env, wd, kind, name)
    case Some(found) => found
    case None =>
      var scope := if requested.Some? then requested.value else User;
      if scope == Project && wd.Some? then (Project, ProjectMdPath(fs, wd.value, kind, name))
      else (User, UserMdPath(fs, env, kind, name))
  }

  /** With a definition file present, the requested scope makes no difference to the write path. */
  lemma WritePathIgnoresRequestWhenPresent(fs: FS, env: Env, wd: Option<Path>, kind: Kind, name: string, a: Option<Scope>, b: Option<Scope>)
    requires MdScope(fs, env, wd, kind, name).Some?
    ensures MdWritePath(fs, env, wd, kind, name, a) == MdWritePath(fs, env, wd, kind, name, b)
    ensures Exists(fs, MdWritePath(fs, env, wd, kind, name, a).1)
  {
  }

  /** `ensure_dirs`: the user configuration directory and the four definition directories under it. */
  function EnsureDirs(fs: FS, env: Env): (r: Result<FS, Error>)
    ensures r.Ok? ==> r.value.files == fs.files && fs.dirs <= r.value.dirs
    ensures r.Ok? ==>
      && env.configDir in r.value.dirs
      && env.configDir + [Agent.PluralDir()] in r.value.dirs && env.configDir + [Agent.LegacyDir()] in r.value.dirs
      && env.configDir + [Command.PluralDir()] in r.value.dirs && env.configDir + [Command.LegacyDir()] in r.value.dirs
  {
    var fs1 :- CreateDirAll(fs, env.configDir);
    var fs2 :- CreateDirAll(fs1, env.configDir + [Agent.PluralDir()]);
    var fs3 :- CreateDirAll(fs2, env.configDir + [Agent.LegacyDir()]);
    var fs4 :- CreateDirAll(fs3, env.configDir + [Command.PluralDir()]);
    CreateDirAll(fs4, env.configDir + [Command.LegacyDir()])
  }

  /** `ensure_project_agent_dir` / `ensure_project_command_dir`: both the plural and the legacy project directory. */
  function EnsureProjectDir(fs: FS, wd: Path, kind: Kind): (r: Result<FS, Error>)
    ensures r.Ok? ==> r.value.files == fs.files && fs.dirs <= r.value.dirs
    ensures r.Ok? ==> wd + [".opencode", kind.PluralDir()] in r.value.dirs && wd + [".opencode", kind.LegacyDir()] in r.value.dirs
  {
    var fs1 :- CreateDirAll(fs, wd + [".opencode", kind.PluralDir()]);
    CreateDirAll(fs1, wd + [".opencode", kind.LegacyDir()])
  }

  // ---- `{file:...}` prompt references ----

  /**
   * The text captured by the case-insensitive pattern `^\{file:(.+)\}$` on the
   * trimmed value: at least one character, none of them a newline.
   */
  function FileRefCapture(value: string): (r: Option<string>)
    ensures r.Some? ==> r.value != [] && '\n' !in r.value
    ensures r.Some? ==> FileRefShape(Trim(value), r.value)
  {
    var t := Trim(value);
    if |t| >= 8 && t[0] == '{' && LowerAscii(t[1..6]) == "file:" && t[|t| - 1] == '}' && '\n' !in t[6..|t| - 1] then
      Some(t[6..|t| - 1])
    else None
  }

  /** `t` is `{file:` (any letter case), then `capture`, then `}`. */
  predicate FileRefShape(t: string, capture: string) {
    |t| == |capture| + 7 && t[0] == '{' && LowerAscii(t[1..6]) == "file:" && t[6..|t| - 1] == capture && t[|t| - 1] == '}'
  }

  /** `is_prompt_file_reference`. */
  predicate IsPromptFileReference(value: string) {
    FileRefCapture(value).Some?
  }

  /** Conversely, every value of that shape is a reference, and its capture is the text between the markers. */
  lemma FileRefShapeRecognised(value: string, capture: string)
    requires FileRefShape(Trim(value), capture) && capture != [] && '\n' !in capture
    ensures FileRefCapture(value) == Some(capture)
    ensures IsPromptFileReference(value)
  {
  }

  /** The trimmed target of a reference, if the value is one. */
  function FileRefTarget(value: string): Option<string> {
    match FileRefCapture(value)
    case None => None
    case Some(capture) => Some(Trim(capture))
  }

  /**
   * `resolve_prompt_file_path`: the target relative to the user configuration
   * directory (a leading `./` dropped) unless absolute; no path for a value
   * that is not a reference or whose target is blank.
   */
  function ResolvePromptFilePath(env: Env, reference: string): (r: Option<Path>)
    ensures r.Some? ==> IsPromptFileReference(reference)
    ensures r.Some? <==> FileRefTarget(reference).Some? && FileRefTarget(reference).value != []
    ensures r.Some? && !StartsWith(FileRefTarget(reference).value, "/") && !StartsWith(FileRefTarget(reference).value, ".//") ==>
      AtOrBelow(env.configDir, r.value)
  {
    match FileRefTarget(reference)
    case None => None
    case Some(target) =>
      if target == [] then None
      else if StartsWith(target, "./") then
        assert StartsWith(target[2..], "/") ==> StartsWith(target, ".//") by {
          if StartsWith(target[2..], "/") {
            assert target[..3] == target[..2] + target[2..][..1];
          }
        }
        Some(JoinStr(env.configDir, target[2..]))
      else if StartsWith(target, "/") then Some(Segments(target))
      else Some(JoinStr(env.configDir, target))
  }

  /** `write_prompt_file`: the parent directories, then the text. */
  function WritePromptFile(fs: FS, p: Path, text: string): (r: Result<FS, Error>)
    ensures r.Ok? ==> p in r.value.files && r.value.files[p] == Plain(text)
    ensures r.Ok? ==> forall q :: q in fs.files && q != p ==> q in r.value.files && r.value.files[q] == fs.files[q]
  {
    var fs1 :- if p == [] then Ok(fs) else CreateDirAll(fs, p[..|p| - 1]);
    WriteFile(fs1, p, Plain(text))
  }
}
