# OpenChamber desktop configuration core in Dafny

This project models the configuration and runtime logic of the OpenChamber
desktop shell (Rust, Tauri) and proves properties of that model.

**OpenCode configuration** (`opencode_config.rs`):
- **Config layers.** The user `opencode.json`, the project config file and the
  custom config file are read and deep-merged. Line and block comments are
  stripped first.
- **Entries.** The model can find the layer that defines an agent, command or
  provider entry. It can also pick the file an update is written to.
- **Agents and commands.** Each is defined by a markdown file with YAML
  frontmatter (plural `agents/` directory preferred, legacy `agent/`
  accepted), by a JSON entry, or by both. The model covers create, update and
  delete, including `{file:...}` prompt references.
- **Providers.** A provider is removed from the `provider` and `providers`
  sections.
- **Skills.** A skill is a directory holding `SKILL.md` and supporting files.
  The model covers name validation, lookup, create, update and delete,
  pruning of empty directories, and discovery across the OpenCode and
  Claude-compatible roots.

**Permissions** (`commands/permissions.rs`): when a directory is selected,
the settings document records it as a project, with an upsert by path. The
active project id and the last directory are set.

**Desktop runtime** (`main.rs`):
- Parsing `vX.Y.Z` versions into a number. Recognising placeholder release
  notes. Selecting changelog sections between two versions.
- De-duplicating PATH segments.
- The set of focused windows.
- Window labels.
- The macOS major version, from `sw_vers` or the Darwin release.
- The host list saved to the desktop settings.

**How the model is built:**
- The file system is a value: a map from paths (component sequences) to
  contents, plus a set of directories. A content is a markdown document
  (frontmatter and body), a JSON document, or plain text.
- Operations that change files step by step are methods. They take a file
  system and return the new one, together with an optional error. Their
  contracts tie the result to specification functions, and lemmas state what
  the source promises about those functions.
- State the source mutates in place is a class: `PathSegments`,
  `WindowFocusState` and `WindowCounter`.

The JSON write target of an entry update does not depend on the requested
scope (see `ConfigLayers.WriteTargetIgnoresPreference`).

## Model

Paths are relative to the repository root.

| member | source | states |
|---|---|---|
| Json.Merge | packages/desktop/src-tauri/src/opencode_config.rs:197-210 | The result is an object exactly when the overlay is one. If either side is not an object, the overlay replaces the base. Two objects merge key by key: the keys are the union, and a key only the base has keeps its base value. |
| Json.MergeAt | packages/desktop/src-tauri/src/opencode_config.rs:197-210 | A value the overlay holds at a path appears at that path in the merge, merged with whatever the base held there. |
| Json.OverlayLeafWins | packages/desktop/src-tauri/src/opencode_config.rs:197-210 | A non-object value in the overlay is exactly what the merge holds at that path. |
| Json.BaseKeptWhereOverlayAbsent | packages/desktop/src-tauri/src/opencode_config.rs:197-210 | A base value at a path the overlay does not reach survives the merge unchanged. |
| Json.MergeIdempotent | packages/desktop/src-tauri/src/opencode_config.rs:197-210 | Merging a document with itself gives the document back. |
| Json.MergeEmptyOverlay | packages/desktop/src-tauri/src/opencode_config.rs:197-210 | An empty overlay object leaves a base object unchanged, so absent layers do not change the merge. |
| JsonComments.StripJsonComments | packages/desktop/src-tauri/src/opencode_config.rs:707-765 | The character loop produces exactly the output of the comment-stripping state machine (code, string, escape, line comment, block comment) run over the input. |
| JsonComments.SkipLineComment | packages/desktop/src-tauri/src/opencode_config.rs:735-744 | Skipping a line comment consumes input up to and including the newline, emits that newline if one was found, and resumes in code mode. |
| JsonComments.SkipBlockComment | packages/desktop/src-tauri/src/opencode_config.rs:745-755 | Skipping a block comment consumes input through the first `*/` (or to the end) and emits nothing. |
| JsonComments.StringLiteralKept | packages/desktop/src-tauri/src/opencode_config.rs:720-730 | A string literal is copied verbatim, including any `//` or `/*` and escaped quotes inside it. |
| JsonComments.StringCopiedVerbatim | packages/desktop/src-tauri/src/opencode_config.rs:714-730 | Inside a string, the body up to the closing quote is copied verbatim and code mode resumes after it. |
| JsonComments.LineCommentDropped | packages/desktop/src-tauri/src/opencode_config.rs:735-744 | `//` up to the end of the line is replaced by the newline alone. |
| JsonComments.LineCommentSkipped | packages/desktop/src-tauri/src/opencode_config.rs:738-743 | In line-comment mode, text without a newline is dropped and the newline is kept. |
| JsonComments.UnterminatedLineComment | packages/desktop/src-tauri/src/opencode_config.rs:738-743 | A line comment running to the end of the input produces nothing. |
| JsonComments.BlockCommentDropped | packages/desktop/src-tauri/src/opencode_config.rs:745-755 | `/* ... */` disappears entirely from the output. |
| JsonComments.BlockCommentSkipped | packages/desktop/src-tauri/src/opencode_config.rs:748-754 | In block-comment mode, text without `*/` is dropped through the closing `*/`. |
| JsonComments.NoCommentsUnchanged | packages/desktop/src-tauri/src/opencode_config.rs:707-765 | Text without comment markers comes out unchanged. |
| JsonComments.StripNoLonger | packages/desktop/src-tauri/src/opencode_config.rs:707-765 | The output is never longer than the input. |
| Markdown.ReadMd | packages/desktop/src-tauri/src/opencode_config.rs:812-836 | Reading fails exactly when the file is missing. A document yields its frontmatter and trimmed body; other text yields empty frontmatter and the whole text trimmed. A file holding a JSON document reads as empty. |
| Markdown.ReadMdBodyTrimmed | packages/desktop/src-tauri/src/opencode_config.rs:820 | The body read back is already trimmed. |
| Markdown.WithoutNulls | packages/desktop/src-tauri/src/opencode_config.rs:845-849 | The cleaned frontmatter holds exactly the non-null fields, with their values. |
| Markdown.WriteMd | packages/desktop/src-tauri/src/opencode_config.rs:839-857 | Writing succeeds exactly when the file write would. Only that file changes, and it gets the cleaned frontmatter and the body. |
| Markdown.ReadAfterWrite | packages/desktop/src-tauri/src/opencode_config.rs:812-857 | Reading back a written file gives the non-null frontmatter and the trimmed body. |
| Markdown.WithoutNullsIdempotent | packages/desktop/src-tauri/src/opencode_config.rs:845-849 | Cleaning frontmatter twice is the same as cleaning it once. |
| Markdown.RewriteStable | packages/desktop/src-tauri/src/opencode_config.rs:812-857 | Writing back what was read reproduces the same reading. |
| ConfigPaths.PreferPlural | packages/desktop/src-tauri/src/opencode_config.rs:488-506 | The plural path is chosen unless only the legacy path exists. The chosen path exists exactly when either one does. |
| ConfigPaths.PluralWinsOnceCreated | packages/desktop/src-tauri/src/opencode_config.rs:497-506 | Once the plural file exists it is chosen, whatever else exists. |
| ConfigPaths.MdScope | packages/desktop/src-tauri/src/opencode_config.rs:526-544 | The project file wins over the user file. The scope found always names an existing file. None means neither file exists. |
| ConfigPaths.MdWritePath | packages/desktop/src-tauri/src/opencode_config.rs:546-568 | An existing definition is rewritten where it lives. A new one goes to the project only when the project scope was asked for and a working directory is known; otherwise it goes to the user directory. A new target does not exist yet. |
| ConfigPaths.WritePathIgnoresRequestWhenPresent | packages/desktop/src-tauri/src/opencode_config.rs:551-556 | When the definition exists, the requested scope has no effect on the write path. |
| ConfigPaths.EnsureDirs | packages/desktop/src-tauri/src/opencode_config.rs:656-668 | On success, the config directory and the plural and legacy agent and command directories all exist, and no file changed. |
| ConfigPaths.EnsureProjectDir | packages/desktop/src-tauri/src/opencode_config.rs:518-523 | On success, the project's plural and legacy directories for the kind exist, and no file changed. |
| ConfigPaths.FileRefCapture | packages/desktop/src-tauri/src/opencode_config.rs:12-13 | A capture is non-empty, has no newline, and the trimmed value is `{file:<capture>}`. |
| ConfigPaths.FileRefShapeRecognised | packages/desktop/src-tauri/src/opencode_config.rs:671-673 | Every trimmed value of the form `{file:X}`, where X is non-empty and has no newline, is recognised, with X captured. |
| ConfigPaths.ResolvePromptFilePath | packages/desktop/src-tauri/src/opencode_config.rs:676-694 | A path is produced exactly when the value is a file reference with a non-empty trimmed target. Any target that is not absolute, with or without a leading `./`, is joined onto the user config directory (`..` components are kept, not resolved). |
| ConfigPaths.WritePromptFile | packages/desktop/src-tauri/src/opencode_config.rs:697-704 | On success, the prompt file holds the text and every other file is unchanged. |
| ConfigLayers.FirstExisting | packages/desktop/src-tauri/src/opencode_config.rs:135-150 | The index found is the first existing candidate. None means no candidate exists. |
| ConfigLayers.ProjectConfigFile | packages/desktop/src-tauri/src/opencode_config.rs:125-150 | The project config is the first existing candidate among the four names. When none exists it falls back to `<wd>/opencode.json`. |
| ConfigLayers.ReadConfigFile | packages/desktop/src-tauri/src/opencode_config.rs:212-227 | A missing file reads as `{}` and a directory is an I/O error. A JSON document reads as itself. Text reads as `{}` exactly when it is blank after comment stripping; otherwise it is a parse error. |
| ConfigLayers.ReadConfigLayers | packages/desktop/src-tauri/src/opencode_config.rs:229-252 | On success, each layer is what its file reads as and the paths are the configured ones. Absent layers are `{}`, and layers that share a path share a document. |
| ConfigLayers.WithLayer | packages/desktop/src-tauri/src/opencode_config.rs:334-346 | Replacing one layer's document leaves the other layers and the paths unchanged. |
| ConfigLayers.GetJsonEntrySource | packages/desktop/src-tauri/src/opencode_config.rs:260-304 | The entry is taken from the custom layer, else the project layer, else the user layer, with the path of the layer that has it. Absent means no layer has it. |
| ConfigLayers.EntrySourceAgreesWithMerge | packages/desktop/src-tauri/src/opencode_config.rs:229-304 | For well-shaped layers, an entry source is found exactly when the merged config has the entry. A non-object entry found is exactly the merged one. |
| ConfigLayers.MergedEntryAbsent | packages/desktop/src-tauri/src/opencode_config.rs:197-252 | An entry missing from every layer is missing from the merge. |
| ConfigLayers.GetJsonWriteTarget | packages/desktop/src-tauri/src/opencode_config.rs:306-332 | The target is the custom config when set, else the project config when known, else the user config. |
| ConfigLayers.WriteTargetIgnoresPreference | packages/desktop/src-tauri/src/opencode_config.rs:306-322 | The preferred scope argument never changes the JSON write target. |
| ConfigLayers.LayerFor | packages/desktop/src-tauri/src/opencode_config.rs:334-346 | A path selects the custom layer when it is the custom path, else the project layer when it is the project path, else the user layer. |
| ConfigLayers.LayerForFoundEntry | packages/desktop/src-tauri/src/opencode_config.rs:260-346 | The layer selected by a found entry's path holds that entry. |
| ConfigLayers.WriteConfigAt | packages/desktop/src-tauri/src/opencode_config.rs:774-795 | On success, the file holds the document. An existing file is first copied to its `.openchamber.backup` sibling. No other file changes. |
| ConfigLayers.ReadAfterWriteConfig | packages/desktop/src-tauri/src/opencode_config.rs:212-227 | A written config reads back as the document written. |
| ConfigLayers.SetEntry | packages/desktop/src-tauri/src/opencode_config.rs:1168-1186 | The section becomes an object holding the entry. Other top-level keys and other entries of the section are kept. |
| ConfigLayers.RemoveEntry | packages/desktop/src-tauri/src/opencode_config.rs:1222-1233 | Removal succeeds exactly when the entry is present. Afterwards it is gone, and all other keys and entries are kept. |
| ConfigLayers.RemoveUndoesSet | packages/desktop/src-tauri/src/opencode_config.rs:1168-1233 | Removing a freshly added entry restores the document. |
| Artifacts.PlaceFields | packages/desktop/src-tauri/src/opencode_config.rs:1075-1153 | Every update field is placed by the routing rules: nulls are removed from both places, prompts go to the markdown body, the entry's JSON or a referenced file, and other fields go to the frontmatter or JSON entry that holds them. Untouched fields keep their values. The modified flags are true exactly when some field touched that side. An unresolvable prompt reference is an error. |
| Artifacts.PlaceField | packages/desktop/src-tauri/src/opencode_config.rs:1076-1152 | One update field is placed by the routing rules; nothing else moves. |
| Artifacts.RemoveField | packages/desktop/src-tauri/src/opencode_config.rs:1077-1090 | A null update removes the field from the frontmatter and from the JSON entry and changes nothing else. |
| Artifacts.PlaceContent | packages/desktop/src-tauri/src/opencode_config.rs:1092-1119 | A prompt goes to the markdown body when a definition file exists. Otherwise, if the entry holds a file reference, it goes to that file, and an unresolvable reference is an error. Otherwise it goes to the JSON entry. |
| Artifacts.PlaceOther | packages/desktop/src-tauri/src/opencode_config.rs:1122-1152 | A non-prompt field goes to the frontmatter when the file has it or no JSON entry does; otherwise it goes to the JSON entry. |
| Artifacts.BuiltinOverrideKeepsJson | packages/desktop/src-tauri/src/opencode_config.rs:1048-1070 | Overriding a built-in entry never writes JSON: every field lands in the new markdown file. |
| ArtifactOps.PlanUpdate | packages/desktop/src-tauri/src/opencode_config.rs:1017-1070 | The update plan records the layers, whether a definition file exists and where, the JSON entry and its target, and the built-in case (neither file nor entry). The starting markdown is the file's content, or empty for a built-in. |
| ArtifactOps.CtxOf | packages/desktop/src-tauri/src/opencode_config.rs:1057-1070 | The placement context carries the plan's starting markdown and entry and is well formed exactly when the plan is. |
| ArtifactOps.WriteJsonEntry | packages/desktop/src-tauri/src/opencode_config.rs:1168-1186 | On success, the JSON target holds its layer's document with the entry replaced. Only the target and its backup change. |
| ArtifactOps.WritePromptStep | packages/desktop/src-tauri/src/opencode_config.rs:1102-1116 | A prompt routed to a referenced file is written there, and nothing else changes. |
| ArtifactOps.WriteDefinitionStep | packages/desktop/src-tauri/src/opencode_config.rs:1155-1159 | A modified definition is written with its cleaned frontmatter and body. An unmodified one leaves the file system unchanged. |
| ArtifactOps.WriteUpdate | packages/desktop/src-tauri/src/opencode_config.rs:1155-1186 | JSON is written exactly when a field touched it and the entry is not a markdown-only definition. The written files hold the placed markdown and entry, and nothing else changes. |
| ArtifactOps.UpdateEntry | packages/desktop/src-tauri/src/opencode_config.rs:1009-1196 | A successful update ran on the ensured directories and the computed plan. The placement meets the routing rules, and the markdown and JSON written are the placed ones. |
| ArtifactOps.NewFrontmatter | packages/desktop/src-tauri/src/opencode_config.rs:988-993 | A new definition's frontmatter is the config without the prompt field and `scope`. |
| ArtifactOps.CreateEntry | packages/desktop/src-tauri/src/opencode_config.rs:940-1005 | Creating fails with already-exists when a definition file or JSON entry exists. On success, the file is written in the project only for project scope with a working directory, and in the user directory otherwise, holding the new frontmatter and the prompt. |
| ArtifactOps.RemoveDefinitionFiles | packages/desktop/src-tauri/src/opencode_config.rs:1200-1220 | The project file and the user file are each removed when present. The flag reports whether one existed, and no other file changes. |
| ArtifactOps.DeleteRevealsLegacyDefinition | packages/desktop/src-tauri/src/opencode_config.rs:488-506 | When plural and legacy project files both exist, deleting removes the plural one only, and the legacy file becomes the definition. |
| ArtifactOps.RemoveJsonEntry | packages/desktop/src-tauri/src/opencode_config.rs:1222-1235 | The entry is removed from the highest-precedence layer that has it, and only that config and its backup change. |
| ArtifactOps.DisableAgent | packages/desktop/src-tauri/src/opencode_config.rs:1238-1265 | A built-in agent gets `{"disable": true}` in the JSON write target, and only that config and its backup change. |
| ArtifactOps.DeleteEntry | packages/desktop/src-tauri/src/opencode_config.rs:1197-1270 | Definition files are removed first. A JSON entry found afterwards is removed. If nothing existed, an agent is disabled and a command is not found (commands mirror lines 1609-1664). |
| Providers.ScopePath | packages/desktop/src-tauri/src/opencode_config.rs:433-445 | User scope always has a path. Project and custom scopes have one only when configured. |
| Providers.RemoveFromSection | packages/desktop/src-tauri/src/opencode_config.rs:452-468 | Removal happens exactly when the section holds the id. It removes only that id, and asks for the section to be dropped exactly when it held nothing else. |
| Providers.StripProvider | packages/desktop/src-tauri/src/opencode_config.rs:452-479 | Something is removed exactly when `provider` or `providers` held the id. Then both sections lose it, emptied sections are dropped, and other keys are kept; otherwise the document is unchanged. |
| Providers.RemovalIsComplete | packages/desktop/src-tauri/src/opencode_config.rs:452-479 | After removal the section no longer holds the id. |
| Providers.RemoveProviderConfig | packages/desktop/src-tauri/src/opencode_config.rs:423-483 | A blank id is an error with no change. A scope without a configured path is an error. Otherwise the scope's config file gets the stripped document exactly when something was removed, and otherwise nothing changes. |
| Providers.RemovalIdempotent | packages/desktop/src-tauri/src/opencode_config.rs:452-479 | After removal, neither section holds the id, so removing it again finds nothing. |
| Skills.ValidateSkillName | packages/desktop/src-tauri/src/opencode_config.rs:2185-2194 | A name is valid exactly when it is one lower-case alphanumeric character, or at least two that start and end alphanumeric with only alphanumerics or hyphens between, and it is at most 64 long. |
| Skills.ValidNameIsComponent | packages/desktop/src-tauri/src/opencode_config.rs:2185-2194 | A valid name joins onto a directory as exactly one path component, so it cannot escape it. |
| Skills.GetSkillScope | packages/desktop/src-tauri/src/opencode_config.rs:1840-1876 | The project `.opencode` skill wins, then the `.claude` one, then the user one. The path found exists, and None means none exists. |
| Skills.EnsureSkillDirs | packages/desktop/src-tauri/src/opencode_config.rs:1820-1826 | On success, both user skill directories exist and no file changed. |
| Skills.EnsureProjectSkillDir | packages/desktop/src-tauri/src/opencode_config.rs:1828-1838 | On success, the project skill directory exists and is returned, and no file changed. |
| Skills.WriteSupportingFile | packages/desktop/src-tauri/src/opencode_config.rs:2142-2154 | On success, the file holds the content and other files are unchanged. |
| Skills.PrunedRemovesOnlyBetween | packages/desktop/src-tauri/src/opencode_config.rs:2163-2179 | Pruning removes no file and only directories on the way up from the deleted file. Below a skill directory it never removes the skill directory itself or anything above it. |
| Skills.PruneEmptyParents | packages/desktop/src-tauri/src/opencode_config.rs:2164-2179 | The pruning loop removes exactly the empty parents the pruning specification names. |
| Skills.DeleteSupportingFile | packages/desktop/src-tauri/src/opencode_config.rs:2157-2182 | A missing file is no error and no change. An existing file is removed, then its empty parents are pruned; a directory at that path is an error. |
| Skills.PrunedLeavesNoEmptyParent | packages/desktop/src-tauri/src/opencode_config.rs:2163-2179 | When the directories between the skill directory and the deleted file's parent all exist, none of them is left empty after pruning. |
| Skills.DeleteOnlyScriptPrunesItsDirectory | packages/desktop/src-tauri/src/opencode_config.rs:2157-2182 | Deleting the only file of `scripts/` removes the directory too and keeps the skill directory. |
| Skills.DeleteFlagOnlyCountsOnUpdate | packages/desktop/src-tauri/src/opencode_config.rs:2250-2258 | At creation an entry with `delete: true`, a path and a content is written; on update it deletes the path. |
| Skills.WritesLastWins | packages/desktop/src-tauri/src/opencode_config.rs:2250-2259 | After the supporting-file writes at creation (every entry with a path and a content, whatever its `delete` flag), a path holds the content of the last write to it. |
| Skills.WritesKeepOthers | packages/desktop/src-tauri/src/opencode_config.rs:2250-2259 | Files no write targets are unchanged. |
| Skills.ProcessSupportingFiles | packages/desktop/src-tauri/src/opencode_config.rs:2250-2259 | The loop over supporting files has exactly the effect of the file-operation specification, stopping at the first error. At creation every entry with a path and a content is written; on update an entry with `delete: true` deletes its path instead. |
| Skills.NewSkillFrontmatter | packages/desktop/src-tauri/src/opencode_config.rs:2231-2242 | The frontmatter is the config without `instructions`, `scope` and `supportingFiles`, with `name` defaulting to the skill name. |
| Skills.PrepareSkillDir | packages/desktop/src-tauri/src/opencode_config.rs:2212-2226 | The skill directory is in the project for project scope with a working directory, and in the user directory otherwise. It exists afterwards, and no file changed. |
| Skills.CreateSkill | packages/desktop/src-tauri/src/opencode_config.rs:2197-2268 | An invalid name, an existing skill or a missing description is an error. On success, `SKILL.md` holds the new frontmatter and the instructions, and the supporting files are written. |
| Skills.UpdatedFrontmatter | packages/desktop/src-tauri/src/opencode_config.rs:2285-2317 | Every update except `scope`, `instructions` and `supportingFiles` overwrites its frontmatter field. Other fields are kept. |
| Skills.ApplyUpdates | packages/desktop/src-tauri/src/opencode_config.rs:2285-2317 | The update loop yields the updated frontmatter and body and applies the supporting-file operations. The file is marked modified exactly when some update other than `scope` or `supportingFiles` was given. |
| Skills.UpdateSkill | packages/desktop/src-tauri/src/opencode_config.rs:2271-2329 | A missing skill is not found, with no change. Otherwise the supporting-file operations are applied in the skill's directory, and `SKILL.md` is rewritten with the updated frontmatter and body exactly when needed. |
| Skills.RemoveIfExists | packages/desktop/src-tauri/src/opencode_config.rs:2339-2346 | The path is gone afterwards, the flag says whether it existed, and only things under it are removed. |
| Skills.DeleteSkill | packages/desktop/src-tauri/src/opencode_config.rs:2332-2383 | Every location that has the skill is removed. Only files under those directories disappear. Not found is reported exactly when none existed, with no change. |
| Skills.AddRoot | packages/desktop/src-tauri/src/opencode_config.rs:1911-2013 | Scanning a root adds exactly the skills it has that were not yet known, and keeps earlier entries. |
| Skills.NewSkillNames | packages/desktop/src-tauri/src/opencode_config.rs:1911-2013 | The new names are the root's skills not yet discovered. |
| Skills.DiscoveredMembers | packages/desktop/src-tauri/src/opencode_config.rs:1911-2013 | A name is discovered exactly when some root has a skill of that name. |
| Skills.DiscoveredFirstWins | packages/desktop/src-tauri/src/opencode_config.rs:1911-2013 | A name's entry comes from the first root, in scan order, that has it. |
| Skills.ScanRoot | packages/desktop/src-tauri/src/opencode_config.rs:1911-2013 | The directory scan adds exactly the root's specification entries. |
| Skills.DiscoverSkills | packages/desktop/src-tauri/src/opencode_config.rs:1911-2013 | The discovered map is the specification's first-root-wins scan over project, Claude and user roots. |
| Permissions.FirstProjectAt | packages/desktop/src-tauri/src/commands/permissions.rs:87-93 | The index found is the first project whose `path` is the string. None means no project has it. |
| Permissions.FindProject | packages/desktop/src-tauri/src/commands/permissions.rs:87-93 | The search loop returns the first matching project. |
| Permissions.NewProject | packages/desktop/src-tauri/src/commands/permissions.rs:118-127 | A new project has the path and the fresh id. |
| Permissions.UpsertProject | packages/desktop/src-tauri/src/commands/permissions.rs:73-138 | The in-place update of the settings computes the upsert specification. |
| Permissions.UpsertSettingsShape | packages/desktop/src-tauri/src/commands/permissions.rs:73-138 | The settings keep all other keys and gain `projects` (an array), `activeProjectId` (the project id) and `lastDirectory` (the path). |
| Permissions.UpsertKnownProject | packages/desktop/src-tauri/src/commands/permissions.rs:95-117 | A known path updates only its project, setting `lastOpenedAt` and keeping other fields. Its existing id is reused, and a fresh one is recorded only when it had none. |
| Permissions.UpsertNewProject | packages/desktop/src-tauri/src/commands/permissions.rs:118-127 | An unknown path appends one new project with the fresh id. |
| Permissions.UpsertFindsActiveProject | packages/desktop/src-tauri/src/commands/permissions.rs:73-138 | After the upsert, the first project at the path has the active project id. |
| Permissions.ReopenKeepsProject | packages/desktop/src-tauri/src/commands/permissions.rs:73-138 | Selecting the same directory again keeps the same id and adds no project. |
| Permissions.ProcessDirectorySelection | packages/desktop/src-tauri/src/commands/permissions.rs:38-155 | A missing path or a non-directory is reported with the source's messages, and settings are unchanged. Otherwise it succeeds with the path and project id, and the settings are upserted. |
| ReleaseNotes.SatMul | packages/desktop/src-tauri/src/main.rs:1328 | The product saturates at the u32 maximum and is exact below it. |
| ReleaseNotes.SatAdd | packages/desktop/src-tauri/src/main.rs:1328 | The sum saturates at the u32 maximum and is exact below it. |
| ReleaseNotes.AsWrittenWrapsAround | packages/desktop/src-tauri/src/main.rs:1328 | As written, `429497.0.1` wraps to 0, which is below `0.0.1` (see Findings). |
| ReleaseNotes.SemverValue | packages/desktop/src-tauri/src/main.rs:1328 | The corrected version number stays within u32. |
| ReleaseNotes.SemverValueMonotone | packages/desktop/src-tauri/src/main.rs:1328 | The corrected number never decreases when a component grows. |
| ReleaseNotes.SemverValueExact | packages/desktop/src-tauri/src/main.rs:1328 | For minor and patch below 100 and no overflow, the number is `major*10000 + minor*100 + patch`, and the code as written agrees. |
| ReleaseNotes.SemverOrder | packages/desktop/src-tauri/src/main.rs:1322-1329 | Within that range, the numbers order versions lexicographically by (major, minor, patch). |
| ReleaseNotes.SemverParts | packages/desktop/src-tauri/src/main.rs:1323-1327 | Parsed parts are u32 values. |
| ReleaseNotes.ParseSemverNum | packages/desktop/src-tauri/src/main.rs:1322-1329 | A number is produced exactly when three u32 parts parse. It fits in u32. |
| ReleaseNotes.SemverTextParses | packages/desktop/src-tauri/src/main.rs:1322-1329 | `vX.Y.Z` with digit parts parses to the value of X, Y and Z. |
| ReleaseNotes.SemverRoundTrip | packages/desktop/src-tauri/src/main.rs:1322-1329 | Printing three u32 values as `vX.Y.Z` and parsing gives their version number. |
| ReleaseNotes.IsPlaceholderReleaseNotes | packages/desktop/src-tauri/src/main.rs:1331-1342 | Missing or blank notes are placeholders. Notes whose first non-blank character is not `s` or `S` are not. |
| ReleaseNotes.PlaceholderIgnoresCase | packages/desktop/src-tauri/src/main.rs:1339-1341 | Notes opening with `see release notes at` in any letter case are a placeholder, whatever follows. |
| ReleaseNotes.PlaceholderSkipsLeadingBlank | packages/desktop/src-tauri/src/main.rs:1335-1341 | Whitespace in front of the notes does not change whether they are a placeholder. |
| ReleaseNotes.PlaceholderOnlyForLinkText | packages/desktop/src-tauri/src/main.rs:1335-1341 | Notes that are not blank are a placeholder only when, trimmed, they open with `see release notes at` in some letter case. |
| ReleaseNotes.MarkerOf | packages/desktop/src-tauri/src/main.rs:1366-1377 | A heading's marker records the offset of its line. |
| ReleaseNotes.MarkersWellPlaced | packages/desktop/src-tauri/src/main.rs:1366-1377 | Every marker points at a `## [` heading in the changelog, and markers are strictly increasing. |
| ReleaseNotes.ScanMarkers | packages/desktop/src-tauri/src/main.rs:1362-1377 | The line scan produces exactly the heading markers of the changelog. |
| ReleaseNotes.ScanLines | packages/desktop/src-tauri/src/main.rs:1367-1377 | The loop over the lines, with its running offset of line length plus one, collects exactly the heading markers of those lines, in order. |
| ReleaseNotes.KeepSection | packages/desktop/src-tauri/src/main.rs:1383-1403 | A section is kept exactly as the selection specification says: a version in (from, to], and non-empty after trimming. |
| ReleaseNotes.SelectSections | packages/desktop/src-tauri/src/main.rs:1383-1403 | The selection loop keeps exactly the specified sections, in changelog order. |
| ReleaseNotes.SectionStartsWithHeading | packages/desktop/src-tauri/src/main.rs:1383-1403 | Each section runs from its heading to the next one, and trimmed it still starts with `## [`. |
| ReleaseNotes.SectionsCounted | packages/desktop/src-tauri/src/main.rs:1383-1403 | Exactly one section is kept per marker whose version is in range. |
| ReleaseNotes.SectionsAreHeadingsInRange | packages/desktop/src-tauri/src/main.rs:1383-1403 | Every kept section starts with `## [` and comes from a heading whose version is in range. |
| ReleaseNotes.NotesBetween | packages/desktop/src-tauri/src/main.rs:1362-1409 | Notes are produced only from a non-blank changelog with at least one heading. |
| ReleaseNotes.NotesIffVersionInRange | packages/desktop/src-tauri/src/main.rs:1379-1409 | Notes are produced exactly when some heading's version lies in (from, to]. |
| ReleaseNotes.NotesAreSectionsInRange | packages/desktop/src-tauri/src/main.rs:1405-1409 | The notes are the kept sections joined by blank lines, all from in-range headings. |
| ReleaseNotes.ChangelogNotes | packages/desktop/src-tauri/src/main.rs:1344-1410 | Notes require both versions to parse with from < to, and a non-blank changelog with headings. |
| ReleaseNotes.NotesFromChangelog | packages/desktop/src-tauri/src/main.rs:1362-1409 | Scanning and selecting compute the specified notes. |
| ReleaseNotes.FetchChangelogNotes | packages/desktop/src-tauri/src/main.rs:1344-1410 | The whole selection computes the specified notes for the fetched changelog. |
| DesktopRuntime.PushedKeepsOrder | packages/desktop/src-tauri/src/main.rs:1552-1560 | A push keeps the segments as a prefix, keeps them unique and trimmed, and adds the trimmed value exactly when it is non-blank and new. |
| DesktopRuntime.PushedAllKeepsOrder | packages/desktop/src-tauri/src/main.rs:1608-1612 | Pushing many values keeps earlier segments first, unique and trimmed. |
| DesktopRuntime.PushedAllMembers | packages/desktop/src-tauri/src/main.rs:1608-1612 | After pushing many values, a segment is present exactly when it was before or is the non-blank trim of a pushed value. |
| DesktopRuntime.PathSegments.constructor | packages/desktop/src-tauri/src/main.rs:1552-1560 | The segment list and the seen set start empty and consistent. |
| DesktopRuntime.PathSegments.PushUnique | packages/desktop/src-tauri/src/main.rs:1552-1560 | The closure's in-place update appends the trimmed value when it is non-blank and unseen, and adds it to the seen set. The seen set always equals the segments' members. |
| DesktopRuntime.PathSegments.PushAll | packages/desktop/src-tauri/src/main.rs:1608-1612 | Pushing each PATH segment in turn gives the specified de-duplicated list. |
| DesktopRuntime.AfterEvent | packages/desktop/src-tauri/src/main.rs:977-989 | After an event, its window is focused exactly when the event is a gained focus. Every other window is unaffected. |
| DesktopRuntime.FocusedIffLastEventGained | packages/desktop/src-tauri/src/main.rs:2440-2451 | After a run of events, a window is focused exactly when its last event gained focus, or it had none and was focused before. |
| DesktopRuntime.WindowFocusState.constructor | packages/desktop/src-tauri/src/main.rs:963-969 | No window starts focused. |
| DesktopRuntime.WindowFocusState.AnyFocused | packages/desktop/src-tauri/src/main.rs:972-975 | True exactly when some window is focused. |
| DesktopRuntime.WindowFocusState.SetFocused | packages/desktop/src-tauri/src/main.rs:977-984 | The set changes as a focus event says. |
| DesktopRuntime.WindowFocusState.RemoveWindow | packages/desktop/src-tauri/src/main.rs:986-989 | The set changes as a destroy event says. |
| DesktopRuntime.WindowFocusState.OnWindowEvent | packages/desktop/src-tauri/src/main.rs:2440-2451 | The window-event handler applies the event to the set. |
| DesktopRuntime.WindowLabelsDistinct | packages/desktop/src-tauri/src/main.rs:21-28 | Different counter values give different labels, and only the first window is `main`. |
| DesktopRuntime.WindowCounter.constructor | packages/desktop/src-tauri/src/main.rs:19 | The counter starts at 1. |
| DesktopRuntime.WindowCounter.NextWindowLabel | packages/desktop/src-tauri/src/main.rs:21-28 | Returns the label for the current counter and advances it, wrapping at 2^64. |
| DesktopRuntime.MacosMajorVersion | packages/desktop/src-tauri/src/main.rs:1964-1997 | A version requires some command output. From `sw_vers`, a value other than 10 fits in u32. |
| DesktopRuntime.ProductVersionMapping | packages/desktop/src-tauri/src/main.rs:1974-1981 | `10.N` maps to N, and any other `M.N` maps to M. |
| DesktopRuntime.OsReleaseMapping | packages/desktop/src-tauri/src/main.rs:1984-1996 | A Darwin release D maps to D-9 from 20, D-4 from 15, and D below that. |
| DesktopRuntime.DarwinAgreesWithProductVersion | packages/desktop/src-tauri/src/main.rs:1964-1997 | For Darwin 15 and later, the fallback gives the same major as `sw_vers` would. |
| DesktopRuntime.ModernProductVersion | packages/desktop/src-tauri/src/main.rs:1974-1981 | Product versions from macOS 11 on give their own major. |
| DesktopRuntime.LegacyProductVersion | packages/desktop/src-tauri/src/main.rs:1974-1981 | Product versions `10.11` to `10.15` give their minor. |
| DesktopRuntime.SavedHost | packages/desktop/src-tauri/src/main.rs:1194-1213 | A host is kept exactly when its trimmed id is non-empty and not `local` and its URL normalises. It is saved with the trimmed id, the normalised URL, and the trimmed label, or the URL when the label is blank. |
| DesktopRuntime.SavedHostsMembers | packages/desktop/src-tauri/src/main.rs:1194-1213 | The saved list holds exactly the kept hosts. None is `local` or has an untrimmed or empty id. |
| DesktopRuntime.SavedHostStable | packages/desktop/src-tauri/src/main.rs:1194-1213 | With an idempotent normaliser, a saved host is saved unchanged again. |
| DesktopRuntime.SavingTwiceIsSavingOnce | packages/desktop/src-tauri/src/main.rs:1194-1213 | Saving an already saved list changes nothing. |
| DesktopRuntime.SavedDefaultHostId | packages/desktop/src-tauri/src/main.rs:1216-1219 | The default id is kept, trimmed, exactly when it is present and non-blank. |
| DesktopRuntime.HostValue | packages/desktop/src-tauri/src/main.rs:1205-1211 | The stored host object has the host's id, label and URL. |
| DesktopRuntime.HostsArray | packages/desktop/src-tauri/src/main.rs:1194-1214 | The stored array has one object per saved host, in order, with its id, its name under `label`, and its URL. |
| DesktopRuntime.DefaultHostValue | packages/desktop/src-tauri/src/main.rs:1216-1219 | The stored default is null exactly when the id is absent or blank; otherwise it is the trimmed id. |
| DesktopRuntime.HostsSettingsShape | packages/desktop/src-tauri/src/main.rs:1178-1223 | The written settings keep every other key and set `desktopHosts` and `desktopDefaultHostId` to the saved values. A non-object root is replaced by an object. |
| Text.TrimEmptyIffBlank | packages/desktop/src-tauri/src/main.rs:1553-1556 | Trimming gives the empty string exactly when the value is blank, which is the case `push_unique` skips. |
| Text.TrimIdempotent | packages/desktop/src-tauri/src/main.rs:1553 | Trimming twice is trimming once. |
| Text.ParseU32RoundTrip | packages/desktop/src-tauri/src/main.rs:1325-1327 | A printed u32 parses back to itself. |

## Left out

- File system effects are values. Concurrency, partial writes, permissions and symlinks are not modelled. `canonicalize` and `~` expansion are taken as given: the path reaches the model already normalised.
- JSON, JSON-with-comments and YAML parsing are external. A config file is either a JSON document or text, and text reads as `{}` when blank after comment stripping and as a parse error otherwise. Pretty-printing is not modelled.
- The frontmatter regex of `parse_md_file` is not modelled: a markdown file holds its frontmatter and body directly.
- ConfigPaths.FileRefCapture: the prompt-reference regex is modelled as the trimmed `{file:X}` shape, with X non-empty and free of newlines.
- Tauri commands, logging, `get_*_sources`, `read_config`, `write_config`, `read_skill_supporting_file` and `list_supporting_files` are not modelled. They only read or report, or wrap modelled operations.
- Agent and command operations share one model, parameterised by the entry kind. The command versions are the same code with `command`/`template` in place of `agent`/`prompt`.
- HashMap iteration order is not modelled. The update loops process fields in an arbitrary order, and the contracts hold for every order.
- Permissions: the settings persistence (`update_with`) and its failure path are not modelled. The clock and UUID generator are parameters (`now`, `freshId`).
- ReleaseNotes: the network fetch of the changelog is a parameter. Offsets count characters, not UTF-8 bytes.
- ReleaseNotes.ChangelogNotes: CRLF line endings are not modelled as the source handles them. The model splits on `'\n'`, so each line keeps its `'\r'` and the offsets stay exact. The source's `lines()` drops the `'\r'` before adding `len() + 1`, so its offsets fall one byte behind per CRLF line. SectionStartsWithHeading therefore holds for the source only on LF text.
- Text.IsWhitespace: trimming removes ASCII whitespace only (space, tab, line feed, carriage return, vertical tab, form feed). Rust's `trim` also removes Unicode whitespace such as U+00A0 and U+2028, which the model keeps.
- FileSystem.WriteFile: writing creates missing parent directories, while `fs::write` fails without its parent. In the model, as in the source, every write follows a `create_dir_all` of the parent or targets a file that already exists, so the two agree on the paths written.
- Markdown.ReadMd: the text of a JSON document is not kept, so a `.md` path holding one reads as no frontmatter and an empty body rather than as its text.
- DesktopRuntime.MacosMajorVersion: the `sw_vers`, `sysctl` and `uname` outputs are parameters. Its own contract states only bounds; the version mappings are stated by ProductVersionMapping and OsReleaseMapping.
- DesktopRuntime.SavedHost: URL normalisation (`normalize_host_url`) is a parameter, not modelled.
- DesktopRuntime.PathSegments.PushAll: only the PATH variable's segments are pushed. The other PATH sources and the final `join` are not modelled.
- The rest of the desktop shell (window creation, sidecar process, menus, updater and deep links) is not modelled.

## Findings

| source | as written | input that shows it | evidently intended | confidence | as-written member | corrected member |
|---|---|---|---|---|---|---|
| packages/desktop/src-tauri/src/main.rs:1328 | The three saturated terms are added with plain `u32` `+`, which overflows (wraps in release builds, panics in debug). | `429497.0.1`: `429497*10000` saturates to 4294967295, and `+ 1` wraps to 0, so it compares below `0.0.1`. | The version number never decreases as a component grows (saturating addition). | not executed | ReleaseNotes.AsWrittenWrapsAround | ReleaseNotes.SemverValueMonotone |
