/**
 * The project list kept in the desktop settings document, as
 * `process_directory_selection` updates it when a directory is chosen:
 * the project with the chosen path is looked up, touched or added, and
 * becomes the active one.
 */
module Permissions {
  import opened Wrappers
  import opened Json

  /** An entry of `projects` whose `path` is the string `path`. */
  predicate IsProjectAt(entry: Value, path: string) {
    GetStr(entry, "path") == Some(path)
  }

  /** Only an object has a `path`, so only an object can be the project at a path. */
  lemma ProjectAtIsObject(entry: Value, path: string)
    requires IsProjectAt(entry, path)
    ensures entry.Object? && "path" in entry.fields && entry.fields["path"] == Str(path)
  {
  }

  /** `iter().position(..)`: the index of the first project at `path`. */
  function FirstProjectAt(projects: seq<Value>, path: string): (r: Option<nat>)
    ensures r.Some? ==> r.value < |projects| && IsProjectAt(projects[r.value], path)
    ensures r.Some? ==> forall j :: 0 <= j < r.value ==> !IsProjectAt(projects[j], path)
    ensures r.None? <==> forall j :: 0 <= j < |projects| ==> !IsProjectAt(projects[j], path)
  {
    if projects == [] then None
    else if IsProjectAt(projects[0], path) then Some(0)
    else
      var rest := FirstProjectAt(projects[1..], path);
      assert forall j :: 1 <= j < |projects| ==> projects[j] == projects[1..][j - 1];
      if rest.None? then None else Some(rest.value + 1)
  }

  /** The position search, scanning from the front. */
  method FindProject(projects: seq<Value>, path: string) returns (index: Option<nat>)
    ensures index == FirstProjectAt(projects, path)
  {
    var i := 0;
    while i < |projects|
      invariant 0 <= i <= |projects|
      invariant forall j :: 0 <= j < i ==> !IsProjectAt(projects[j], path)
    {
      if IsProjectAt(projects[i], path) {
        return Some(i);
      }
      i := i + 1;
    }
    return None;
  }

  /** A newly recorded project: `{id, path, addedAt: now, lastOpenedAt: now}`. */
  function NewProject(id: string, path: string, now: int): (r: Value)
    ensures IsProjectAt(r, path) && GetStr(r, "id") == Some(id)
  {
    Object(map["id" := Str(id), "path" := Str(path), "addedAt" := Number(now), "lastOpenedAt" := Number(now)])
  }

  /** The settings object: a non-object document counts as `{}`. */
  function SettingsFields(settings: Value): map<string, Value> {
    FieldsOrEmpty(settings)
  }

  /** The project list: missing or not an array counts as `[]`. */
  function ProjectsOf(settings: Value): seq<Value> {
    var fields := SettingsFields(settings);
    if "projects" in fields && fields["projects"].Array? then fields["projects"].items else []
  }

  /**
   * The project list after a directory is opened, with the id of its project.
   * The matched entry is always an object (`MatchIsNeverReplaced`).
   */
  function Touched(projects: seq<Value>, path: string, now: int, freshId: string): (seq<Value>, string) {
    var found := FirstProjectAt(projects, path);
    if found.None? then (projects + [NewProject(freshId, path, now)], freshId)
    else
      var i := found.value;
      var entry := projects[i];
      var stamped := entry.fields["lastOpenedAt" := Number(now)];
      match GetStr(entry, "id")
      case Some(id) => (projects[i := Object(stamped)], id)
      case None => (projects[i := Object(stamped["id" := Str(freshId)])], freshId)
  }

  /** The settings document after the update, with the active project's id. */
  function Upserted(settings: Value, path: string, now: int, freshId: string): (Value, string) {
    var (projects, id) := Touched(ProjectsOf(settings), path, now, freshId);
    var fields := SettingsFields(settings)["projects" := Array(projects)];
    (Object(fields["activeProjectId" := Str(id)]["lastDirectory" := Str(path)]), id)
  }

  /**
   * The update closure of `process_directory_selection`: it normalises the
   * document, finds the project by path, updates it in place or appends one,
   * and records the active project and the last directory.
   */
  method UpsertProject(settings: Value, path: string, now: int, freshId: string) returns (next: Value, id: string)
    ensures (next, id) == Upserted(settings, path, now, freshId)
  {
    var doc := settings;
    if !doc.Object? {
      doc := EmptyObject;
    }
    var fields := doc.fields;
    if "projects" !in fields || !fields["projects"].Array? {
      fields := fields["projects" := Array([])];
    }
    var projects := fields["projects"].items;
    assert projects == ProjectsOf(settings);
    var index := FindProject(projects, path);
    if index.Some? {
      var i := index.value;
      var entry := projects[i];
      if entry.Object? {
        var entryFields := entry.fields["lastOpenedAt" := Number(now)];
        if "id" in entryFields && entryFields["id"].Str? {
          id := entryFields["id"].s;
        } else {
          id := freshId;
          entryFields := entryFields["id" := Str(id)];
        }
        projects := projects[i := Object(entryFields)];
      } else {
        // Only an object has a `path`, so the matched entry is one.
        assert false;
      }
    } else {
      id := freshId;
      projects := projects + [NewProject(id, path, now)];
    }
    assert (projects, id) == Touched(ProjectsOf(settings), path, now, freshId);
    fields := fields["projects" := Array(projects)];
    assert fields == SettingsFields(settings)["projects" := Array(projects)];
    fields := fields["activeProjectId" := Str(id)];
    fields := fields["lastDirectory" := Str(path)];
    next := Object(fields);
  }

  /** The keys the update writes at the top of the settings document. */
  predicate UpdatedKey(k: string) {
    k == "projects" || k == "activeProjectId" || k == "lastDirectory"
  }

  /**
   * The document is always an object afterwards: the other settings survive,
   * `activeProjectId` is the returned id and `lastDirectory` the path.
   */
  lemma UpsertSettingsShape(settings: Value, path: string, now: int, freshId: string)
    ensures var (next, id) := Upserted(settings, path, now, freshId);
      && next.Object?
      && next.fields.Keys == SettingsFields(settings).Keys + {"projects", "activeProjectId", "lastDirectory"}
      && (forall k :: k in SettingsFields(settings) && !UpdatedKey(k) ==> next.fields[k] == SettingsFields(settings)[k])
      && next.fields["activeProjectId"] == Str(id)
      && next.fields["lastDirectory"] == Str(path)
      && next.fields["projects"].Array?
  {
  }

  /** The projects of the updated document. */
  function ProjectsAfter(settings: Value, path: string, now: int, freshId: string): seq<Value> {
    ProjectsOf(Upserted(settings, path, now, freshId).0)
  }

  /**
   * A known directory: the first project at the path is the one touched, the
   * list keeps its length, every other entry is left alone, the entry's
   * `lastOpenedAt` becomes `now`, and a string `id` it already has is kept
   * and returned; without one, the fresh id is stored and returned.
   */
  lemma UpsertKnownProject(settings: Value, path: string, now: int, freshId: string, i: nat)
    requires FirstProjectAt(ProjectsOf(settings), path) == Some(i)
    ensures var before := ProjectsOf(settings);
      var after := ProjectsAfter(settings, path, now, freshId);
      var id := Upserted(settings, path, now, freshId).1;
      && |after| == |before|
      && (forall j :: 0 <= j < |before| && j != i ==> after[j] == before[j])
      && after[i].Object?
      && after[i].fields.Keys == before[i].fields.Keys + {"lastOpenedAt", "id"}
      && (forall k :: k in before[i].fields && k != "lastOpenedAt" && k != "id" ==> after[i].fields[k] == before[i].fields[k])
      && after[i].fields["lastOpenedAt"] == Number(now)
      && after[i].fields["id"] == Str(id)
      && (GetStr(before[i], "id").Some? ==> id == GetStr(before[i], "id").value)
      && (GetStr(before[i], "id").None? ==> id == freshId)
  {
    ProjectAtIsObject(ProjectsOf(settings)[i], path);
  }

  /** An unknown directory: exactly one project is appended and the earlier ones are unchanged. */
  lemma UpsertNewProject(settings: Value, path: string, now: int, freshId: string)
    requires FirstProjectAt(ProjectsOf(settings), path).None?
    ensures var after := ProjectsAfter(settings, path, now, freshId);
      && after == ProjectsOf(settings) + [NewProject(freshId, path, now)]
      && Upserted(settings, path, now, freshId).1 == freshId
  {
  }

  /**
   * The replacement of a matching entry that is not an object can never
   * happen: an entry matches only through its `path` member, which only an
   * object has.
   */
  lemma MatchIsNeverReplaced(projects: seq<Value>, path: string, now: int, freshId: string)
    requires FirstProjectAt(projects, path).Some?
    ensures projects[FirstProjectAt(projects, path).value].Object?
  {
    ProjectAtIsObject(projects[FirstProjectAt(projects, path).value], path);
  }

  /** After the update, looking the path up finds a project whose id is the active one. */
  lemma {:induction false} UpsertFindsActiveProject(settings: Value, path: string, now: int, freshId: string)
    ensures var (next, id) := Upserted(settings, path, now, freshId);
      var after := ProjectsOf(next);
      && FirstProjectAt(after, path).Some?
      && GetStr(after[FirstProjectAt(after, path).value], "id") == Some(id)
  {
    var before := ProjectsOf(settings);
    var after := ProjectsAfter(settings, path, now, freshId);
    var found := FirstProjectAt(before, path);
    if found.Some? {
      var i := found.value;
      UpsertKnownProject(settings, path, now, freshId, i);
      ProjectAtIsObject(before[i], path);
      assert IsProjectAt(after[i], path);
      assert forall j :: 0 <= j < i ==> after[j] == before[j];
      FirstProjectAtIs(after, path, i);
    } else {
      UpsertNewProject(settings, path, now, freshId);
      assert forall j :: 0 <= j < |before| ==> after[j] == before[j];
      FirstProjectAtIs(after, path, |before|);
    }
  }

  /** The first project at `path` is at `i` when `i` holds one and nothing before it does. */
  lemma FirstProjectAtIs(projects: seq<Value>, path: string, i: nat)
    requires i < |projects| && IsProjectAt(projects[i], path)
    requires forall j :: 0 <= j < i ==> !IsProjectAt(projects[j], path)
    ensures FirstProjectAt(projects, path) == Some(i)
  {
  }

  /**
   * Opening the same directory again changes no membership: the list keeps its
   * length and the same project stays active, whatever the new time and fresh id.
   */
  lemma {:induction false} ReopenKeepsProject(settings: Value, path: string, now: int, freshId: string, later: int, otherId: string)
    ensures var (next, id) := Upserted(settings, path, now, freshId);
      var (again, id2) := Upserted(next, path, later, otherId);
      && id2 == id
      && |ProjectsOf(again)| == |ProjectsOf(next)|
  {
    var (next, id) := Upserted(settings, path, now, freshId);
    UpsertFindsActiveProject(settings, path, now, freshId);
    var i := FirstProjectAt(ProjectsOf(next), path).value;
    UpsertKnownProject(next, path, later, otherId, i);
  }

  /** What the command reports to the frontend. */
  datatype SelectionResult = SelectionResult(success: bool, path: Option<string>, projectId: Option<string>, error: Option<string>)

  /**
   * `process_directory_selection` on an already normalised path: a path that
   * does not exist or is not a directory is refused and the settings are left
   * alone; otherwise the settings are updated and the project's id reported.
   */
  method ProcessDirectorySelection(settings: Value, path: string, pathExists: bool, isDir: bool, now: int, freshId: string)
    returns (result: SelectionResult, next: Value)
    ensures !pathExists ==> result == SelectionResult(false, None, None, Some("Directory does not exist")) && next == settings
    ensures pathExists && !isDir ==> result == SelectionResult(false, None, None, Some("Path is not a directory")) && next == settings
    ensures pathExists && isDir ==> result.success && result.path == Some(path) && result.error.None?
    ensures pathExists && isDir ==>
      result.projectId == Some(Upserted(settings, path, now, freshId).1) && next == Upserted(settings, path, now, freshId).0
  {
    next := settings;
    if !pathExists {
      result := SelectionResult(false, None, None, Some("Directory does not exist"));
      return;
    }
    if !isDir {
      result := SelectionResult(false, None, None, Some("Path is not a directory"));
      return;
    }
    var id;
    next, id := UpsertProject(settings, path, now, freshId);
    result := SelectionResult(true, Some(path), Some(id), None);
  }
}
