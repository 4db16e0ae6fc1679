/**
 * `remove_provider_config` (opencode_config.rs): a provider is removed from
 * both the `provider` and the `providers` section of one configuration layer,
 * and a section left empty is dropped.
 */
module Providers {
  import opened Wrappers
  import opened Text
  import opened Json
  import opened FileSystem
  import opened ConfigPaths
  import opened ConfigLayers

  /** The two section names a provider may be configured under. */
  predicate IsProviderSection(key: string) {
    key == "provider" || key == "providers"
  }

  /**
   * What removal does to one section `key` of `doc`, giving `v`: a section
   * that did not hold the provider is kept as it was; one that did loses it,
   * and disappears when nothing else was in it.
   */
  predicate SectionAfterRemoval(doc: Value, v: Value, key: string, id: string)
    requires v.Object?
  {
    if SectionEntry(doc, key, id).None? then
      && (key in v.fields <==> key in FieldsOrEmpty(doc))
      && (key in v.fields ==> v.fields[key] == doc.fields[key])
    else
      && doc.Object? && key in doc.fields && doc.fields[key].Object?
      && (key in v.fields <==> doc.fields[key].fields.Keys != {id})
      && (key in v.fields ==> v.fields[key] == Object(doc.fields[key].fields - {id}))
  }

  /** The provider is gone from a section after removal, whichever case applied. */
  lemma RemovalIsComplete(doc: Value, v: Value, key: string, id: string)
    requires v.Object? && SectionAfterRemoval(doc, v, key, id)
    ensures SectionEntry(v, key, id).None?
  {
    SectionEntryUnfold(doc, key, id);
    SectionEntryUnfold(v, key, id);
  }

  /** The path of the layer a scope names; the project and custom paths may be unavailable. */
  function ScopePath(paths: LayerPaths, scope: LayerId): (r: Option<Path>)
    ensures scope == UserLayer ==> r == Some(paths.user)
    ensures scope == ProjectLayer ==> r == paths.project
    ensures scope == CustomLayer ==> r == paths.custom
  {
    match scope
    case UserLayer => Some(paths.user)
    case ProjectLayer => paths.project
    case CustomLayer => paths.custom
  }

  /** The layer document `remove_provider_config` edits: the one read from the scope's path. */
  function TargetDoc(layers: Layers, scope: LayerId): Value
    requires ScopePath(layers.paths, scope).Some?
  {
    LayerValue(layers, LayerFor(layers, ScopePath(layers.paths, scope).value))
  }

  /** One section's removal, as the source performs it on the document in place. */
  method RemoveFromSection(config: Value, key: string, id: string) returns (next: Value, removed: bool, dropKey: bool)
    ensures removed <==> SectionEntry(config, key, id).Some?
    ensures !removed ==> next == config && !dropKey
    ensures removed ==> config.Object? && key in config.fields && config.fields[key].Object?
    ensures removed ==> next == Object(config.fields[key := Object(config.fields[key].fields - {id})])
    ensures removed ==> (dropKey <==> config.fields[key].fields.Keys == {id})
  {
    next, removed, dropKey := config, false, false;
    var r := RemoveEntry(config, key, id);
    if r.Some? {
      next, removed := r.value, true;
      var section := r.value.fields[key].fields;
      assert section == config.fields[key].fields - {id};
      dropKey := section == map[];
      assert dropKey <==> config.fields[key].fields.Keys == {id} by {
        if section == map[] {
          assert forall n :: n in config.fields[key].fields ==> n == id;
        } else {
          var n :| n in section;
          assert n in config.fields[key].fields && n != id;
        }
      }
    }
  }

  /** What removing provider `id` from `doc` gives `v`: both sections handled, everything else kept. */
  ghost predicate ProviderRemoved(doc: Value, v: Value, id: string) {
    && doc.Object? && v.Object?
    && SectionAfterRemoval(doc, v, "provider", id)
    && SectionAfterRemoval(doc, v, "providers", id)
    && (forall k :: !IsProviderSection(k) ==> (k in v.fields <==> k in doc.fields))
    && (forall k :: !IsProviderSection(k) && k in v.fields ==> v.fields[k] == doc.fields[k])
  }

  /**
   * The in-place edit of the layer document: the provider removed from both
   * sections, then the sections left empty dropped.
   */
  method StripProvider(doc: Value, id: string) returns (config: Value, removed: bool)
    ensures removed <==> SectionEntry(doc, "provider", id).Some? || SectionEntry(doc, "providers", id).Some?
    ensures !removed ==> config == doc
    ensures removed ==> ProviderRemoved(doc, config, id)
  {
    var inProvider, dropProvider, inProviders, dropProviders;
    config, inProvider, dropProvider := RemoveFromSection(doc, "provider", id);
    ghost var afterProvider := config;
    config, inProviders, dropProviders := RemoveFromSection(config, "providers", id);
    SectionEntryUnfold(doc, "providers", id);
    SectionEntryUnfold(afterProvider, "providers", id);
    removed := inProvider || inProviders;
    if !removed {
      return;
    }
    if dropProvider {
      config := Object(config.fields - {"provider"});
    }
    if dropProviders {
      config := Object(config.fields - {"providers"});
    }
  }

  /**
   * `remove_provider_config`: the provider is removed from the `provider` and
   * `providers` sections of the scope's layer document, empty sections are
   * dropped, and the document is written back. Reports whether anything was
   * removed; nothing is written when nothing was.
   */
  method RemoveProviderConfig(fs0: FS, env: Env, wd: Option<Path>, id: string, scope: LayerId)
    returns (fs: FS, err: Option<Error>, removed: bool)
    ensures IsBlank(id) ==> err == Some(MissingId) && fs == fs0
    ensures err.None? ==> !IsBlank(id) && ReadConfigLayers(fs0, env, wd).Ok? && ScopePath(ReadConfigLayers(fs0, env, wd).value.paths, scope).Some?
    ensures !IsBlank(id) && ReadConfigLayers(fs0, env, wd).Ok? && ScopePath(ReadConfigLayers(fs0, env, wd).value.paths, scope).None? ==>
      err == Some(PathUnavailable) && fs == fs0
    ensures err.None? ==>
      var doc := TargetDoc(ReadConfigLayers(fs0, env, wd).value, scope);
      removed <==> SectionEntry(doc, "provider", id).Some? || SectionEntry(doc, "providers", id).Some?
    ensures err.None? && !removed ==> fs == fs0
    ensures err.None? && removed ==>
      var layers := ReadConfigLayers(fs0, env, wd).value;
      var target := ScopePath(layers.paths, scope).value;
      target in fs.files && fs.files[target].Doc? && ProviderRemoved(TargetDoc(layers, scope), fs.files[target].value, id)
    ensures err.None? && removed ==>
      var target := ScopePath(ReadConfigLayers(fs0, env, wd).value.paths, scope).value;
      forall q :: q in fs0.files && q != target && Some(q) != BackupPath(target) ==> q in fs.files && fs.files[q] == fs0.files[q]
  {
    fs, err, removed := fs0, None, false;
    if IsBlank(id) {
      err := Some(MissingId);
      return;
    }
    var layersRead := ReadConfigLayers(fs0, env, wd);
    if layersRead.Err? {
      err := Some(layersRead.error);
      return;
    }
    var layers := layersRead.value;
    var targetPath := ScopePath(layers.paths, scope);
    if targetPath.None? {
      err := Some(PathUnavailable);
      return;
    }
    var config;
    config, removed := StripProvider(TargetDoc(layers, scope), id);
    if !removed {
      return;
    }
    var written := WriteConfigAt(fs, config, targetPath.value);
    if written.Err? {
      err := Some(written.error);
      return;
    }
    fs := written.value;
  }

  /** Removing a provider a second time finds nothing to remove. */
  lemma RemovalIdempotent(doc: Value, v: Value, id: string)
    requires ProviderRemoved(doc, v, id)
    ensures SectionEntry(v, "provider", id).None? && SectionEntry(v, "providers", id).None?
  {
    RemovalIsComplete(doc, v, "provider", id);
    RemovalIsComplete(doc, v, "providers", id);
  }
}
