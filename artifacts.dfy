/**
 * Creating, updating and deleting agents and commands (opencode_config.rs).
 * An entry is defined by a Markdown file (front matter plus body), by an
 * entry in the `agent`/`command` section of one of the JSON layers, or by
 * both; the two kinds differ only in their names (`Kind`).
 */
module Artifacts {
  import opened Wrappers
  import opened Text
  import opened Json
  import opened FileSystem
  import opened Markdown
  import opened ConfigPaths
  import opened ConfigLayers

  /** The requested changes, field by field; a null value asks for the field's removal. */
  type Updates = map<string, Value>

  /**
   * What the placement loop starts from: whether the definition file exists,
   * whether a new one is being created (a built-in entry overridden for the
   * first time), the JSON entry's fields and the parsed definition file.
   */
  datatype PlaceCtx = PlaceCtx(
    env: Env, contentField: string, mdExists: bool, creating: bool,
    entry0: map<string, Value>, md0: Option<MdData>)

  /** The Markdown data is present exactly when the file exists or is being created. */
  predicate ValidCtx(ctx: PlaceCtx) {
    ctx.md0.Some? <==> ctx.mdExists || ctx.creating
  }

  /**
   * The loop's result: the new JSON entry, the new Markdown data, whether each
   * changed, and the text to write to a referenced prompt file.
   */
  datatype Placement = Placement(
    entry: map<string, Value>, md: Option<MdData>,
    mdModified: bool, jsonModified: bool,
    contentFile: Option<(Path, string)>)

  function FmAt(md: Option<MdData>, f: string): Option<Value> {
    if md.Some? && f in md.value.frontmatter then Some(md.value.frontmatter[f]) else None
  }

  function EntryAt(entry: map<string, Value>, f: string): Option<Value> {
    if f in entry then Some(entry[f]) else None
  }

  /** The JSON entry's content field, when it is a `{file:...}` reference. */
  function ContentRef(ctx: PlaceCtx): Option<string> {
    var cf := ctx.contentField;
    if cf in ctx.entry0 && ctx.entry0[cf].Str? && IsPromptFileReference(ctx.entry0[cf].s) then Some(ctx.entry0[cf].s)
    else None
  }

  /** The update changes the front matter or the body. */
  predicate TouchesMd(ctx: PlaceCtx, f: string, v: Value) {
    if v == Null then ctx.mdExists && FmAt(ctx.md0, f).Some?
    else ctx.md0.Some? && (f == ctx.contentField || f !in ctx.entry0)
  }

  /** The update changes the JSON entry. */
  predicate TouchesJson(ctx: PlaceCtx, f: string, v: Value) {
    if v == Null then f in ctx.entry0
    else if f == ctx.contentField then ctx.md0.None? && ContentRef(ctx).None?
    else f in ctx.entry0 || ctx.md0.None?
  }

  /** The JSON entry holds a `{file:...}` reference that does not resolve, and there is no Markdown data. */
  predicate UnresolvableRef(ctx: PlaceCtx) {
    ctx.md0.None? && ContentRef(ctx).Some? && ResolvePromptFilePath(ctx.env, ContentRef(ctx).value).None?
  }

  /** The update sets the content field. */
  predicate SetsContent(ctx: PlaceCtx, f: string, v: Value) {
    v != Null && f == ctx.contentField
  }

  /**
   * Where one field update lands:
   * - null removes the field from the JSON entry, and from the front matter
   *   when the definition file existed;
   * - the content field becomes the Markdown body when there is Markdown data,
   *   else the text of the referenced prompt file when the JSON entry holds a
   *   `{file:...}` reference, else an inline JSON string;
   * - any other field already in the JSON entry is updated there and left
   *   alone in the front matter;
   * - any other new field goes to the front matter when there is Markdown
   *   data, else to the JSON entry.
   */
  predicate FieldPlaced(ctx: PlaceCtx, f: string, v: Value, p: Placement) {
    var cf := ctx.contentField;
    if v == Null then
      && EntryAt(p.entry, f).None?
      && (ctx.mdExists ==> FmAt(p.md, f).None?)
      && (!ctx.mdExists ==> FmAt(p.md, f) == FmAt(ctx.md0, f))
    else if f == cf then
      && FmAt(p.md, f) == FmAt(ctx.md0, f)
      && (ctx.md0.Some? ==> p.md.Some? && p.md.value.body == StrOrEmpty(v) && EntryAt(p.entry, f) == EntryAt(ctx.entry0, f))
      && (ctx.md0.None? && ContentRef(ctx).Some? ==>
            && ResolvePromptFilePath(ctx.env, ContentRef(ctx).value).Some?
            && p.contentFile == Some((ResolvePromptFilePath(ctx.env, ContentRef(ctx).value).value, StrOrEmpty(v)))
            && EntryAt(p.entry, f) == EntryAt(ctx.entry0, f))
      && (ctx.md0.None? && ContentRef(ctx).None? ==> EntryAt(p.entry, f) == Some(Str(StrOrEmpty(v))))
    else if f in ctx.entry0 then
      EntryAt(p.entry, f) == Some(v) && FmAt(p.md, f) == FmAt(ctx.md0, f)
    else if ctx.md0.Some? then
      FmAt(p.md, f) == Some(v) && EntryAt(p.entry, f).None?
    else
      EntryAt(p.entry, f) == Some(v)
  }

  /** The body and the prompt-file text, which only the content field may change. */
  predicate SameContent(p: Placement, q: Placement) {
    p.contentFile == q.contentFile && p.md.Some? == q.md.Some? && (p.md.Some? ==> p.md.value.body == q.md.value.body)
  }

  /** Where a field is placed depends only on that field's slots (and the content, for the content field). */
  lemma FieldPlacedFrame(ctx: PlaceCtx, g: string, w: Value, p0: Placement, p: Placement)
    requires FieldPlaced(ctx, g, w, p0)
    requires EntryAt(p.entry, g) == EntryAt(p0.entry, g) && FmAt(p.md, g) == FmAt(p0.md, g)
    requires g == ctx.contentField ==> SameContent(p0, p)
    ensures FieldPlaced(ctx, g, w, p)
  {
  }

  /** The state the loop starts from. */
  function Initial(ctx: PlaceCtx): Placement {
    Placement(ctx.entry0, ctx.md0, false, false, None)
  }

  /** The whole specification of the placement loop for a set of updates. */
  ghost predicate PlacementSpec(ctx: PlaceCtx, updates: Updates, p: Placement) {
    && (p.md.Some? <==> ctx.md0.Some?)
    && (forall f :: f in updates ==> FieldPlaced(ctx, f, updates[f], p))
    && (forall f :: f !in updates ==> EntryAt(p.entry, f) == EntryAt(ctx.entry0, f) && FmAt(p.md, f) == FmAt(ctx.md0, f))
    && (ctx.contentField !in updates ==> SameContent(p, Initial(ctx)))
    && (p.contentFile.Some? ==> ctx.md0.None? && ContentRef(ctx).Some?)
    && (p.mdModified <==> AnyTouchesMd(ctx, updates))
    && (p.jsonModified <==> AnyTouchesJson(ctx, updates))
  }

  /** Some update changes the front matter or the body. */
  ghost predicate AnyTouchesMd(ctx: PlaceCtx, updates: Updates) {
    exists f :: f in updates && TouchesMd(ctx, f, updates[f])
  }

  /** Some update changes the JSON entry. */
  ghost predicate AnyTouchesJson(ctx: PlaceCtx, updates: Updates) {
    exists f :: f in updates && TouchesJson(ctx, f, updates[f])
  }

  lemma AnyTouchesStep(ctx: PlaceCtx, done: Updates, f: string, v: Value)
    requires f !in done
    ensures AnyTouchesMd(ctx, done[f := v]) <==> AnyTouchesMd(ctx, done) || TouchesMd(ctx, f, v)
    ensures AnyTouchesJson(ctx, done[f := v]) <==> AnyTouchesJson(ctx, done) || TouchesJson(ctx, f, v)
  {
    var done' := done[f := v];
    if TouchesMd(ctx, f, v) {
      assert f in done' && TouchesMd(ctx, f, done'[f]);
    }
    if TouchesJson(ctx, f, v) {
      assert f in done' && TouchesJson(ctx, f, done'[f]);
    }
    if AnyTouchesMd(ctx, done) {
      var g :| g in done && TouchesMd(ctx, g, done[g]);
      assert g in done' && TouchesMd(ctx, g, done'[g]);
    }
    if AnyTouchesJson(ctx, done) {
      var g :| g in done && TouchesJson(ctx, g, done[g]);
      assert g in done' && TouchesJson(ctx, g, done'[g]);
    }
    if AnyTouchesMd(ctx, done') {
      var g :| g in done' && TouchesMd(ctx, g, done'[g]);
      if g != f { assert g in done && TouchesMd(ctx, g, done[g]); }
    }
    if AnyTouchesJson(ctx, done') {
      var g :| g in done' && TouchesJson(ctx, g, done'[g]);
      if g != f { assert g in done && TouchesJson(ctx, g, done[g]); }
    }
  }

  /** The slots of `f` in `p0` are still those the loop started from. */
  predicate Untouched(ctx: PlaceCtx, p0: Placement, f: string) {
    && ValidCtx(ctx) && (p0.md.Some? <==> ctx.md0.Some?)
    && EntryAt(p0.entry, f) == EntryAt(ctx.entry0, f) && FmAt(p0.md, f) == FmAt(ctx.md0, f)
    && (f == ctx.contentField ==> p0.contentFile.None?)
  }

  /** A null value: the field leaves the JSON entry, and the front matter when the file existed. */
  method RemoveField(ctx: PlaceCtx, p0: Placement, f: string) returns (p: Placement)
    requires Untouched(ctx, p0, f)
    ensures FieldPlaced(ctx, f, Null, p)
    ensures (p.md.Some? <==> p0.md.Some?)
    ensures forall g :: g != f ==> EntryAt(p.entry, g) == EntryAt(p0.entry, g) && FmAt(p.md, g) == FmAt(p0.md, g)
    ensures (p.contentFile.Some? ==> p0.contentFile.Some? || (ctx.md0.None? && ContentRef(ctx).Some?))
    ensures (p.mdModified <==> p0.mdModified || TouchesMd(ctx, f, Null))
    ensures (p.jsonModified <==> p0.jsonModified || TouchesJson(ctx, f, Null))
    ensures SameContent(p0, p)
  {
    p := p0;
    if ctx.mdExists && p.md.Some? && f in p.md.value.frontmatter {
      p := p.(md := Some(p.md.value.(frontmatter := p.md.value.frontmatter - {f})), mdModified := true);
    }
    if f in p.entry {
      p := p.(entry := p.entry - {f}, jsonModified := true);
    }
  }

  /** The content field: the body, the referenced prompt file, or an inline string. */
  method PlaceContent(ctx: PlaceCtx, p0: Placement, v: Value) returns (p: Placement, err: Option<Error>)
    requires v != Null && Untouched(ctx, p0, ctx.contentField)
    ensures err.Some? <==> UnresolvableRef(ctx)
    ensures err.Some? ==> err.value == InvalidReference
    ensures err.None? ==> FieldPlaced(ctx, ctx.contentField, v, p)
    ensures err.None? ==> (p.md.Some? <==> p0.md.Some?)
    ensures err.None? ==> forall g :: g != ctx.contentField ==> EntryAt(p.entry, g) == EntryAt(p0.entry, g) && FmAt(p.md, g) == FmAt(p0.md, g)
    ensures err.None? ==> (p.contentFile.Some? ==> p0.contentFile.Some? || (ctx.md0.None? && ContentRef(ctx).Some?))
    ensures err.None? ==> (p.mdModified <==> p0.mdModified || TouchesMd(ctx, ctx.contentField, v))
    ensures err.None? ==> (p.jsonModified <==> p0.jsonModified || TouchesJson(ctx, ctx.contentField, v))
  {
    p, err := p0, None;
    var f := ctx.contentField;
    var text := StrOrEmpty(v);
    var reference := ContentRef(ctx);
    if ctx.mdExists || ctx.creating {
      p := p.(md := Some(p.md.value.(body := text)), mdModified := true);
    } else if reference.Some? {
      var target := ResolvePromptFilePath(ctx.env, reference.value);
      if target.None? {
        err := Some(InvalidReference);
        return;
      }
      p := p.(contentFile := Some((target.value, text)));
    } else {
      p := p.(entry := p.entry[f := Str(text)], jsonModified := true);
    }
  }

  /** Any other field: where it already is in the JSON entry, else the front matter if there is one, else the JSON entry. */
  method PlaceOther(ctx: PlaceCtx, p0: Placement, f: string, v: Value) returns (p: Placement)
    requires v != Null && f != ctx.contentField && Untouched(ctx, p0, f)
    ensures FieldPlaced(ctx, f, v, p)
    ensures (p.md.Some? <==> p0.md.Some?)
    ensures forall g :: g != f ==> EntryAt(p.entry, g) == EntryAt(p0.entry, g) && FmAt(p.md, g) == FmAt(p0.md, g)
    ensures (p.contentFile.Some? ==> p0.contentFile.Some? || (ctx.md0.None? && ContentRef(ctx).Some?))
    ensures (p.mdModified <==> p0.mdModified || TouchesMd(ctx, f, v))
    ensures (p.jsonModified <==> p0.jsonModified || TouchesJson(ctx, f, v))
    ensures SameContent(p0, p)
  {
    p := p0;
    var inMd := p.md.Some? && f in p.md.value.frontmatter;
    var inJson := f in p.entry;
    if inJson {
      p := p.(entry := p.entry[f := v], jsonModified := true);
    } else if inMd || ctx.creating {
      p := p.(md := Some(p.md.value.(frontmatter := p.md.value.frontmatter[f := v])), mdModified := true);
    } else if (ctx.mdExists || ctx.creating) && p.md.Some? {
      p := p.(md := Some(p.md.value.(frontmatter := p.md.value.frontmatter[f := v])), mdModified := true);
    } else {
      p := p.(entry := p.entry[f := v], jsonModified := true);
    }
  }

  /** One iteration of the per-field loop, by the kind of update. */
  method PlaceField(ctx: PlaceCtx, p0: Placement, f: string, v: Value) returns (p: Placement, err: Option<Error>)
    requires Untouched(ctx, p0, f)
    ensures err.Some? <==> SetsContent(ctx, f, v) && UnresolvableRef(ctx)
    ensures err.Some? ==> err.value == InvalidReference
    ensures err.None? ==> FieldPlaced(ctx, f, v, p)
    ensures err.None? ==> (p.md.Some? <==> p0.md.Some?)
    ensures err.None? ==> forall g :: g != f ==> EntryAt(p.entry, g) == EntryAt(p0.entry, g) && FmAt(p.md, g) == FmAt(p0.md, g)
    ensures err.None? ==> (p.contentFile.Some? ==> p0.contentFile.Some? || (ctx.md0.None? && ContentRef(ctx).Some?))
    ensures err.None? ==> (p.mdModified <==> p0.mdModified || TouchesMd(ctx, f, v))
    ensures err.None? ==> (p.jsonModified <==> p0.jsonModified || TouchesJson(ctx, f, v))
    ensures err.None? && f != ctx.contentField ==> SameContent(p0, p)
  {
    err := None;
    if v == Null {
      p := RemoveField(ctx, p0, f);
    } else if f == ctx.contentField {
      p, err := PlaceContent(ctx, p0, v);
    } else {
      p := PlaceOther(ctx, p0, f, v);
    }
  }

  /** Before the loop reaches a field, its slots are those it started from. */
  lemma UntouchedBefore(ctx: PlaceCtx, done: Updates, f: string, p0: Placement)
    requires ValidCtx(ctx) && PlacementSpec(ctx, done, p0) && f !in done
    ensures Untouched(ctx, p0, f)
  {
  }

  /** Fields placed earlier stay placed when a different field is placed next. */
  lemma FieldsPlacedStep(ctx: PlaceCtx, done: Updates, f: string, v: Value, done': Updates, p0: Placement, p: Placement)
    requires f !in done && done' == done[f := v]
    requires forall g :: g in done ==> FieldPlaced(ctx, g, done[g], p0)
    requires FieldPlaced(ctx, f, v, p)
    requires forall g :: g != f ==> EntryAt(p.entry, g) == EntryAt(p0.entry, g) && FmAt(p.md, g) == FmAt(p0.md, g)
    requires f != ctx.contentField ==> SameContent(p0, p)
    ensures forall g :: g in done' ==> FieldPlaced(ctx, g, done'[g], p)
  {
    forall g | g in done' ensures FieldPlaced(ctx, g, done'[g], p) {
      if g != f {
        FieldPlacedFrame(ctx, g, done[g], p0, p);
      }
    }
  }

  /** One more field placed extends the specification to the larger set of updates. */
  lemma PlacementStep(ctx: PlaceCtx, done: Updates, f: string, v: Value, p0: Placement, p: Placement)
    requires PlacementSpec(ctx, done, p0) && f !in done
    requires FieldPlaced(ctx, f, v, p)
    requires p.md.Some? <==> p0.md.Some?
    requires forall g :: g != f ==> EntryAt(p.entry, g) == EntryAt(p0.entry, g) && FmAt(p.md, g) == FmAt(p0.md, g)
    requires p.contentFile.Some? ==> p0.contentFile.Some? || (ctx.md0.None? && ContentRef(ctx).Some?)
    requires p.mdModified <==> p0.mdModified || TouchesMd(ctx, f, v)
    requires p.jsonModified <==> p0.jsonModified || TouchesJson(ctx, f, v)
    requires f != ctx.contentField ==> SameContent(p0, p)
    ensures PlacementSpec(ctx, done[f := v], p)
  {
    FieldsPlacedStep(ctx, done, f, v, done[f := v], p0, p);
    AnyTouchesStep(ctx, done, f, v);
  }

  /**
   * The per-field loop of `update_agent` / `update_command`: every update
   * placed, in no particular order (the source iterates over a hash map),
   * stopping at the first error. The referenced prompt file is not written
   * here but recorded in `contentFile`; the caller writes it before anything
   * else, which leaves the same files behind since the loop writes nothing
   * else.
   */
  method PlaceFields(ctx: PlaceCtx, updates: Updates) returns (p: Placement, err: Option<Error>)
    requires ValidCtx(ctx)
    ensures err.Some? <==> UnresolvableRef(ctx) && ctx.contentField in updates && updates[ctx.contentField] != Null
    ensures err.Some? ==> err.value == InvalidReference
    ensures err.None? ==> PlacementSpec(ctx, updates, p)
  {
    p := Initial(ctx);
    err := None;
    var todo := updates.Keys;
    assert updates - todo == map[];
    while todo != {}
      invariant todo <= updates.Keys
      invariant UnresolvableRef(ctx) ==> !(ctx.contentField in updates - todo && updates[ctx.contentField] != Null)
      invariant PlacementSpec(ctx, updates - todo, p)
      decreases todo
    {
      var f :| f in todo;
      var v := updates[f];
      UntouchedBefore(ctx, updates - todo, f, p);
      var p0 := p;
      var e;
      p, e := PlaceField(ctx, p0, f, v);
      if e.Some? {
        err := e;
        return;
      }
      PlacementStep(ctx, updates - todo, f, v, p0, p);
      assert (updates - todo)[f := v] == updates - (todo - {f});
      todo := todo - {f};
    }
    assert updates - todo == updates;
  }

  /** A built-in entry overridden for the first time goes wholly to the new definition file. */
  lemma BuiltinOverrideKeepsJson(ctx: PlaceCtx, updates: Updates, p: Placement)
    requires ctx.entry0 == map[] && ctx.md0.Some? && PlacementSpec(ctx, updates, p)
    ensures !p.jsonModified && p.entry == map[]
  {
    forall f | f in p.entry ensures f in updates && FieldPlaced(ctx, f, updates[f], p) {
      assert EntryAt(p.entry, f).Some?;
    }
    assert p.entry.Keys == {};
  }

}
