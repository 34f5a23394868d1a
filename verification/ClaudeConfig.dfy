/**
 How a Claude home is templated: which paths are configuration, what of
 .claude.json is compared and folded back, and what promoting each path settles.
 */
module ClaudeConfig {
  import opened Bytes
  import opened CfgHome
  import opened PathRewrite

  /** Decoding `null` into a map succeeds and leaves no map. */
  datatype Document = Object(members: map<string, bytes>) | Null

  /** The JSON package: opaque, except that encoding reads back. */
  datatype Json = Json(decode: bytes -> Option<Document>, encode: Document -> bytes)

  ghost predicate Lawful(json: Json) {
    forall d :: json.decode(json.encode(d)) == Some(d)
  }

  const CONFIG_KEYS: seq<string> := ["mcpServers", "model"]

  function Members(d: Document): map<string, bytes> {
    if d.Object? then d.members else map[]
  }

  /** seedClaudeJSON */
  function SeedJson(json: Json, b: bytes): bytes {
    var d := json.decode(b);
    if d.None? then b
    else json.encode(if d.value.Object? then Object(d.value.members - {"projects"}) else Null)
  }

  function Projected(m: map<string, bytes>): map<string, bytes> {
    map k | k in m && k in CONFIG_KEYS :: m[k]
  }

  /** normalizeClaudeJSON */
  function NormalizeJson(json: Json, b: bytes): bytes {
    var d := json.decode(b);
    if d.None? then b else json.encode(Object(Projected(Members(d.value))))
  }

  function Folded(into: map<string, bytes>, from: map<string, bytes>): map<string, bytes> {
    map k | k in into.Keys + from.Keys && (if k in CONFIG_KEYS then k in from else k in into)
      :: if k in CONFIG_KEYS then from[k] else into[k]
  }

  /** mergeClaudeJSON; None is the assignment into the missing map that a `null` template decodes to. */
  function MergeJson(json: Json, template: bytes, copy: bytes): Option<bytes> {
    var dst, src := json.decode(template), json.decode(copy);
    if src.None? then Some(template)
    else
      var from := Members(src.value);
      if dst.None? then Some(json.encode(Object(Folded(map[], from))))
      else if dst.value.Object? then Some(json.encode(Object(Folded(dst.value.members, from))))
      else if Projected(from) != map[] then None
      else Some(json.encode(Null))
  }

  /** The projection as the source builds it, key by key. */
  method ProjectKeys(m: map<string, bytes>) returns (keep: map<string, bytes>)
    ensures keep == Projected(m)
  {
    keep := map[];
    for i := 0 to |CONFIG_KEYS|
      invariant keep == map k | k in m && k in CONFIG_KEYS[..i] :: m[k]
    {
      var key := CONFIG_KEYS[i];
      assert CONFIG_KEYS[..i + 1] == CONFIG_KEYS[..i] + [key];
      if key in m { keep := keep[key := m[key]]; }
    }
    assert CONFIG_KEYS[..|CONFIG_KEYS|] == CONFIG_KEYS;
  }

  /** The fold as the source does it: assign the keys the copy has, delete the ones it lacks. */
  method FoldKeys(into: map<string, bytes>, from: map<string, bytes>) returns (out: map<string, bytes>)
    ensures out == Folded(into, from)
  {
    out := into;
    for i := 0 to |CONFIG_KEYS|
      invariant forall k :: At(out, k) == if k in CONFIG_KEYS[..i] then At(from, k) else At(into, k)
    {
      var key := CONFIG_KEYS[i];
      assert CONFIG_KEYS[..i + 1] == CONFIG_KEYS[..i] + [key];
      if key in from { out := out[key := from[key]]; } else { out := out - {key}; }
    }
    assert CONFIG_KEYS[..|CONFIG_KEYS|] == CONFIG_KEYS;
    SameAt(out, Folded(into, from));
  }

  lemma FoldedProjects(into: map<string, bytes>, from: map<string, bytes>)
    ensures Projected(Folded(into, from)) == Projected(from)
  {
    forall k ensures At(Projected(Folded(into, from)), k) == At(Projected(from), k) {}
    SameAt(Projected(Folded(into, from)), Projected(from));
  }

  lemma ProjectsIsNotConfig(m: map<string, bytes>)
    ensures Projected(m - {"projects"}) == Projected(m)
  {
    assert "projects"[0] == 'p' && "mcpServers"[0] == 'm' && "model"[0] == 'm';
    assert "projects" !in CONFIG_KEYS;
    forall k ensures At(Projected(m - {"projects"}), k) == At(Projected(m), k) {}
    SameAt(Projected(m - {"projects"}), Projected(m));
  }

  /** Seeding is invisible to the comparison. */
  lemma SeedJsonIsInvisible(json: Json, b: bytes)
    requires Lawful(json)
    ensures NormalizeJson(json, SeedJson(json, b)) == NormalizeJson(json, b)
  {
    var d := json.decode(b);
    if d.Some? && d.value.Object? { ProjectsIsNotConfig(d.value.members); }
  }

  /** Two readable files compare equal exactly when they agree on every configuration key. */
  lemma ComparesConfigKeysOnly(json: Json, a: bytes, b: bytes)
    requires Lawful(json) && json.decode(a).Some? && json.decode(b).Some?
    ensures NormalizeJson(json, a) == NormalizeJson(json, b) <==>
            forall k :: k in CONFIG_KEYS ==> At(Members(json.decode(a).value), k) == At(Members(json.decode(b).value), k)
  {
    var m, n := Members(json.decode(a).value), Members(json.decode(b).value);
    if NormalizeJson(json, a) == NormalizeJson(json, b) {
      assert json.decode(NormalizeJson(json, a)) == json.decode(NormalizeJson(json, b));
      assert Projected(m) == Projected(n);
      forall k | k in CONFIG_KEYS ensures At(m, k) == At(n, k) {
        assert At(m, k) == At(Projected(m), k) && At(n, k) == At(Projected(n), k);
      }
    }
    if forall k :: k in CONFIG_KEYS ==> At(m, k) == At(n, k) {
      forall k ensures At(Projected(m), k) == At(Projected(n), k) {}
      SameAt(Projected(m), Projected(n));
    }
  }

  /** The user's own keys survive a promotion unchanged. */
  lemma MergeKeepsStateKeys(json: Json, t: bytes, c: bytes, k: string)
    requires Lawful(json) && MergeJson(json, t, c).Some? && json.decode(t).Some? && k !in CONFIG_KEYS
    ensures var merged := json.decode(MergeJson(json, t, c).value);
            merged.Some? && At(Members(merged.value), k) == At(Members(json.decode(t).value), k)
  {
  }

  /** The merge stops the process: the template is `null` and the copy has a configuration key to assign into it. */
  predicate Stops(json: Json, t: bytes, c: bytes) {
    json.decode(t) == Some(Null) && json.decode(c).Some? && exists k :: k in CONFIG_KEYS && k in Members(json.decode(c).value)
  }

  lemma MergeStopsIff(json: Json, t: bytes, c: bytes)
    ensures MergeJson(json, t, c).None? <==> Stops(json, t, c)
  {
    if json.decode(c).Some? {
      var m := Members(json.decode(c).value);
      if exists k :: k in CONFIG_KEYS && k in m {
        var k :| k in CONFIG_KEYS && k in m;
        assert k in Projected(m);
      } else {
        assert Projected(m) == map[];
      }
    }
  }

  /** When promoting settles .claude.json: the merge completes, and the copy is readable or both are the same unreadable bytes. */
  predicate Settles(json: Json, t: bytes, c: bytes) {
    !Stops(json, t, c) && (json.decode(c).Some? || (json.decode(t).None? && t == c))
  }

  lemma MergeSettlesIff(json: Json, t: bytes, c: bytes)
    requires Lawful(json)
    ensures Settles(json, t, c) <==>
            && MergeJson(json, t, c).Some?
            && NormalizeJson(json, SeedJson(json, MergeJson(json, t, c).value)) == NormalizeJson(json, c)
  {
    MergeStopsIff(json, t, c);
    if MergeJson(json, t, c).Some? {
      var merged := MergeJson(json, t, c).value;
      SeedJsonIsInvisible(json, merged);
      var dst, src := json.decode(t), json.decode(c);
      if src.Some? {
        var from := Members(src.value);
        if dst.None? { FoldedProjects(map[], from); }
        else if dst.value.Object? { FoldedProjects(dst.value.members, from); }
        else { assert Projected(map[]) == map[]; }
      } else if dst.Some? {
        assert json.decode(NormalizeJson(json, t)).Some?;
      }
    }
  }

  // ---- the spec ------------------------------------------------------------------------

  const CLAUDE_JSON := ".claude.json"

  const PLAIN: seq<string> :=
    ["CLAUDE.md", "keybindings.json", "statusline-command.sh", "commands", "skills", "agents", "hooks", "output-styles", "plugins"]

  const SETTINGS: seq<string> := ["settings.json", "settings.local.json"]

  function SettingsEntry(rel: string, template: bytes, copy: bytes): Entry
    requires template != [] && copy != []
  {
    Entry(rel, Some((b: bytes) => ReplaceAll(b, template, copy)), Some((b: bytes) => ReplaceAll(b, copy, template)), None)
  }

  function JsonEntry(json: Json): Entry {
    Entry(CLAUDE_JSON, Some((b: bytes) => SeedJson(json, b)), Some((b: bytes) => NormalizeJson(json, b)),
          Some((t: bytes, c: bytes) => MergeJson(json, t, c)))
  }

  function Entries(json: Json, template: bytes, copy: bytes): seq<Entry>
    requires template != [] && copy != []
  {
    [JsonEntry(json), SettingsEntry("settings.json", template, copy), SettingsEntry("settings.local.json", template, copy)]
    + seq(|PLAIN|, i requires 0 <= i < |PLAIN| => Entry(PLAIN[i], None, None, None))
  }

  /** Template: no path is shared, since every workload follows central authentication. */
  function Template(json: Json, template: bytes, copy: bytes, digest: bytes -> string): Spec
    requires template != [] && copy != []
  {
    Spec(Entries(json, template, copy), {}, digest)
  }

  const NAMES: seq<string> := [CLAUDE_JSON] + SETTINGS + PLAIN

  lemma NamesAt(i: nat)
    requires i < |NAMES|
    ensures '/' !in NAMES[i] && NAMES[i] != []
  {
  }

  lemma UnderHasSlash(dir: string, path: string)
    requires Under(dir, path)
    ensures '/' in path
  {
    assert path[|dir|] == '/';
  }

  lemma NamesDiffer(i: nat, j: nat)
    requires i < j < |NAMES|
    ensures NAMES[i] != NAMES[j]
  {
    assert NAMES[1][9] == 'j' && NAMES[2][9] == 'l';
  }

  /** No configured path lies inside another, so a fresh Claude home scans clean. */
  lemma EntriesDoNotOverlap(json: Json, template: bytes, copy: bytes)
    requires template != [] && copy != []
    ensures NoOverlap(Entries(json, template, copy))
  {
    var es := Entries(json, template, copy);
    forall i, j | 0 <= i < |es| && 0 <= j < |es| && i != j ensures !CoveredBy(es[i], es[j].rel) {
      assert es[i].rel == NAMES[i] && es[j].rel == NAMES[j];
      NamesAt(j);
      NamesDiffer(if i < j then i else j, if i < j then j else i);
      if Under(es[i].rel, es[j].rel) { UnderHasSlash(es[i].rel, es[j].rel); }
    }
  }

  /** Which transforms a path gets: .claude.json its own, the settings files the rewriting, all others none. */
  lemma FileEntryOf(json: Json, template: bytes, copy: bytes, digest: bytes -> string, rel: string)
    requires template != [] && copy != []
    ensures var e := FileEntry(Template(json, template, copy, digest), rel);
            if rel == CLAUDE_JSON then e == Some(JsonEntry(json))
            else if rel in SETTINGS then e == Some(SettingsEntry(rel, template, copy))
            else e.None? || (e.value.seed.None? && e.value.normalize.None? && e.value.merge.None?)
  {
    var es := Entries(json, template, copy);
    EntriesDoNotOverlap(json, template, copy);
    FindsOwnEntry(es, 0);
    FindsOwnEntry(es, 1);
    FindsOwnEntry(es, 2);
    EntryForIsFirst(es, rel);
    hide EntryFor;
    var e := FileEntry(Template(json, template, copy, digest), rel);
    if e.Some? && rel != CLAUDE_JSON && rel !in SETTINGS {
      var k :| 0 <= k < |es| && es[k] == e.value;
      assert es[k].rel == NAMES[k];
    }
  }

  ghost predicate CollisionFree(digest: bytes -> string) {
    forall a, b :: digest(a) == digest(b) ==> a == b
  }

  /** The template side's bytes as Promote hands them to the merge: empty when there is no such file. */
  function TemplateBytes(template: Tree, rel: string): bytes {
    if rel in template then template[rel] else []
  }

  /** A promotion that the file system allows goes through for every path but a .claude.json whose merge stops. */
  lemma PromotionFailsIff(
      json: Json, templateDir: bytes, copyDir: bytes, digest: bytes -> string, template: Tree, copy: Tree, rel: string)
    requires templateDir != [] && copyDir != [] && TreeOk(template) && TreeOk(copy)
    requires !Lookup(template, rel).Fault? && !Lookup(copy, rel).Fault?
    ensures PromoteTree(Template(json, templateDir, copyDir, digest), template, copy, rel).None? <==>
            rel == CLAUDE_JSON && rel in copy && Stops(json, TemplateBytes(template, rel), copy[rel])
  {
    LookupAgreesWithTree(template, rel);
    LookupAgreesWithTree(copy, rel);
    FileEntryOf(json, templateDir, copyDir, digest, rel);
    hide FileEntry, EntryFor, MergeJson, Stops, Template;
    if rel in copy { MergeStopsIff(json, TemplateBytes(template, rel), copy[rel]); }
  }

  /** After a promotion only .claude.json can stay listed, and exactly when its copy does not settle. */
  lemma PromotionLeavesListedIff(
      json: Json, templateDir: bytes, copyDir: bytes, digest: bytes -> string, template: Tree, copy: Tree, rel: string)
    requires Lawful(json) && CollisionFree(digest) && templateDir != [] && copyDir != []
    requires rel in SETTINGS ==> Apart(templateDir, copyDir)
    requires TreeOk(template) && TreeOk(copy)
    requires Templated(Template(json, templateDir, copyDir, digest), rel)
    ensures var sp := Template(json, templateDir, copyDir, digest);
            var promoted := PromoteTree(sp, template, copy, rel);
            promoted.Some? ==>
              (Diverged(sp, rel, CopySnapshot(sp, copy), TemplateSnapshot(sp, promoted.value)) <==>
               rel == CLAUDE_JSON && rel in copy && !Settles(json, TemplateBytes(template, rel), copy[rel]))
  {
    var sp := Template(json, templateDir, copyDir, digest);
    if PromoteTree(sp, template, copy, rel).Some? {
      PromoteSettlesIff(sp, template, copy, rel);
      LookupAgreesWithTree(template, rel);
      LookupAgreesWithTree(copy, rel);
      FileEntryOf(json, templateDir, copyDir, digest, rel);
      hide FileEntry, EntryFor, Lookup, MergeJson, SeedJson, NormalizeJson, Settles, ReplaceAll, Diverged, CopySnapshot, TemplateSnapshot, Template;
      if rel in copy {
        var c, t := copy[rel], TemplateBytes(template, rel);
        var written := Promoted(sp, template, rel, c).value;
        assert sp.digest == digest by { SpecDigest(json, templateDir, copyDir, digest); }
        if rel == CLAUDE_JSON {
          MergeSettlesIff(json, t, c);
        } else if rel in SETTINGS {
          RewriteIsInvisible(c, templateDir, copyDir);
        }
      }
    }
  }

  lemma SpecDigest(json: Json, template: bytes, copy: bytes, digest: bytes -> string)
    requires template != [] && copy != []
    ensures Template(json, template, copy, digest).digest == digest
  {
  }

  /** An unreadable .claude.json stays listed after its promotion: the template is written back as it was. */
  lemma UnreadableCopyStaysListed(json: Json, t: bytes, c: bytes)
    requires Lawful(json) && json.decode(t).Some? && json.decode(c).None?
    ensures MergeJson(json, t, c) == Some(t)
    ensures NormalizeJson(json, SeedJson(json, t)) != NormalizeJson(json, c)
  {
    MergeSettlesIff(json, t, c);
  }

  /** A `null` template stops the promotion of any copy that has a model or an MCP server. */
  lemma NullTemplateStopsMerge(json: Json, model: bytes)
    requires Lawful(json)
    ensures MergeJson(json, json.encode(Null), json.encode(Object(map["model" := model]))).None?
  {
    var m := map["model" := model];
    assert CONFIG_KEYS[1] == "model" && "model" in m;
    assert Members(Object(m)) == m;
    MergeStopsIff(json, json.encode(Null), json.encode(Object(m)));
  }
}
