/**
 The three-way comparison of a harness's configuration: the user's template, the
 agent's private copy, and the baseline recorded when they last agreed. Trees are
 maps from relative path to the bytes of a regular file.
 */
module CfgHome {
  import opened Bytes
  import opened Text

  type Tree = map<string, bytes>
  type Digests = map<string, string>

  /** One templated path; the optional transforms apply to a file entry itself. */
  datatype Entry = Entry(
    rel: string,
    seed: Option<bytes -> bytes>,
    normalize: Option<bytes -> bytes>,
    merge: Option<(bytes, bytes) -> Option<bytes>>)

  /** digest stands for the hex SHA-256 of normalized content. */
  datatype Spec = Spec(entries: seq<Entry>, shared: set<string>, digest: bytes -> string)

  predicate Under(dir: string, path: string) {
    dir + "/" <= path
  }

  predicate CoveredBy(e: Entry, rel: string) {
    e.rel == rel || Under(e.rel, rel)
  }

  /** entryFor: the first entry that covers rel. */
  function EntryFor(entries: seq<Entry>, rel: string): Option<Entry> {
    if entries == [] then None
    else if CoveredBy(entries[0], rel) then Some(entries[0])
    else EntryFor(entries[1..], rel)
  }

  predicate Templated(sp: Spec, rel: string) {
    EntryFor(sp.entries, rel).Some?
  }

  /** The file entry of rel itself, whose transforms apply. */
  function FileEntry(sp: Spec, rel: string): Option<Entry> {
    var e := EntryFor(sp.entries, rel);
    if e.Some? && e.value.rel == rel then e else None
  }

  function Seeded(sp: Spec, rel: string, b: bytes): bytes {
    var e := FileEntry(sp, rel);
    if e.Some? && e.value.seed.Some? then e.value.seed.value(b) else b
  }

  function Normalized(sp: Spec, rel: string, b: bytes): bytes {
    var e := FileEntry(sp, rel);
    if e.Some? && e.value.normalize.Some? then e.value.normalize.value(b) else b
  }

  /** hashDestinationBytes */
  function CopyDigest(sp: Spec, rel: string, b: bytes): string {
    sp.digest(Normalized(sp, rel, b))
  }

  /** hashFile on the template side: as a fresh seed would make it. */
  function TemplateDigest(sp: Spec, rel: string, b: bytes): string {
    sp.digest(Normalized(sp, rel, Seeded(sp, rel, b)))
  }

  function CopySnapshot(sp: Spec, copy: Tree): Digests {
    map p | p in copy && Templated(sp, p) :: CopyDigest(sp, p, copy[p])
  }

  function TemplateSnapshot(sp: Spec, template: Tree): Digests {
    map p | p in template && Templated(sp, p) :: TemplateDigest(sp, p, template[p])
  }

  function At<T>(m: map<string, T>, rel: string): Option<T> {
    if rel in m then Some(m[rel]) else None
  }

  // ---- classification ------------------------------------------------------------------

  datatype Status = AgentChanged | AgentAdded | AgentRemoved | TemplateChanged | Conflict

  datatype Change = Change(rel: string, status: Status, inCopy: bool, inTemplate: bool)

  /** Scan's switch for a path whose sides differ. */
  function Classify(base: Option<string>, c: Option<string>, t: Option<string>): Status {
    if base.None? then
      if c.Some? && t.None? then AgentAdded
      else if c.None? && t.Some? then TemplateChanged
      else Conflict
    else if c.Some? && c.value == base.value then TemplateChanged
    else if t.Some? && t.value == base.value then (if c.Some? then AgentChanged else AgentRemoved)
    else Conflict
  }

  /** A status names the side that left the baseline, and for the agent what it did. */
  lemma StatusNamesTheSideThatMoved(base: Option<string>, c: Option<string>, t: Option<string>)
    requires c != t
    ensures var st := Classify(base, c, t);
            && (st == TemplateChanged <==> c == base)
            && (st in {AgentAdded, AgentChanged, AgentRemoved} <==> t == base)
            && (st == Conflict <==> c != base && t != base)
            && (st == AgentAdded <==> t == base && base.None?)
            && (st == AgentRemoved <==> t == base && c.None?)
  {
  }

  function ChangeAt(rel: string, base: Option<string>, c: Option<string>, t: Option<string>): Change {
    Change(rel, Classify(base, c, t), c.Some?, t.Some?)
  }

  predicate Diverged(sp: Spec, rel: string, c: Digests, t: Digests) {
    rel !in sp.shared && At(c, rel) != At(t, rel)
  }

  predicate Belongs(sp: Spec, base: Digests, c: Digests, t: Digests, ch: Change) {
    Diverged(sp, ch.rel, c, t) && ch == ChangeAt(ch.rel, At(base, ch.rel), At(c, ch.rel), At(t, ch.rel))
  }

  /** The list holds one change for exactly the diverged paths, in path order. */
  ghost predicate Lists(sp: Spec, base: Digests, c: Digests, t: Digests, out: seq<Change>) {
    && (forall ch :: ch in out <==> Belongs(sp, base, c, t, ch))
    && Sorted(out)
  }

  /** The baseline moves to the common content at every unshared path where both sides agree. */
  function Advanced(sp: Spec, base: Digests, c: Digests, t: Digests): Digests {
    map p | p in base.Keys + c.Keys && (if p in sp.shared || At(c, p) != At(t, p) then p in base else p in c)
      :: if p in sp.shared || At(c, p) != At(t, p) then base[p] else c[p]
  }

  lemma BaselineMovesExactlyWhereSidesAgree(sp: Spec, base: Digests, c: Digests, t: Digests, p: string)
    ensures At(Advanced(sp, base, c, t), p) == if p !in sp.shared && At(c, p) == At(t, p) then At(c, p) else At(base, p)
  {
  }

  // ---- order ------------------------------------------------------------------------------

  predicate Sorted(s: seq<Change>) {
    forall i, j :: 0 <= i < j < |s| ==> Before(s[i].rel, s[j].rel)
  }

  function Insert(s: seq<Change>, ch: Change): seq<Change> {
    if s == [] || Before(ch.rel, s[0].rel) then [ch] + s else [s[0]] + Insert(s[1..], ch)
  }

  /** sort.Slice by path, as an insertion sort. */
  function Sort(s: seq<Change>): seq<Change> {
    if s == [] then [] else Insert(Sort(s[..|s| - 1]), s[|s| - 1])
  }

  lemma {:induction false} InsertKeeps(s: seq<Change>, ch: Change)
    requires Sorted(s) && forall x :: x in s ==> x.rel != ch.rel
    ensures Sorted(Insert(s, ch)) && forall x :: x in Insert(s, ch) <==> x in s || x == ch
  {
    if s != [] {
      BeforeTotal(ch.rel, s[0].rel);
      if Before(ch.rel, s[0].rel) {
        forall j | 0 <= j < |s| ensures Before(ch.rel, s[j].rel) {
          if j > 0 { BeforeTrans(ch.rel, s[0].rel, s[j].rel); }
        }
      } else {
        assert s[0] in s;
        InsertKeeps(s[1..], ch);
        var rest := Insert(s[1..], ch);
        forall j | 0 <= j < |rest| ensures Before(s[0].rel, rest[j].rel) {
          assert rest[j] in rest;
          if rest[j] != ch { var k :| 0 <= k < |s[1..]| && s[1..][k] == rest[j]; }
        }
        assert s == [s[0]] + s[1..];
      }
    }
  }

  ghost predicate DistinctPaths(s: seq<Change>) {
    forall i, j :: 0 <= i < j < |s| ==> s[i].rel != s[j].rel
  }

  lemma {:induction false} SortKeeps(s: seq<Change>)
    requires DistinctPaths(s)
    ensures Sorted(Sort(s)) && forall x :: x in Sort(s) <==> x in s
  {
    if s != [] {
      var init, x := s[..|s| - 1], s[|s| - 1];
      SortKeeps(init);
      assert forall y :: y in init ==> y.rel != x.rel;
      assert forall y :: y in s <==> y in init || y == x;
      InsertKeeps(Sort(init), x);
    }
  }

  /** A path-ordered list is determined by its members, so no map order shows in it. */
  lemma {:induction false} SortedIsUnique(a: seq<Change>, b: seq<Change>)
    requires Sorted(a) && Sorted(b) && forall x :: x in a <==> x in b
    ensures a == b
  {
    assert (a != [] ==> a[0] in a) && (b != [] ==> b[0] in b);
    if a != [] {
      HeadsAgree(a, b);
      HeadsAgree(b, a);
      BeforeTotal(a[0].rel, b[0].rel);
      TailMembers(a, b);
      SortedIsUnique(a[1..], b[1..]);
      assert a == [a[0]] + a[1..] && b == [b[0]] + b[1..];
    }
  }

  lemma HeadsAgree(a: seq<Change>, b: seq<Change>)
    requires a != [] && b != [] && Sorted(b) && forall x :: x in a <==> x in b
    ensures a[0] == b[0] || Before(b[0].rel, a[0].rel)
  {
    assert a[0] in b;
    var k :| 0 <= k < |b| && b[k] == a[0];
  }

  lemma TailMembers(a: seq<Change>, b: seq<Change>)
    requires a != [] && b != [] && a[0] == b[0] && Sorted(a) && Sorted(b) && forall x :: x in a <==> x in b
    ensures forall x :: x in a[1..] <==> x in b[1..]
  {
    HeadNotInTail(a);
    HeadNotInTail(b);
    assert a == [a[0]] + a[1..] && b == [b[0]] + b[1..];
    forall x ensures x in a[1..] <==> x in b[1..] {
      assert x in a <==> x == a[0] || x in a[1..];
      assert x in b <==> x == b[0] || x in b[1..];
    }
  }

  lemma HeadNotInTail(a: seq<Change>)
    requires a != [] && Sorted(a)
    ensures a[0] !in a[1..]
  {
    BeforeTotal(a[0].rel, a[0].rel);
    assert forall i :: 0 <= i < |a[1..]| ==> a[1..][i] == a[i + 1];
  }

  /** Scanning is a function of the three sides: any two correct lists are the same list. */
  lemma ListIsUnique(sp: Spec, base: Digests, c: Digests, t: Digests, a: seq<Change>, b: seq<Change>)
    requires Lists(sp, base, c, t, a) && Lists(sp, base, c, t, b)
    ensures a == b
  {
    hide Sorted, Classify;
    SortedIsUnique(a, b);
  }

  /** A second scan with no edits in between returns the same list: the first only settled agreed paths. */
  lemma SecondScanRepeatsTheFirst(sp: Spec, base: Digests, c: Digests, t: Digests, a: seq<Change>, b: seq<Change>)
    requires Lists(sp, base, c, t, a) && Lists(sp, Advanced(sp, base, c, t), c, t, b)
    ensures a == b
    ensures Advanced(sp, Advanced(sp, base, c, t), c, t) == Advanced(sp, base, c, t)
  {
    hide Sorted, Classify, Advanced;
    var base' := Advanced(sp, base, c, t);
    forall p ensures At(Advanced(sp, base', c, t), p) == At(base', p)
    {
      BaselineMovesExactlyWhereSidesAgree(sp, base, c, t, p);
      BaselineMovesExactlyWhereSidesAgree(sp, base', c, t, p);
    }
    SameAt(Advanced(sp, base', c, t), base');
    forall ch ensures ch in b <==> ch in a
    {
      BaselineMovesExactlyWhereSidesAgree(sp, base, c, t, ch.rel);
    }
    SortedIsUnique(a, b);
  }

  lemma SameAt<T>(m: map<string, T>, n: map<string, T>)
    requires forall p :: At(m, p) == At(n, p)
    ensures m == n
  {
    assert forall p :: p in m <==> At(m, p).Some?;
    assert forall p :: p in n <==> At(n, p).Some?;
    assert forall p :: p in m ==> At(m, p) == Some(m[p]);
    assert forall p :: p in n ==> At(n, p) == Some(n[p]);
  }

  // ---- trees -----------------------------------------------------------------------------

  /** A path is a file or a directory, never both. */
  ghost predicate TreeOk(tree: Tree) {
    forall p, q :: p in tree && q in tree ==> !Under(p, q)
  }

  predicate IsDirectory(tree: Tree, rel: string) {
    exists p :: p in tree && Under(rel, p)
  }

  predicate BelowFile(tree: Tree, rel: string) {
    exists p :: p in tree && Under(p, rel)
  }

  datatype Found = File(content: bytes) | Missing | Fault

  /** What reading or removing rel meets: a directory, or a file above it, is a fault and not absence. */
  function Lookup(tree: Tree, rel: string): Found {
    if IsDirectory(tree, rel) || BelowFile(tree, rel) then Fault
    else if rel in tree then File(tree[rel])
    else Missing
  }

  lemma LookupAgreesWithTree(tree: Tree, rel: string)
    requires TreeOk(tree)
    ensures Lookup(tree, rel).File? <==> rel in tree
    ensures Lookup(tree, rel).Missing? ==> rel !in tree
  {
  }

  // ---- seeding ---------------------------------------------------------------------------

  function SeededBy(e: Entry, p: string, b: bytes): bytes {
    if p == e.rel && e.seed.Some? then e.seed.value(b) else b
  }

  /** seedEntry: the entry's own file through its transform, a directory's files as they are. */
  function SeedEntry(e: Entry, template: Tree): Tree {
    map p | p in template && CoveredBy(e, p)
      :: SeededBy(e, p, template[p])
  }

  lemma SeedsTemplatePaths(e: Entry, template: Tree)
    ensures SeedEntry(e, template).Keys <= template.Keys
  {
  }

  function SeedEntries(entries: seq<Entry>, template: Tree): Tree {
    if entries == [] then map[] else SeedEntries(entries[..|entries| - 1], template) + SeedEntry(entries[|entries| - 1], template)
  }

  /** No entry repeats or lies inside another. */
  ghost predicate NoOverlap(entries: seq<Entry>) {
    forall i, j :: 0 <= i < |entries| && 0 <= j < |entries| && i != j ==> !CoveredBy(entries[i], entries[j].rel)
  }

  /** The copy a seed makes: every templated file, each as Seeded says. */
  function SeedTree(sp: Spec, template: Tree): Tree {
    map p | p in template && Templated(sp, p) :: Seeded(sp, p, template[p])
  }

  /** entries[i] covers rel and nothing before it does. */
  predicate FirstAt(entries: seq<Entry>, rel: string, i: nat) {
    i < |entries| && CoveredBy(entries[i], rel) && forall j :: 0 <= j < i ==> !CoveredBy(entries[j], rel)
  }

  lemma {:induction false} EntryForIsFirst(entries: seq<Entry>, rel: string)
    ensures EntryFor(entries, rel).Some? <==> exists i :: 0 <= i < |entries| && CoveredBy(entries[i], rel)
    ensures EntryFor(entries, rel).Some? ==> exists i: nat :: FirstAt(entries, rel, i) && EntryFor(entries, rel) == Some(entries[i])
  {
    hide CoveredBy;
    if entries != [] && !CoveredBy(entries[0], rel) {
      EntryForIsFirst(entries[1..], rel);
      if EntryFor(entries[1..], rel).Some? {
        var i: nat :| FirstAt(entries[1..], rel, i) && EntryFor(entries[1..], rel) == Some(entries[1..][i]);
        assert FirstAt(entries, rel, i + 1);
      } else {
        forall i | 0 <= i < |entries| ensures !CoveredBy(entries[i], rel) {
          if i > 0 { assert entries[1..][i - 1] == entries[i]; }
        }
      }
    } else if entries != [] {
      assert FirstAt(entries, rel, 0);
    }
  }

  /** Two prefixes of one path are comparable, so two entries covering a path overlap. */
  lemma CoversOnce(a: Entry, b: Entry, rel: string)
    requires CoveredBy(a, rel) && CoveredBy(b, rel)
    ensures CoveredBy(a, b.rel) || CoveredBy(b, a.rel)
  {
    var x, y := a.rel + "/", b.rel + "/";
    if |a.rel| < |b.rel| {
      assert rel[..|x|] == x;
      assert b.rel == rel[..|b.rel|];
      assert x == b.rel[..|x|];
    } else if |b.rel| < |a.rel| {
      assert rel[..|y|] == y;
      assert a.rel == rel[..|a.rel|];
      assert y == a.rel[..|y|];
    } else {
      assert a.rel == rel[..|a.rel|] && b.rel == rel[..|b.rel|];
    }
  }

  /** The last entry that covers rel: the one whose copy a seed leaves. */
  function LastFor(entries: seq<Entry>, rel: string): Option<Entry> {
    if entries == [] then None
    else if CoveredBy(entries[|entries| - 1], rel) then Some(entries[|entries| - 1])
    else LastFor(entries[..|entries| - 1], rel)
  }

  lemma {:induction false} LastForCovers(entries: seq<Entry>, rel: string)
    ensures LastFor(entries, rel).Some? <==> exists i :: 0 <= i < |entries| && CoveredBy(entries[i], rel)
    ensures LastFor(entries, rel).Some? ==> exists i :: 0 <= i < |entries| && CoveredBy(entries[i], rel) && LastFor(entries, rel) == Some(entries[i])
  {
    hide CoveredBy;
    if entries != [] && !CoveredBy(entries[|entries| - 1], rel) {
      var init := entries[..|entries| - 1];
      LastForCovers(init, rel);
      assert forall i :: 0 <= i < |init| ==> init[i] == entries[i];
    }
  }

  /** Without overlap a path has one entry, so the first and the last are the same. */
  lemma OneEntryCovers(entries: seq<Entry>, rel: string)
    requires NoOverlap(entries)
    ensures LastFor(entries, rel) == EntryFor(entries, rel)
  {
    hide EntryFor, LastFor, CoveredBy;
    EntryForIsFirst(entries, rel);
    LastForCovers(entries, rel);
    if EntryFor(entries, rel).Some? {
      var i: nat :| FirstAt(entries, rel, i) && EntryFor(entries, rel) == Some(entries[i]);
      var j :| 0 <= j < |entries| && CoveredBy(entries[j], rel) && LastFor(entries, rel) == Some(entries[j]);
      CoversOnce(entries[i], entries[j], rel);
    }
  }

  /** A seed leaves each templated file as its last entry makes it. */
  lemma {:induction false} SeedEntriesAt(entries: seq<Entry>, template: Tree, p: string)
    ensures At(SeedEntries(entries, template), p) ==
            if p in template && LastFor(entries, p).Some? then Some(SeededBy(LastFor(entries, p).value, p, template[p])) else None
  {
    if entries != [] {
      hide CoveredBy, SeededBy;
      SeedEntriesAt(entries[..|entries| - 1], template, p);
    }
  }

  /** Without overlap an entry covers its own path, and is the entry found for it. */
  lemma FindsOwnEntry(entries: seq<Entry>, i: nat)
    requires i < |entries| && NoOverlap(entries)
    ensures EntryFor(entries, entries[i].rel) == Some(entries[i])
  {
    hide EntryFor;
    EntryForIsFirst(entries, entries[i].rel);
    assert CoveredBy(entries[i], entries[i].rel);
  }

  lemma SeedMakesTheTree(sp: Spec, template: Tree)
    requires NoOverlap(sp.entries)
    ensures SeedEntries(sp.entries, template) == SeedTree(sp, template)
  {
    forall p ensures At(SeedEntries(sp.entries, template), p) == At(SeedTree(sp, template), p) {
      SeedEntriesAt(sp.entries, template, p);
      OneEntryCovers(sp.entries, p);
    }
    SameAt(SeedEntries(sp.entries, template), SeedTree(sp, template));
  }

  /** A freshly seeded copy compares equal to its template everywhere. */
  lemma SeedIsClean(sp: Spec, template: Tree)
    requires NoOverlap(sp.entries)
    ensures CopySnapshot(sp, SeedEntries(sp.entries, template)) == TemplateSnapshot(sp, template)
  {
    SeedMakesTheTree(sp, template);
    hide SeedEntries, EntryFor;
  }

  /** A seed leaves p as comparing expects: its last entry's copy and its first entry's comparison agree. */
  predicate SeedsClean(sp: Spec, p: string, b: bytes) {
    LastFor(sp.entries, p).Some? ==> CopyDigest(sp, p, SeededBy(LastFor(sp.entries, p).value, p, b)) == TemplateDigest(sp, p, b)
  }

  /** With any entries, overlapping or not, the fresh copy is clean exactly when it is clean path by path. */
  lemma SeedIsCleanIff(sp: Spec, template: Tree)
    ensures CopySnapshot(sp, SeedEntries(sp.entries, template)) == TemplateSnapshot(sp, template) <==>
            forall p :: p in template ==> SeedsClean(sp, p, template[p])
  {
    var c, t := CopySnapshot(sp, SeedEntries(sp.entries, template)), TemplateSnapshot(sp, template);
    forall p ensures At(c, p) == At(t, p) <==> (p in template ==> SeedsClean(sp, p, template[p])) {
      SeedCleanAt(sp, template, p);
    }
    hide CopySnapshot, TemplateSnapshot, SeedsClean, SeedEntries;
    if forall p :: p in template ==> SeedsClean(sp, p, template[p]) { SameAt(c, t); }
  }

  lemma SeedCleanAt(sp: Spec, template: Tree, p: string)
    ensures At(CopySnapshot(sp, SeedEntries(sp.entries, template)), p) == At(TemplateSnapshot(sp, template), p) <==>
            (p in template ==> SeedsClean(sp, p, template[p]))
  {
    SeedEntriesAt(sp.entries, template, p);
    EntryForIsFirst(sp.entries, p);
    LastForCovers(sp.entries, p);
    hide EntryFor, LastFor, CoveredBy, SeedEntries, CopyDigest, TemplateDigest, SeededBy;
  }

  /** Which entries seed a path dirty: two different ones cover it, and one of them is its own file entry with a seed. */
  lemma DirtySeedNeedsTwoEntries(sp: Spec, p: string, b: bytes)
    requires !SeedsClean(sp, p, b)
    ensures var first, last := EntryFor(sp.entries, p), LastFor(sp.entries, p);
            && first.Some? && last.Some? && first != last
            && ((first.value.rel == p && first.value.seed.Some?) || (last.value.rel == p && last.value.seed.Some?))
  {
    EntryForIsFirst(sp.entries, p);
    LastForCovers(sp.entries, p);
    hide EntryFor, LastFor, CoveredBy;
  }

  /** Such as a seeded file entry followed by its directory's: the directory's copy is left, untransformed. */
  lemma OverlapSeedsDirty(file: Entry, dir: Entry, digest: bytes -> string, b: bytes)
    requires Under(dir.rel, file.rel) && file.seed.Some? && file.normalize.None?
    requires digest(file.seed.value(b)) != digest(b)
    ensures var sp := Spec([file, dir], {}, digest);
            && !SeedsClean(sp, file.rel, b)
            && CopySnapshot(sp, SeedEntries(sp.entries, map[file.rel := b])) != TemplateSnapshot(sp, map[file.rel := b])
  {
    var sp := Spec([file, dir], {}, digest);
    assert CoveredBy(file, file.rel) && CoveredBy(dir, file.rel) && dir.rel != file.rel;
    assert EntryFor([file, dir], file.rel) == Some(file) && LastFor([file, dir], file.rel) == Some(dir);
    assert !SeedsClean(sp, file.rel, b) by { hide EntryFor, LastFor, CoveredBy; }
    hide SeedsClean, SeedEntries, EntryFor, LastFor, CopySnapshot, TemplateSnapshot;
    SeedIsCleanIff(sp, map[file.rel := b]);
  }

  // ---- promote and reset -----------------------------------------------------------------

  predicate Covered(sp: Spec, rel: string) {
    && rel != "" && rel != "." && !(".." <= rel) && !("/" <= rel)
    && (Templated(sp, rel) || rel in sp.shared)
  }

  /** Reset: the copy takes the template's file as a seed would, or drops the path. None is an error. */
  function ResetTree(sp: Spec, template: Tree, copy: Tree, rel: string): Option<Tree> {
    match Lookup(template, rel)
    case Fault => None
    case Missing => if Lookup(copy, rel).Fault? then None else Some(copy - {rel})
    case File(b) => if Lookup(copy, rel).Fault? then None else Some(copy[rel := Seeded(sp, rel, b)])
  }

  /** What Promote would write: the copy's bytes, merged into the template's where the entry says so. */
  function Promoted(sp: Spec, template: Tree, rel: string, b: bytes): Option<bytes> {
    var e := FileEntry(sp, rel);
    if e.Some? && e.value.merge.Some?
    then e.value.merge.value(match Lookup(template, rel) case File(t) => t case _ => [], b)
    else Some(b)
  }

  function PromoteTree(sp: Spec, template: Tree, copy: Tree, rel: string): Option<Tree> {
    match Lookup(copy, rel)
    case Fault => None
    case Missing => if Lookup(template, rel).Fault? then None else Some(template - {rel})
    case File(b) =>
      var merged := Promoted(sp, template, rel, b);
      if merged.None? || Lookup(template, rel).Fault? then None else Some(template[rel := merged.value])
  }

  /** settleDestination: the copy's content becomes the baseline of that path. */
  function Settled(sp: Spec, manifest: Option<Digests>, copy: Tree, rel: string): Digests {
    var m := if manifest.Some? then manifest.value else map[];
    match Lookup(copy, rel)
    case File(b) => m[rel := CopyDigest(sp, rel, b)]
    case _ => m - {rel}
  }

  lemma ResetSettles(sp: Spec, template: Tree, copy: Tree, rel: string)
    requires TreeOk(template) && TreeOk(copy) && ResetTree(sp, template, copy, rel).Some?
    ensures var copy' := ResetTree(sp, template, copy, rel).value;
            && TreeOk(copy')
            && !Diverged(sp, rel, CopySnapshot(sp, copy'), TemplateSnapshot(sp, template))
            && forall q :: q != rel ==> At(CopySnapshot(sp, copy'), q) == At(CopySnapshot(sp, copy), q)
  {
    hide EntryFor;
    LookupAgreesWithTree(template, rel);
    LookupAgreesWithTree(copy, rel);
  }

  /** Promoting leaves the path listed exactly when the written file, seeded again, compares unequal to the copy. */
  lemma PromoteSettlesIff(sp: Spec, template: Tree, copy: Tree, rel: string)
    requires TreeOk(template) && TreeOk(copy) && PromoteTree(sp, template, copy, rel).Some?
    requires rel !in sp.shared && Templated(sp, rel)
    ensures var template' := PromoteTree(sp, template, copy, rel).value;
            && TreeOk(template')
            && (Diverged(sp, rel, CopySnapshot(sp, copy), TemplateSnapshot(sp, template')) <==>
                rel in copy && TemplateDigest(sp, rel, Promoted(sp, template, rel, copy[rel]).value) != CopyDigest(sp, rel, copy[rel]))
            && forall q :: q != rel ==> At(TemplateSnapshot(sp, template'), q) == At(TemplateSnapshot(sp, template), q)
  {
    hide EntryFor;
    LookupAgreesWithTree(template, rel);
    LookupAgreesWithTree(copy, rel);
  }

  /** A change to one side of one path leaves every other line of the list as it was. */
  lemma OtherPathsKeepTheirChange(
      sp: Spec, base: Digests, c: Digests, t: Digests, base': Digests, c': Digests, t': Digests,
      rel: string, a: seq<Change>, b: seq<Change>)
    requires Lists(sp, base, c, t, a) && Lists(sp, base', c', t', b)
    requires forall q :: q != rel ==> At(base', q) == At(base, q) && At(c', q) == At(c, q) && At(t', q) == At(t, q)
    ensures forall ch: Change :: ch.rel != rel ==> (ch in b <==> ch in a)
    ensures !Diverged(sp, rel, c', t') ==> forall ch :: ch in b ==> ch.rel != rel
  {
    hide Sorted, Classify;
  }

  /** Scanning a freshly seeded copy lists nothing and leaves the baseline alone. */
  lemma FreshSeedScansClean(sp: Spec, template: Tree, out: seq<Change>)
    requires NoOverlap(sp.entries)
    requires var copy := CopySnapshot(sp, SeedEntries(sp.entries, template));
             Lists(sp, copy, copy, TemplateSnapshot(sp, template), out)
    ensures out == []
    ensures var copy := CopySnapshot(sp, SeedEntries(sp.entries, template));
            Advanced(sp, copy, copy, TemplateSnapshot(sp, template)) == copy
  {
    assert out != [] ==> out[0] in out;
    SeedIsClean(sp, template);
    var copy := CopySnapshot(sp, SeedEntries(sp.entries, template));
    hide SeedEntries, CopySnapshot, TemplateSnapshot, Sorted, Classify;
    SameAt(Advanced(sp, copy, copy, TemplateSnapshot(sp, template)), copy);
  }

  /** A copy whose lost baseline was adopted is never reported as edited by the agent. */
  lemma AdoptedCopyIsNotBlamed(sp: Spec, c: Digests, t: Digests, out: seq<Change>, ch: Change)
    requires Lists(sp, c, c, t, out) && ch in out
    ensures ch.status == TemplateChanged
  {
    hide Classify, Sorted;
    StatusNamesTheSideThatMoved(At(c, ch.rel), At(c, ch.rel), At(t, ch.rel));
  }

  lemma SettledAt(sp: Spec, m: Digests, copy: Tree, rel: string)
    ensures forall q :: q != rel ==> At(Settled(sp, Some(m), copy, rel), q) == At(m, q)
  {
  }

  /** After a reset the path leaves the list and every other line stays. */
  lemma ResetDropsItsLine(sp: Spec, m: Digests, template: Tree, copy: Tree, copy': Tree, rel: string, a: seq<Change>, b: seq<Change>)
    requires TreeOk(template) && TreeOk(copy) && ResetTree(sp, template, copy, rel) == Some(copy')
    requires Lists(sp, m, CopySnapshot(sp, copy), TemplateSnapshot(sp, template), a)
    requires Lists(sp, Settled(sp, Some(m), copy', rel), CopySnapshot(sp, copy'), TemplateSnapshot(sp, template), b)
    ensures forall ch :: ch in b <==> ch in a && ch.rel != rel
  {
    hide CopySnapshot, TemplateSnapshot, Lists, Settled, Diverged;
    ResetSettles(sp, template, copy, rel);
    SettledAt(sp, m, copy', rel);
    OtherPathsKeepTheirChange(
      sp, m, CopySnapshot(sp, copy), TemplateSnapshot(sp, template),
      Settled(sp, Some(m), copy', rel), CopySnapshot(sp, copy'), TemplateSnapshot(sp, template), rel, a, b);
  }

  /** After a promotion that keeps the file's law the path leaves the list and every other line stays. */
  lemma PromoteDropsItsLine(sp: Spec, m: Digests, template: Tree, template': Tree, copy: Tree, rel: string, a: seq<Change>, b: seq<Change>)
    requires TreeOk(template) && TreeOk(copy) && PromoteTree(sp, template, copy, rel) == Some(template')
    requires rel !in sp.shared && Templated(sp, rel)
    requires rel in copy ==> TemplateDigest(sp, rel, Promoted(sp, template, rel, copy[rel]).value) == CopyDigest(sp, rel, copy[rel])
    requires Lists(sp, m, CopySnapshot(sp, copy), TemplateSnapshot(sp, template), a)
    requires Lists(sp, Settled(sp, Some(m), copy, rel), CopySnapshot(sp, copy), TemplateSnapshot(sp, template'), b)
    ensures forall ch :: ch in b <==> ch in a && ch.rel != rel
  {
    hide CopySnapshot, TemplateSnapshot, Lists, Settled, Diverged;
    PromoteSettlesIff(sp, template, copy, rel);
    SettledAt(sp, m, copy, rel);
    OtherPathsKeepTheirChange(
      sp, m, CopySnapshot(sp, copy), TemplateSnapshot(sp, template),
      Settled(sp, Some(m), copy, rel), CopySnapshot(sp, copy), TemplateSnapshot(sp, template'), rel, a, b);
  }

  /** One change at most belongs to a path, and it belongs exactly when the path diverged. */
  lemma BelongsAt(sp: Spec, base: Digests, c: Digests, t: Digests, rel: string)
    ensures forall ch: Change :: ch.rel == rel ==>
              (Belongs(sp, base, c, t, ch) <==> Diverged(sp, rel, c, t) && ch == ChangeAt(rel, At(base, rel), At(c, rel), At(t, rel)))
    ensures forall ch: Change :: Belongs(sp, base, c, t, ch) ==> ch.rel in base || ch.rel in c || ch.rel in t
  {
    hide Classify;
  }

  /** What the pass has gathered once only the paths of todo remain. */
  ghost predicate Gathered(sp: Spec, base: Digests, c: Digests, t: Digests, todo: set<string>, changes: seq<Change>) {
    && DistinctPaths(changes)
    && forall ch :: ch in changes <==> ch.rel !in todo && Belongs(sp, base, c, t, ch)
  }

  lemma GathersOne(sp: Spec, base: Digests, c: Digests, t: Digests, todo: set<string>, changes: seq<Change>, rel: string)
    requires rel in todo && Gathered(sp, base, c, t, todo, changes)
    ensures if Diverged(sp, rel, c, t)
            then Gathered(sp, base, c, t, todo - {rel}, changes + [ChangeAt(rel, At(base, rel), At(c, rel), At(t, rel))])
            else Gathered(sp, base, c, t, todo - {rel}, changes)
  {
    BelongsAt(sp, base, c, t, rel);
    hide Classify, Belongs, Diverged, At;
    if Diverged(sp, rel, c, t) {
      var ch := ChangeAt(rel, At(base, rel), At(c, rel), At(t, rel));
      assert forall x :: x in changes + [ch] <==> x in changes || x == ch;
    }
  }

  ghost predicate Moved(sp: Spec, base: Digests, c: Digests, t: Digests, todo: set<string>, files: Digests) {
    forall p :: At(files, p) == if p in todo then At(base, p) else At(Advanced(sp, base, c, t), p)
  }

  lemma MovesOne(sp: Spec, base: Digests, c: Digests, t: Digests, todo: set<string>, files: Digests, files': Digests, rel: string)
    requires rel in todo && Moved(sp, base, c, t, todo, files)
    requires forall p :: p != rel ==> At(files', p) == At(files, p)
    requires At(files', rel) == if rel !in sp.shared && At(c, rel) == At(t, rel) then At(c, rel) else At(base, rel)
    ensures Moved(sp, base, c, t, todo - {rel}, files')
  {
    hide At, Advanced;
    BaselineMovesExactlyWhereSidesAgree(sp, base, c, t, rel);
  }

  lemma NothingMoved(sp: Spec, base: Digests, c: Digests, t: Digests)
    ensures Moved(sp, base, c, t, base.Keys + c.Keys + t.Keys, base)
    ensures Gathered(sp, base, c, t, base.Keys + c.Keys + t.Keys, [])
  {
    forall p | p !in base.Keys + c.Keys + t.Keys ensures At(base, p) == At(Advanced(sp, base, c, t), p) {
      BaselineMovesExactlyWhereSidesAgree(sp, base, c, t, p);
    }
    BelongsAt(sp, base, c, t, "");
  }

  /** Scan's pass over every path any side knows, in whatever order the map yields them. */
  method Compare(sp: Spec, base: Digests, c: Digests, t: Digests) returns (files: Digests, changes: seq<Change>, converged: bool)
    ensures files == Advanced(sp, base, c, t) && (!converged ==> files == base)
    ensures DistinctPaths(changes)
    ensures forall ch :: ch in changes <==> Belongs(sp, base, c, t, ch)
  {
    hide Classify, Advanced, Belongs, DistinctPaths, Moved, Gathered;
    files, changes, converged := base, [], false;
    var todo := base.Keys + c.Keys + t.Keys;
    NothingMoved(sp, base, c, t);
    while todo != {}
      invariant Moved(sp, base, c, t, todo, files) && (!converged ==> files == base)
      invariant Gathered(sp, base, c, t, todo, changes)
      decreases |todo|
    {
      var rel :| rel in todo;
      ghost var files0 := files;
      GathersOne(sp, base, c, t, todo, changes, rel);
      MovedUntouched(sp, base, c, t, todo, files, rel);
      if rel !in sp.shared {
        if At(c, rel) == At(t, rel) {
          if At(base, rel) != At(c, rel) {
            files := if rel in c then files[rel := c[rel]] else files - {rel};
            converged := true;
          }
        } else {
          changes := changes + [ChangeAt(rel, At(base, rel), At(c, rel), At(t, rel))];
        }
      }
      MovesOne(sp, base, c, t, todo, files0, files, rel);
      todo := todo - {rel};
    }
    PassIsDone(sp, base, c, t, files, changes);
  }

  lemma MovedUntouched(sp: Spec, base: Digests, c: Digests, t: Digests, todo: set<string>, files: Digests, rel: string)
    requires rel in todo && Moved(sp, base, c, t, todo, files)
    ensures At(files, rel) == At(base, rel)
  {
  }

  lemma PassIsDone(sp: Spec, base: Digests, c: Digests, t: Digests, files: Digests, changes: seq<Change>)
    requires Moved(sp, base, c, t, {}, files) && Gathered(sp, base, c, t, {}, changes)
    ensures files == Advanced(sp, base, c, t) && DistinctPaths(changes)
    ensures forall ch :: ch in changes <==> Belongs(sp, base, c, t, ch)
  {
    hide Advanced;
    SameAt(files, Advanced(sp, base, c, t));
  }

  // ---- the configuration home --------------------------------------------------------------

  class ConfigHome {
    const sp: Spec
    var template: Tree
    var seeded: bool
    var copy: Tree
    /** None: the manifest cannot be read. */
    var manifest: Option<Digests>

    constructor (sp: Spec, template: Tree)
      requires TreeOk(template)
      ensures this.sp == sp && this.template == template && !seeded && copy == map[] && manifest == None
    {
      this.sp := sp;
      this.template, copy, seeded, manifest := template, map[], false, None;
    }

    ghost predicate Valid()
      reads this
    {
      TreeOk(template) && TreeOk(copy) && (!seeded ==> copy == map[])
    }

    /** A new home is seeded and clean; a seeded one keeps its copy and, if its baseline is lost, adopts it. */
    method Seed() returns (first: bool)
      requires Valid()
      modifies `seeded, `copy, `manifest
      ensures Valid() && seeded && first == !old(seeded)
      ensures first ==> copy == SeedEntries(sp.entries, template) && manifest == Some(CopySnapshot(sp, copy))
      ensures !first ==> copy == old(copy)
      ensures !first ==> manifest == if old(manifest).Some? then old(manifest) else Some(CopySnapshot(sp, copy))
    {
      hide SeedEntries, EntryFor, CopySnapshot;
      if seeded {
        if manifest.None? {
          var digests := SnapshotCopy();
          manifest := Some(digests);
        }
        return false;
      }
      var tree := CopyEntries();
      seeded, copy := true, tree;
      var digests := SnapshotCopy();
      manifest := Some(digests);
      return true;
    }

    /** seedEntry for each entry in turn. */
    method CopyEntries() returns (tree: Tree)
      ensures tree == SeedEntries(sp.entries, template) && tree.Keys <= template.Keys
    {
      hide SeedEntry;
      tree := map[];
      for i := 0 to |sp.entries|
        invariant tree == SeedEntries(sp.entries[..i], template) && tree.Keys <= template.Keys
      {
        assert sp.entries[..i + 1][..i] == sp.entries[..i];
        SeedsTemplatePaths(sp.entries[i], template);
        tree := tree + SeedEntry(sp.entries[i], template);
      }
      assert sp.entries[..|sp.entries|] == sp.entries;
    }

    /** snapshotDestination, entry by entry. */
    method SnapshotCopy() returns (out: Digests)
      ensures out == CopySnapshot(sp, copy)
    {
      out := map[];
      for i := 0 to |sp.entries|
        invariant forall p :: p in out <==> p in copy && exists j :: 0 <= j < i && CoveredBy(sp.entries[j], p)
        invariant forall p :: p in out ==> out[p] == CopyDigest(sp, p, copy[p])
      {
        out := out + map p | p in copy && CoveredBy(sp.entries[i], p) :: CopyDigest(sp, p, copy[p]);
      }
      forall p ensures At(out, p) == At(CopySnapshot(sp, copy), p) {
        EntryForIsFirst(sp.entries, p);
      }
      SameAt(out, CopySnapshot(sp, copy));
    }

    method SnapshotTemplate() returns (out: Digests)
      ensures out == TemplateSnapshot(sp, template)
    {
      out := map[];
      for i := 0 to |sp.entries|
        invariant forall p :: p in out <==> p in template && exists j :: 0 <= j < i && CoveredBy(sp.entries[j], p)
        invariant forall p :: p in out ==> out[p] == TemplateDigest(sp, p, template[p])
      {
        out := out + map p | p in template && CoveredBy(sp.entries[i], p) :: TemplateDigest(sp, p, template[p]);
      }
      forall p ensures At(out, p) == At(TemplateSnapshot(sp, template), p) {
        EntryForIsFirst(sp.entries, p);
      }
      SameAt(out, TemplateSnapshot(sp, template));
    }

    /** Scan: the exact, ordered list of diverged paths; recorded says whether the advanced manifest could be written. */
    method Scan(recorded: bool) returns (out: Option<seq<Change>>)
      requires Valid()
      modifies `manifest
      ensures !seeded ==> out == Some([]) && manifest == old(manifest)
      ensures seeded && old(manifest).None? ==> out == None && manifest == None
      ensures seeded && old(manifest).Some? ==>
                && out.Some?
                && Lists(sp, old(manifest).value, CopySnapshot(sp, copy), TemplateSnapshot(sp, template), out.value)
                && manifest == Some(if recorded then Advanced(sp, old(manifest).value, CopySnapshot(sp, copy), TemplateSnapshot(sp, template)) else old(manifest).value)
    {
      if !seeded { return Some([]); }
      if manifest.None? { return None; }
      var base, c, t := manifest.value, map[], map[];
      c := SnapshotCopy();
      t := SnapshotTemplate();
      var files, changes, converged := Compare(sp, base, c, t);
      if converged && recorded { manifest := Some(files); }
      out := Some(Sort(changes));
      hide Classify, Advanced, Sort, Sorted;
      SortKeeps(changes);
    }

    method Reset(rel: string, wrote: bool, recorded: bool) returns (ok: bool)
      requires Valid()
      modifies `seeded, `copy, `manifest
      ensures Valid() && seeded == (old(seeded) || rel in copy)
      ensures ok ==> Covered(sp, rel)
      ensures ok && rel !in sp.shared ==>
                && ResetTree(sp, template, old(copy), rel) == Some(copy)
                && manifest == Some(Settled(sp, old(manifest), copy, rel))
      ensures !ok || rel in sp.shared ==> manifest == old(manifest)
      ensures rel in sp.shared || !wrote ==> copy == old(copy)
      ensures Covered(sp, rel) && rel !in sp.shared && wrote && recorded && ResetTree(sp, template, old(copy), rel).Some? ==> ok
    {
      if !Covered(sp, rel) { return false; }
      if rel in sp.shared { return wrote; }
      var next := ResetTree(sp, template, copy, rel);
      if next.None? || !wrote { return false; }
      ResetSettles(sp, template, copy, rel);
      copy := next.value;
      if rel in copy { seeded := true; }
      if recorded { manifest := Some(Settled(sp, manifest, copy, rel)); }
      return recorded;
    }

    method Promote(rel: string, wrote: bool, recorded: bool) returns (ok: bool)
      requires Valid()
      modifies `template, `manifest
      ensures Valid()
      ensures ok ==> Covered(sp, rel) && rel !in sp.shared
      ensures ok ==>
                && PromoteTree(sp, old(template), copy, rel) == Some(template)
                && manifest == Some(Settled(sp, old(manifest), copy, rel))
      ensures !ok ==> manifest == old(manifest)
      ensures rel in sp.shared || !wrote ==> template == old(template)
      ensures Covered(sp, rel) && rel !in sp.shared && wrote && recorded && PromoteTree(sp, template, copy, rel).Some? ==> ok
    {
      if !Covered(sp, rel) || rel in sp.shared { return false; }
      var next := PromoteTree(sp, template, copy, rel);
      if next.None? || !wrote { return false; }
      PromoteSettlesIff(sp, template, copy, rel);
      template := next.value;
      if recorded { manifest := Some(Settled(sp, manifest, copy, rel)); }
      return recorded;
    }
  }
}
