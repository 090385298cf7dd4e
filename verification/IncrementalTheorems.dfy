/** Applying the plan equals rebuilding, planning again finds nothing to do, and what the relink list may hold. */
module IncrementalTheorems {
  import opened Order
  import opened Incremental

  type Store = map<string, FileGraph>
  /** What parsing a blob yields: it depends on the path and the blob alone. */
  type Parse = (string, string) -> FileGraph

  ghost predicate Faithful(parse: Parse) {
    forall path, sha :: parse(path, sha).path == path && parse(path, sha).blobSHA == sha
  }

  /** The store's documented effect: delete the paths, then put the replacements in. */
  ghost function ApplyMutation(store: Store, m: Mutation): Store {
    map p | p in store.Keys + UpsertPaths(m) && (p in UpsertPaths(m) || p !in m.deletePaths) ::
      if p in UpsertPaths(m) then UpsertOf(m, p) else store[p]
  }

  ghost function UpsertPaths(m: Mutation): set<string> {
    set g | g in m.upsertFiles :: g.path
  }

  ghost function UpsertOf(m: Mutation, p: string): FileGraph
    requires p in UpsertPaths(m)
    ensures UpsertOf(m, p) in m.upsertFiles && UpsertOf(m, p).path == p
  {
    var g :| g in m.upsertFiles && g.path == p; g
  }

  /** Every current file parsed afresh. */
  ghost function Rebuild(parse: Parse, current: seq<BlobFile>): Store {
    map i | 0 <= i < |current| && (forall j :: 0 <= j < |current| && current[j].path == current[i].path ==> j == i) ::
      current[i].path := parse(current[i].path, current[i].sha)
  }

  /** The store holds the graphs of this inventory. */
  ghost predicate Holds(parse: Parse, store: Store, previous: Inventory) {
    store.Keys == previous.Keys && forall p :: p in store ==> store[p] == parse(p, previous[p])
  }

  ghost function InventoryOf(store: Store): Inventory {
    map p | p in store :: store[p].blobSHA
  }

  /** The parsed graphs handed to the planner are those of the current blobs. */
  ghost predicate ParsedBy(parse: Parse, parsed: map<string, FileGraph>, previous: Inventory, current: seq<BlobFile>) {
    forall f :: f in current && Known(previous, f.path) != f.sha ==>
      f.path in parsed && parsed[f.path] == parse(f.path, f.sha)
  }

  lemma {:induction false} CurrentUnique(current: seq<BlobFile>, f: BlobFile, g: BlobFile)
    requires ValidCurrent(current) && f in current && g in current && f.path == g.path
    ensures f == g
  {
    var i :| 0 <= i < |current| && current[i] == f;
    var j :| 0 <= j < |current| && current[j] == g;
  }

  lemma UpsertsAre(previous: Inventory, current: seq<BlobFile>, parsed: map<string, FileGraph>,
                   importers: map<string, seq<string>>, parse: Parse, m: Mutation, p: string)
    requires ValidCurrent(current) && Faithful(parse) && ParsedBy(parse, parsed, previous, current)
    requires IsMutation(previous, current, parsed, importers, m)
    ensures p in UpsertPaths(m) <==> Changed(previous, current, p)
    ensures forall f :: f in current && f.path == p && p in UpsertPaths(m) ==> UpsertOf(m, p) == parse(p, f.sha)
  {
    if Changed(previous, current, p) {
      var f :| f in current && f.path == p && Known(previous, p) != f.sha;
      assert parsed[p] in m.upsertFiles;
    }
    if p in UpsertPaths(m) {
      var g := UpsertOf(m, p);
      var f :| f in current && Known(previous, f.path) != f.sha && f.path in parsed && parsed[f.path] == g;
      forall h | h in current && h.path == p ensures h == f { CurrentUnique(current, h, f); }
    }
  }

  lemma RebuiltAt(parse: Parse, current: seq<BlobFile>, p: string)
    requires ValidCurrent(current)
    ensures p in Rebuild(parse, current) <==> IsCurrent(current, p)
    ensures forall f :: f in current && f.path == p ==>
      p in Rebuild(parse, current) && Rebuild(parse, current)[p] == parse(p, f.sha)
  {
    forall f | f in current && f.path == p
      ensures p in Rebuild(parse, current) && Rebuild(parse, current)[p] == parse(p, f.sha)
    {
      var i :| 0 <= i < |current| && current[i] == f;
      assert forall j :: 0 <= j < |current| && current[j].path == current[i].path ==> j == i;
    }
    if IsCurrent(current, p) {
      var i :| 0 <= i < |current| && current[i].path == p;
      assert current[i] in current;
    }
  }

  /** The incremental mutation and a rebuild from scratch lead to the same store. */
  lemma IncrementalEqualsRebuild(previous: Inventory, current: seq<BlobFile>, parsed: map<string, FileGraph>,
                                 importers: map<string, seq<string>>, parse: Parse, store: Store, m: Mutation)
    requires ValidPrevious(previous) && ValidCurrent(current) && Faithful(parse)
    requires Holds(parse, store, previous) && ParsedBy(parse, parsed, previous, current)
    requires IsMutation(previous, current, parsed, importers, m)
    ensures ApplyMutation(store, m) == Rebuild(parse, current)
  {
    var a, b := ApplyMutation(store, m), Rebuild(parse, current);
    forall p ensures (p in a <==> p in b) && (p in a ==> a[p] == b[p]) {
      UpsertsAre(previous, current, parsed, importers, parse, m, p);
      RebuiltAt(parse, current, p);
      SamePath(previous, current, m, parse, store, p);
    }
  }

  lemma SamePath(previous: Inventory, current: seq<BlobFile>, m: Mutation, parse: Parse, store: Store, p: string)
    requires ValidPrevious(previous) && ValidCurrent(current) && Holds(parse, store, previous)
    requires p in m.deletePaths <==> Changed(previous, current, p) || Gone(previous, current, p)
    requires p in UpsertPaths(m) <==> Changed(previous, current, p)
    requires forall f :: f in current && f.path == p && p in UpsertPaths(m) ==> UpsertOf(m, p) == parse(p, f.sha)
    requires p in Rebuild(parse, current) <==> IsCurrent(current, p)
    requires forall f :: f in current && f.path == p ==>
      p in Rebuild(parse, current) && Rebuild(parse, current)[p] == parse(p, f.sha)
    ensures p in ApplyMutation(store, m) <==> p in Rebuild(parse, current)
    ensures p in ApplyMutation(store, m) ==> ApplyMutation(store, m)[p] == Rebuild(parse, current)[p]
  {
    if IsCurrent(current, p) {
      var i :| 0 <= i < |current| && current[i].path == p;
      var f := current[i];
      assert f in current && ValidFile(f);
      if Known(previous, p) == f.sha {
        forall g | g in current && g.path == p ensures g == f { CurrentUnique(current, g, f); }
      }
    }
    ChangedIsCurrent(previous, current, p);
  }

  lemma ChangedIsCurrent(previous: Inventory, current: seq<BlobFile>, p: string)
    ensures Changed(previous, current, p) ==> IsCurrent(current, p)
  {
    if Changed(previous, current, p) {
      var f :| f in current && f.path == p && Known(previous, p) != f.sha;
      var i :| 0 <= i < |current| && current[i] == f;
    }
  }

  /** Once applied, the same inventory calls for no change at all. */
  lemma ReplanningIsEmpty(previous: Inventory, current: seq<BlobFile>, parsed: map<string, FileGraph>,
                          importers: map<string, seq<string>>, parse: Parse, store: Store, m: Mutation,
                          parsed': map<string, FileGraph>, importers': map<string, seq<string>>, m': Mutation)
    requires ValidPrevious(previous) && ValidCurrent(current) && Faithful(parse)
    requires Holds(parse, store, previous) && ParsedBy(parse, parsed, previous, current)
    requires IsMutation(previous, current, parsed, importers, m)
    requires IsMutation(InventoryOf(ApplyMutation(store, m)), current, parsed', importers', m')
    ensures m' == Mutation([], [], [])
  {
    var now := InventoryOf(ApplyMutation(store, m));
    IncrementalEqualsRebuild(previous, current, parsed, importers, parse, store, m);
    forall p ensures !Changed(now, current, p) && !Gone(now, current, p) { NothingNew(parse, current, p); }
    NothingToDo(now, current, parsed', importers', m');
  }

  lemma NothingNew(parse: Parse, current: seq<BlobFile>, p: string)
    requires ValidCurrent(current) && Faithful(parse)
    ensures !Changed(InventoryOf(Rebuild(parse, current)), current, p) &&
      !Gone(InventoryOf(Rebuild(parse, current)), current, p)
  {
    RebuiltAt(parse, current, p);
  }

  lemma NothingToDo(now: Inventory, current: seq<BlobFile>, parsed: map<string, FileGraph>,
                    importers: map<string, seq<string>>, m: Mutation)
    requires IsMutation(now, current, parsed, importers, m)
    requires forall p :: !Changed(now, current, p) && !Gone(now, current, p)
    ensures m == Mutation([], [], [])
  {
    forall f | f in current ensures Known(now, f.path) == f.sha { assert !Changed(now, current, f.path); }
    NoElements(m.deletePaths);
    NoElements(m.upsertFiles);
    NoElements(m.relinkPaths);
  }

  lemma NoElements<T(!new)>(s: seq<T>)
    requires forall x :: x !in s
    ensures s == []
  {
    forall x ensures x !in multiset(s) { assert x !in s; }
    assert multiset(s) == multiset{};
    assert |s| == |multiset(s)|;
  }

  /** No path is deleted twice, and none is linked again twice. */
  lemma DeletesAndRelinksAreDuplicateFree(previous: Inventory, current: seq<BlobFile>, parsed: map<string, FileGraph>,
                                          importers: map<string, seq<string>>, m: Mutation)
    requires IsMutation(previous, current, parsed, importers, m)
    ensures forall i, j :: 0 <= i < j < |m.deletePaths| ==> m.deletePaths[i] != m.deletePaths[j]
    ensures forall i, j :: 0 <= i < j < |m.relinkPaths| ==> m.relinkPaths[i] != m.relinkPaths[j]
  {
    forall i, j | 0 <= i < j < |m.deletePaths| ensures m.deletePaths[i] != m.deletePaths[j] {
      StrLessIrreflexive(m.deletePaths[i]);
    }
    forall i, j | 0 <= i < j < |m.relinkPaths| ensures m.relinkPaths[i] != m.relinkPaths[j] {
      StrLessIrreflexive(m.relinkPaths[i]);
    }
  }

  /**
   The relink list may name files that no longer exist: it stays within the current files exactly when every
   recorded importer of a changed or deleted path is current.
   */
  lemma RelinksAreCurrentIff(previous: Inventory, current: seq<BlobFile>, parsed: map<string, FileGraph>,
                             importers: map<string, seq<string>>, m: Mutation)
    requires IsMutation(previous, current, parsed, importers, m)
    ensures (forall q :: q in m.relinkPaths ==> IsCurrent(current, q)) <==>
      (forall p, q :: Changed(previous, current, p) || Gone(previous, current, p) ==>
        q in Importers(importers, p) && q != "" ==> IsCurrent(current, q))
  {
    forall q | Changed(previous, current, q) ensures IsCurrent(current, q) { ChangedIsCurrent(previous, current, q); }
    if forall q :: q in m.relinkPaths ==> IsCurrent(current, q) {
      forall p, q | (Changed(previous, current, p) || Gone(previous, current, p)) && q in Importers(importers, p) &&
        q != ""
        ensures IsCurrent(current, q)
      {
        assert Relinked(previous, current, importers, q);
      }
    }
  }

  /** Two files deleted together, one importing the other: the importer is listed for relinking. */
  lemma DeletedImporterExample(m: Mutation)
    requires IsMutation(map["a.go" := "1", "b.go" := "2"], [], map[], map["a.go" := ["b.go"]], m)
    ensures "b.go" in m.relinkPaths && "b.go" in m.deletePaths
  {
    var previous: Inventory := map["a.go" := "1", "b.go" := "2"];
    assert Gone(previous, [], "a.go") && Gone(previous, [], "b.go");
    assert "b.go" in Importers(map["a.go" := ["b.go"]], "a.go");
  }

  // ---- The plan in terms of blobs ----

  /** A current file at the path whose blob the store does not have. */
  ghost predicate NewBlob(previous: Inventory, current: seq<BlobFile>, f: BlobFile) {
    f in current && (f.path !in previous || previous[f.path] != f.sha)
  }

  ghost predicate Touched(previous: Inventory, current: seq<BlobFile>, p: string) {
    || (exists f :: NewBlob(previous, current, f) && f.path == p)
    || (p in previous && forall f :: f in current ==> f.path != p)
  }

  lemma NewBlobIff(previous: Inventory, current: seq<BlobFile>, f: BlobFile)
    requires ValidCurrent(current)
    ensures NewBlob(previous, current, f) <==> f in current && Known(previous, f.path) != f.sha
  {
    if f in current {
      var i :| 0 <= i < |current| && current[i] == f;
      assert ValidFile(current[i]);
    }
  }

  lemma TouchedIff(previous: Inventory, current: seq<BlobFile>, p: string)
    requires ValidCurrent(current)
    ensures Touched(previous, current, p) <==> Changed(previous, current, p) || Gone(previous, current, p)
  {
    forall f ensures NewBlob(previous, current, f) <==> f in current && Known(previous, f.path) != f.sha {
      NewBlobIff(previous, current, f);
    }
    assert IsCurrent(current, p) <==> exists f :: f in current && f.path == p by {
      if f :| f in current && f.path == p { var i :| 0 <= i < |current| && current[i] == f; }
      if i :| 0 <= i < |current| && current[i].path == p { assert current[i] in current; }
    }
  }

  /**
   The mutation in terms of blobs: new and changed blobs are upserted with their graphs, their paths and those that are
   gone are deleted first, and what is upserted and whatever imports a deleted path is linked again.
   */
  lemma MutationInBlobs(previous: Inventory, current: seq<BlobFile>, parsed: map<string, FileGraph>,
                        importers: map<string, seq<string>>, m: Mutation)
    requires ValidCurrent(current) && IsMutation(previous, current, parsed, importers, m)
    ensures forall p :: p in m.deletePaths <==> Touched(previous, current, p)
    ensures forall g :: g in m.upsertFiles <==>
      exists f :: NewBlob(previous, current, f) && f.path in parsed && parsed[f.path] == g
    ensures forall q :: q in m.relinkPaths <==>
      || (exists f :: NewBlob(previous, current, f) && f.path == q)
      || (q != "" && exists p :: Touched(previous, current, p) && p in importers && q in importers[p])
  {
    forall f ensures NewBlob(previous, current, f) <==> f in current && Known(previous, f.path) != f.sha {
      NewBlobIff(previous, current, f);
    }
    forall p ensures Touched(previous, current, p) <==> Changed(previous, current, p) || Gone(previous, current, p) {
      TouchedIff(previous, current, p);
    }
    forall q ensures q in m.relinkPaths <==> RelinkedInBlobs(previous, current, importers, q) {
      RelinkedIff(previous, current, importers, q);
    }
  }

  ghost predicate RelinkedInBlobs(previous: Inventory, current: seq<BlobFile>, importers: map<string, seq<string>>,
                                  q: string) {
    || (exists f :: NewBlob(previous, current, f) && f.path == q)
    || (q != "" && exists p :: Touched(previous, current, p) && p in importers && q in importers[p])
  }

  lemma RelinkedIff(previous: Inventory, current: seq<BlobFile>, importers: map<string, seq<string>>, q: string)
    requires ValidCurrent(current)
    ensures Relinked(previous, current, importers, q) <==> RelinkedInBlobs(previous, current, importers, q)
  {
    forall f ensures NewBlob(previous, current, f) <==> f in current && Known(previous, f.path) != f.sha {
      NewBlobIff(previous, current, f);
    }
    forall p ensures Touched(previous, current, p) <==> Changed(previous, current, p) || Gone(previous, current, p) {
      TouchedIff(previous, current, p);
    }
    if p :| Touched(previous, current, p) && p in importers && q in importers[p] {
      assert q in Importers(importers, p);
    }
    if p :| (Changed(previous, current, p) || Gone(previous, current, p)) && q in Importers(importers, p) {
      assert p in importers && Touched(previous, current, p);
    }
  }

  /** What makes a plan fail: a missing path or SHA, a negative size, or a path given twice. */
  lemma RefusedIff(previous: Inventory, current: seq<BlobFile>)
    ensures !(ValidPrevious(previous) && ValidCurrent(current)) <==>
      || (exists p :: p in previous && (p == "" || previous[p] == ""))
      || (exists f :: f in current && (f.path == "" || f.sha == "" || f.size <= -1))
      || (exists i, j :: 0 <= i < j < |current| && current[i].path == current[j].path)
  {
    if f :| f in current && (f.path == "" || f.sha == "" || f.size <= -1) {
      var i :| 0 <= i < |current| && current[i] == f;
      assert !ValidFile(current[i]);
    }
    if i :| 0 <= i < |current| && !ValidFile(current[i]) { assert current[i] in current; }
  }

  predicate Unparsed(parsed: map<string, FileGraph>, f: BlobFile) {
    f.path !in parsed || parsed[f.path].path != f.path || parsed[f.path].blobSHA != f.sha
  }

  /** And beyond that, a changed file without a graph of its path and blob. */
  lemma UnparsedIff(previous: Inventory, current: seq<BlobFile>, parsed: map<string, FileGraph>)
    requires ValidCurrent(current)
    ensures !AllParsed(previous, current, parsed) <==>
      exists f :: NewBlob(previous, current, f) && Unparsed(parsed, f)
  {
    forall f ensures NewBlob(previous, current, f) <==> f in current && Known(previous, f.path) != f.sha {
      NewBlobIff(previous, current, f);
    }
  }

  /** The plan in terms of blobs: what to upsert and what to delete, each once, sorted by path. */
  lemma PlanInBlobs(previous: Inventory, current: seq<BlobFile>, plan: Plan)
    requires ValidCurrent(current) && IsPlan(previous, current, plan)
    ensures forall f :: f in plan.upsert <==> NewBlob(previous, current, f)
    ensures forall p :: p in plan.delete <==> p in previous && forall f :: f in current ==> f.path != p
    ensures forall i, j :: 0 <= i < j < |plan.upsert| ==> StrLess(plan.upsert[i].path, plan.upsert[j].path)
    ensures plan.untouched == |current| - |plan.upsert|
  {
    forall f ensures f in plan.upsert <==> NewBlob(previous, current, f) { NewBlobIff(previous, current, f); }
    forall p ensures IsCurrent(current, p) <==> exists f :: f in current && f.path == p {
      if f :| f in current && f.path == p { var i :| 0 <= i < |current| && current[i] == f; }
      if i :| 0 <= i < |current| && current[i].path == p { assert current[i] in current; }
    }
    forall i, j | 0 <= i < j < |plan.upsert| ensures StrLess(plan.upsert[i].path, plan.upsert[j].path) {
      assert ByPath(plan.upsert[i], plan.upsert[j]);
    }
  }
}
