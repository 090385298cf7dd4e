/**
 Incremental reindexing (reindex.go, incremental.go): from two blob inventories to one mutation of the stored graphs,
 with the files whose edges need to be linked again.
 */
module Incremental {
  import opened Wrappers
  import opened Order

  datatype BlobFile = BlobFile(path: string, sha: string, size: int)
  datatype Plan = Plan(upsert: seq<BlobFile>, delete: seq<string>, untouched: nat)
  datatype SymbolRecord = SymbolRecord(localId: string, kind: string, name: string, signature: string, startLine: int,
                                       endLine: int)
  datatype EdgeRecord = EdgeRecord(sourceLocalId: string, target: string, kind: string, sourceLine: int)
  datatype FileGraph = FileGraph(path: string, blobSHA: string, symbols: seq<SymbolRecord>, edges: seq<EdgeRecord>)
  /** The tenant and head commit are filled in when the mutation is applied. */
  datatype Mutation = Mutation(deletePaths: seq<string>, upsertFiles: seq<FileGraph>, relinkPaths: seq<string>)

  type Inventory = map<string, string>

  function Known(previous: Inventory, path: string): string {
    if path in previous then previous[path] else ""
  }

  predicate ValidPrevious(previous: Inventory) {
    forall p :: p in previous ==> p != "" && previous[p] != ""
  }

  predicate ValidFile(f: BlobFile) {
    f.path != "" && f.sha != "" && f.size >= 0
  }

  ghost predicate ValidCurrent(current: seq<BlobFile>) {
    && (forall i :: 0 <= i < |current| ==> ValidFile(current[i]))
    && (forall i, j :: 0 <= i < j < |current| ==> current[i].path != current[j].path)
  }

  ghost predicate IsCurrent(current: seq<BlobFile>, path: string) {
    exists i :: 0 <= i < |current| && current[i].path == path
  }

  predicate ByPath(a: BlobFile, b: BlobFile) { StrLess(a.path, b.path) }
  predicate GraphByPath(a: FileGraph, b: FileGraph) { StrLess(a.path, b.path) }

  /** Upserts are the files whose blob is new or changed, deletes the paths that are gone; both sorted, each once. */
  ghost predicate IsPlan(previous: Inventory, current: seq<BlobFile>, plan: Plan) {
    && StrictlySortedBy(plan.upsert, ByPath) && StrictlySortedBy(plan.delete, StrLess)
    && (forall f :: f in plan.upsert <==> f in current && Known(previous, f.path) != f.sha)
    && (forall p :: p in plan.delete <==> p in previous && !IsCurrent(current, p))
    && plan.untouched + |plan.upsert| == |current|
  }

  method CheckPrevious(previous: Inventory) returns (ok: bool)
    ensures ok <==> ValidPrevious(previous)
  {
    var rest := previous.Keys;
    while rest != {}
      invariant rest <= previous.Keys
      invariant forall p :: p in previous && p !in rest ==> p != "" && previous[p] != ""
    {
      var path :| path in rest;
      rest := rest - {path};
      if path == "" || previous[path] == "" {
        return false;
      }
    }
    ok := true;
  }

  ghost predicate SeenAmong(current: seq<BlobFile>, n: nat, seen: set<string>)
    requires n <= |current|
  {
    forall p :: p in seen <==> exists j :: 0 <= j < n && current[j].path == p
  }

  ghost predicate Compared(previous: Inventory, current: seq<BlobFile>, n: nat, upsert: seq<BlobFile>, untouched: nat,
                           seen: set<string>) {
    && n <= |current| && untouched + |upsert| == n
    && SeenAmong(current, n, seen)
    && (forall f :: f in upsert <==> f in current[..n] && Known(previous, f.path) != f.sha)
    && (forall i, j :: 0 <= i < j < |upsert| ==> upsert[i].path != upsert[j].path)
  }

  lemma ComparedStep(previous: Inventory, current: seq<BlobFile>, n: nat, upsert: seq<BlobFile>, untouched: nat,
                     seen: set<string>)
    requires n < |current| && Compared(previous, current, n, upsert, untouched, seen) && current[n].path !in seen
    ensures var file, met := current[n], seen + {current[n].path};
      if Known(previous, file.path) == file.sha then Compared(previous, current, n + 1, upsert, untouched + 1, met)
      else Compared(previous, current, n + 1, upsert + [file], untouched, met)
  {
    assert current[..n + 1] == current[..n] + [current[n]];
    forall k | 0 <= k < |upsert| ensures upsert[k].path in seen {
      assert upsert[k] in current[..n];
    }
  }

  /** The loop over the current files. */
  method CompareFiles(previous: Inventory, current: seq<BlobFile>)
    returns (r: Result<(seq<BlobFile>, nat)>, seen: set<string>)
    ensures r.Success? <==> ValidCurrent(current)
    ensures r.Success? ==> Compared(previous, current, |current|, r.value.0, r.value.1, seen)
  {
    seen := {};
    var upsert: seq<BlobFile> := [];
    var untouched := 0;
    for i := 0 to |current|
      invariant Compared(previous, current, i, upsert, untouched, seen) && ValidCurrent(current[..i])
    {
      var file := current[i];
      if file.path == "" || file.sha == "" || file.size < 0 {
        return Failure("indexed blobs require path, SHA, and non-negative size"), seen;
      }
      if file.path in seen {
        var j :| 0 <= j < i && current[j].path == file.path;
        assert current[j].path == current[i].path;
        return Failure("duplicate blob path"), seen;
      }
      assert current[..i + 1] == current[..i] + [file];
      ComparedStep(previous, current, i, upsert, untouched, seen);
      seen := seen + {file.path};
      if Known(previous, file.path) == file.sha {
        untouched := untouched + 1;
        continue;
      }
      upsert := upsert + [file];
    }
    assert current[..|current|] == current;
    r := Success((upsert, untouched));
  }

  /** The paths of the previous inventory that have not been seen, met in any order. */
  method Unseen(previous: Inventory, seen: set<string>) returns (gone: seq<string>)
    ensures forall p :: p in gone <==> p in previous && p !in seen
    ensures forall i, j :: 0 <= i < j < |gone| ==> gone[i] != gone[j]
  {
    gone := [];
    var rest := previous.Keys;
    while rest != {}
      invariant rest <= previous.Keys
      invariant forall p :: p in gone <==> p in previous && p !in rest && p !in seen
      invariant forall i, j :: 0 <= i < j < |gone| ==> gone[i] != gone[j]
    {
      var path :| path in rest;
      rest := rest - {path};
      if path !in seen {
        gone := gone + [path];
      }
    }
  }

  /** sort.Strings on a list without duplicates. */
  method SortPaths(paths: seq<string>) returns (r: seq<string>)
    requires forall i, j :: 0 <= i < j < |paths| ==> paths[i] != paths[j]
    ensures StrictlySortedBy(r, StrLess) && |r| == |paths| && forall p :: p in r <==> p in paths
  {
    StrLessIsTotal();
    r := Sort(paths, StrLess);
    assert |r| == |multiset(r)| == |multiset(paths)| == |paths|;
    DistinctMultiset(paths, r);
    DistinctSorted(r, StrLess);
  }

  method SortFiles(files: seq<BlobFile>) returns (r: seq<BlobFile>)
    requires forall i, j :: 0 <= i < j < |files| ==> files[i].path != files[j].path
    ensures StrictlySortedBy(r, ByPath) && |r| == |files| && forall f :: f in r <==> f in files
  {
    StrLessIsTotal();
    r := Sort(files, ByPath);
    SortedByPath(files, r);
  }

  lemma SortedByPath(files: seq<BlobFile>, r: seq<BlobFile>)
    requires SortedBy(r, ByPath) && multiset(r) == multiset(files)
    requires forall i, j :: 0 <= i < j < |files| ==> files[i].path != files[j].path
    ensures StrictlySortedBy(r, ByPath) && |r| == |files| && forall f :: f in r <==> f in files
  {
    assert |r| == |multiset(r)| == |multiset(files)| == |files|;
    var from := Rearrangement(files, r);
    DistinctMultiset(files, r);
    forall i, j | 0 <= i < j < |r| ensures ByPath(r[i], r[j]) {
      assert from[i] != from[j] && r[i].path != r[j].path;
      StrLessTotal(r[i].path, r[j].path);
    }
  }

  method PlanReindex(previous: Inventory, current: seq<BlobFile>) returns (r: Result<Plan>)
    ensures r.Success? <==> ValidPrevious(previous) && ValidCurrent(current)
    ensures r.Success? ==> IsPlan(previous, current, r.value)
  {
    var ok := CheckPrevious(previous);
    if !ok {
      return Failure("previous blob inventory requires paths and SHAs");
    }
    var compared, seen := CompareFiles(previous, current);
    if compared.Failure? {
      return Failure(compared.reason);
    }
    var gone := Unseen(previous, seen);
    var upsert := SortFiles(compared.value.0);
    var delete := SortPaths(gone);
    assert current[..|current|] == current;
    forall p ensures p in seen <==> IsCurrent(current, p) {}
    r := Success(Plan(upsert, delete, compared.value.1));
  }

  // ---- The mutation ----

  ghost predicate Changed(previous: Inventory, current: seq<BlobFile>, p: string) {
    exists f :: f in current && f.path == p && Known(previous, p) != f.sha
  }

  ghost predicate Gone(previous: Inventory, current: seq<BlobFile>, p: string) {
    p in previous && !IsCurrent(current, p)
  }

  predicate HasGraph(parsed: map<string, FileGraph>, f: BlobFile) {
    f.path in parsed && parsed[f.path].path == f.path && parsed[f.path].blobSHA == f.sha
  }

  ghost predicate AllParsed(previous: Inventory, current: seq<BlobFile>, parsed: map<string, FileGraph>) {
    forall f :: f in current && Known(previous, f.path) != f.sha ==> HasGraph(parsed, f)
  }

  function Importers(importers: map<string, seq<string>>, p: string): seq<string> {
    if p in importers then importers[p] else []
  }

  /** q must be re-linked: it is replaced itself, or it is recorded as importing a path that changed or went away. */
  ghost predicate Relinked(previous: Inventory, current: seq<BlobFile>, importers: map<string, seq<string>>,
                           q: string) {
    || Changed(previous, current, q)
    || (q != "" &&
      exists p :: (Changed(previous, current, p) || Gone(previous, current, p)) && q in Importers(importers, p))
  }

  ghost predicate IsMutation(previous: Inventory, current: seq<BlobFile>, parsed: map<string, FileGraph>,
                             importers: map<string, seq<string>>, m: Mutation) {
    && StrictlySortedBy(m.deletePaths, StrLess) && StrictlySortedBy(m.upsertFiles, GraphByPath) &&
      StrictlySortedBy(m.relinkPaths, StrLess)
    && (forall p :: p in m.deletePaths <==> Changed(previous, current, p) || Gone(previous, current, p))
    && (forall g :: g in m.upsertFiles <==>
      exists f :: f in current && Known(previous, f.path) != f.sha && f.path in parsed && parsed[f.path] == g)
    && (forall q :: q in m.relinkPaths <==> Relinked(previous, current, importers, q))
  }

  /** The replaced files: their graphs and paths, in plan order. */
  method CollectUpserts(upsert: seq<BlobFile>, parsed: map<string, FileGraph>)
    returns (r: Result<seq<FileGraph>>, paths: seq<string>)
    ensures r.Success? <==> forall i :: 0 <= i < |upsert| ==> HasGraph(parsed, upsert[i])
    ensures r.Success? ==> |r.value| == |paths| == |upsert|
    ensures r.Success? ==>
      forall i :: 0 <= i < |upsert| ==> r.value[i] == parsed[upsert[i].path] && paths[i] == upsert[i].path
  {
    paths := [];
    var files: seq<FileGraph> := [];
    for i := 0 to |upsert|
      invariant |files| == |paths| == i
      invariant forall k :: 0 <= k < i ==>
        HasGraph(parsed, upsert[k]) && files[k] == parsed[upsert[k].path] && paths[k] == upsert[k].path
    {
      var file := upsert[i];
      if file.path !in parsed || parsed[file.path].path != file.path || parsed[file.path].blobSHA != file.sha {
        return Failure("every changed blob requires a matching parsed graph"), paths;
      }
      files, paths := files + [parsed[file.path]], paths + [file.path];
    }
    r := Success(files);
  }

  /** The relink set: ranges over the changed paths, in any order. */
  method CollectRelinks(changed: set<string>, replaced: set<string>, importers: map<string, seq<string>>)
    returns (relink: set<string>)
    ensures forall q :: q in relink <==>
      (q in changed && q in replaced) || (q != "" && exists p :: p in changed && q in Importers(importers, p))
  {
    relink := {};
    var rest := changed;
    while rest != {}
      invariant rest <= changed
      invariant forall q :: q in relink <==>
        (q in changed - rest && q in replaced) ||
          (q != "" && exists p :: p in changed - rest && q in Importers(importers, p))
    {
      var path :| path in rest;
      ghost var done := changed - rest;
      rest := rest - {path};
      assert changed - rest == done + {path};
      if path in replaced {
        relink := relink + {path};
      }
      var names := NonEmpty(Importers(importers, path));
      relink := relink + names;
    }
    assert changed - rest == changed;
  }

  method NonEmpty(names: seq<string>) returns (r: set<string>)
    ensures forall q :: q in r <==> q != "" && q in names
  {
    r := {};
    for i := 0 to |names|
      invariant forall q :: q in r <==> q != "" && q in names[..i]
    {
      assert names[..i + 1] == names[..i] + [names[i]];
      if names[i] != "" {
        r := r + {names[i]};
      }
    }
    assert names[..|names|] == names;
  }

  /** Ranging over a set of paths, in any order, then sort.Strings. */
  method SortedSet(paths: set<string>) returns (r: seq<string>)
    ensures StrictlySortedBy(r, StrLess) && forall p :: p in r <==> p in paths
  {
    var list: seq<string> := [];
    var rest := paths;
    while rest != {}
      invariant rest <= paths
      invariant forall p :: p in list <==> p in paths && p !in rest
      invariant forall i, j :: 0 <= i < j < |list| ==> list[i] != list[j]
    {
      var path :| path in rest;
      rest := rest - {path};
      list := list + [path];
    }
    r := SortPaths(list);
  }

  method SortGraphs(files: seq<FileGraph>) returns (r: seq<FileGraph>)
    ensures SortedBy(r, GraphByPath) && multiset(r) == multiset(files)
  {
    StrLessIsTotal();
    r := Sort(files, GraphByPath);
  }

  method PlanIncremental(previous: Inventory, current: seq<BlobFile>, parsed: map<string, FileGraph>,
                         importers: map<string, seq<string>>)
    returns (r: Result<Mutation>)
    ensures r.Success? <==> ValidPrevious(previous) && ValidCurrent(current) && AllParsed(previous, current, parsed)
    ensures r.Success? ==> IsMutation(previous, current, parsed, importers, r.value)
  {
    var planned := PlanReindex(previous, current);
    if planned.Failure? {
      return Failure(planned.reason);
    }
    var plan := planned.value;
    var upserts, replacedPaths := CollectUpserts(plan.upsert, parsed);
    if upserts.Failure? {
      return Failure(upserts.reason);
    }
    var replaced := set p | p in replacedPaths;
    var changed := replaced + set p | p in plan.delete;
    var relink := CollectRelinks(changed, replaced, importers);
    ChangedPaths(previous, current, plan, replacedPaths);
    var deletePaths := SortPaths(replacedPaths + plan.delete);
    var upsertFiles := SortGraphs(upserts.value);
    UpsertsSorted(previous, current, plan, parsed, upserts.value, upsertFiles);
    var relinkPaths := SortedSet(relink);
    RelinksMeant(previous, current, importers, replaced, changed, relink);
    r := Success(Mutation(deletePaths, upsertFiles, relinkPaths));
  }

  lemma RelinksMeant(previous: Inventory, current: seq<BlobFile>, importers: map<string, seq<string>>,
                     replaced: set<string>, changed: set<string>, relink: set<string>)
    requires forall p :: p in replaced <==> Changed(previous, current, p)
    requires forall p :: p in changed <==> Changed(previous, current, p) || Gone(previous, current, p)
    requires forall q :: q in relink <==>
      (q in changed && q in replaced) || (q != "" && exists p :: p in changed && q in Importers(importers, p))
    ensures forall q :: q in relink <==> Relinked(previous, current, importers, q)
  {
    forall q ensures q in relink <==> Relinked(previous, current, importers, q) {
      if q != "" && exists p :: p in changed && q in Importers(importers, p) {
        var p :| p in changed && q in Importers(importers, p);
        assert Changed(previous, current, p) || Gone(previous, current, p);
      }
    }
  }

  lemma ChangedPaths(previous: Inventory, current: seq<BlobFile>, plan: Plan, replaced: seq<string>)
    requires ValidCurrent(current) && IsPlan(previous, current, plan) && |replaced| == |plan.upsert|
    requires forall i :: 0 <= i < |replaced| ==> replaced[i] == plan.upsert[i].path
    ensures forall p :: p in replaced <==> Changed(previous, current, p)
    ensures forall p :: p in plan.delete <==> Gone(previous, current, p)
    ensures forall i, j :: 0 <= i < j < |replaced + plan.delete| ==>
      (replaced + plan.delete)[i] != (replaced + plan.delete)[j]
  {
    forall p ensures p in replaced <==> Changed(previous, current, p) {
      if p in replaced {
        var i :| 0 <= i < |replaced| && replaced[i] == p;
        assert plan.upsert[i] in plan.upsert;
      }
      if Changed(previous, current, p) {
        var f :| f in current && f.path == p && Known(previous, p) != f.sha;
        var i :| 0 <= i < |plan.upsert| && plan.upsert[i] == f;
        assert replaced[i] == p;
      }
    }
    forall p | p in replaced ensures IsCurrent(current, p) {
      var f :| f in current && f.path == p && Known(previous, p) != f.sha;
      var i :| 0 <= i < |current| && current[i] == f;
    }
    forall i, j | 0 <= i < j < |replaced| ensures replaced[i] != replaced[j] {
      assert ByPath(plan.upsert[i], plan.upsert[j]);
      StrLessIrreflexive(replaced[i]);
    }
    forall i, j | 0 <= i < j < |plan.delete| ensures plan.delete[i] != plan.delete[j] {
      assert StrLess(plan.delete[i], plan.delete[j]);
      StrLessIrreflexive(plan.delete[i]);
    }
  }

  lemma UpsertsSorted(previous: Inventory, current: seq<BlobFile>, plan: Plan, parsed: map<string, FileGraph>,
                      files: seq<FileGraph>, r: seq<FileGraph>)
    requires IsPlan(previous, current, plan) && |files| == |plan.upsert|
    requires forall i :: 0 <= i < |files| ==>
      HasGraph(parsed, plan.upsert[i]) && files[i] == parsed[plan.upsert[i].path]
    requires SortedBy(r, GraphByPath) && multiset(r) == multiset(files)
    ensures StrictlySortedBy(r, GraphByPath)
    ensures forall g :: g in r <==>
      exists f :: f in current && Known(previous, f.path) != f.sha && f.path in parsed && parsed[f.path] == g
  {
    forall i, j | 0 <= i < j < |files| ensures GraphByPath(files[i], files[j]) {
      assert ByPath(plan.upsert[i], plan.upsert[j]);
    }
    GraphsUnique(files, r);
    forall g
      ensures g in r <==>
        exists f :: f in current && Known(previous, f.path) != f.sha && f.path in parsed && parsed[f.path] == g
    {
      if g in r {
        var i :| 0 <= i < |files| && files[i] == g;
        assert plan.upsert[i] in plan.upsert;
      }
      if f :| f in current && Known(previous, f.path) != f.sha && f.path in parsed && parsed[f.path] == g {
        var i :| 0 <= i < |plan.upsert| && plan.upsert[i] == f;
        assert files[i] == g;
      }
    }
  }

  /** Files already strictly sorted are left as they are. */
  lemma GraphsUnique(files: seq<FileGraph>, r: seq<FileGraph>)
    requires StrictlySortedBy(files, GraphByPath) && SortedBy(r, GraphByPath) && multiset(r) == multiset(files)
    ensures StrictlySortedBy(r, GraphByPath) && forall g :: g in r <==> g in files
  {
    var from := Rearrangement(files, r);
    forall g ensures g in r <==> g in files { assert g in multiset(r) <==> g in multiset(files); }
    forall i, j | 0 <= i < j < |r| ensures GraphByPath(r[i], r[j]) {
      assert from[i] != from[j] && !GraphByPath(r[j], r[i]);
    }
  }
}
