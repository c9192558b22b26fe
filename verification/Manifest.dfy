/** The v2 manifest: how the backup writes it and exactly when the restorer accepts it. */
module Manifest {
  import opened Wrappers
  import opened Collections
  import opened ArchivePaths

  const MANIFEST_NAME := "backup_manifest.json"
  const MANIFEST_VERSION := "v2"

  datatype FileItem = FileItem(path: string, size: int, digest: string, createdAt: string)

  datatype Manifest = Manifest(
    version: string, createdAt: string, roots: seq<string>,
    fileCount: int, totalSize: int, files: seq<FileItem>, directories: seq<string>)

  datatype MemberKind = DirMember | FileMember(bytes: string) | OtherMember

  /** One member of an archive. */
  datatype Member = Member(name: string, kind: MemberKind)

  /** Hashing, JSON and time parsing, which lie outside the model. */
  datatype Env = Env(
    sha: string -> string, encode: Manifest -> string, decode: string -> Option<Manifest>, validTime: string -> bool)

  predicate IsDigest(s: string) {
    |s| == 64 && forall i | 0 <= i < |s| :: '0' <= s[i] <= '9' || 'a' <= s[i] <= 'f'
  }

  const HEX := "0123456789abcdef"

  lemma HexListed(ch: char)
    ensures ch in HEX <==> '0' <= ch <= '9' || 'a' <= ch <= 'f'
  {
    if '0' <= ch <= '9' {
      assert HEX[ch as int - '0' as int] == ch;
    } else if 'a' <= ch <= 'f' {
      assert HEX[10 + ch as int - 'a' as int] == ch;
    }
  }

  /** A digest is 64 of these digits. */
  lemma DigestExactly(s: string)
    ensures IsDigest(s) <==> |s| == 64 && forall ch | ch in s :: ch in HEX
  {
    forall i | 0 <= i < |s|
      ensures s[i] in HEX <==> '0' <= s[i] <= '9' || 'a' <= s[i] <= 'f'
    {
      HexListed(s[i]);
    }
    assert forall i | 0 <= i < |s| :: s[i] in s;
  }

  /** What is relied on: digests are 64 lower-case hexadecimal digits and JSON is read back as written. */
  ghost predicate EnvOk(env: Env) {
    && (forall b :: IsDigest(env.sha(b)))
    && forall m :: env.decode(env.encode(m)) == Some(m)
  }

  /** The name is the root or lies below it. */
  predicate Under(name: string, root: string) {
    name == root || (|name| > |root| && name[..|root|] == root && name[|root|] == '/')
  }

  function SumSizes(items: seq<FileItem>): int {
    if items == [] then 0 else SumSizes(items[..|items| - 1]) + items[|items| - 1].size
  }

  function PathsIn(items: seq<FileItem>): set<string> {
    set i | 0 <= i < |items| :: items[i].path
  }

  predicate DistinctPaths(items: seq<FileItem>) {
    forall i, j | 0 <= i < j < |items| :: items[i].path != items[j].path
  }

  // ----- Writing

  /** The item says of its file what is true of it. */
  predicate ItemFor(item: FileItem, files: map<string, string>, now: string, env: Env) {
    && item.path in files && item.size == |files[item.path]|
    && item.digest == env.sha(files[item.path]) && item.createdAt == now
  }

  predicate ItemsFor(items: seq<FileItem>, files: map<string, string>, names: set<string>, now: string, env: Env) {
    && DistinctPaths(items) && PathsIn(items) == names
    && forall i | 0 <= i < |items| :: ItemFor(items[i], files, now, env)
  }

  /** The manifest of a snapshot, up to the order of its lists. */
  predicate Describes(m: Manifest, files: map<string, string>, dirs: set<string>, roots: seq<string>, now: string, env: Env) {
    && m.version == MANIFEST_VERSION && m.createdAt == now && m.roots == roots
    && ItemsFor(m.files, files, files.Keys, now, env)
    && m.fileCount == |m.files| && m.totalSize == SumSizes(m.files)
    && NoDuplicates(m.directories) && Elements(m.directories) == dirs
  }

  lemma AppendItem(items: seq<FileItem>, item: FileItem, files: map<string, string>, names: set<string>, now: string, env: Env)
    requires ItemsFor(items, files, names, now, env) && ItemFor(item, files, now, env) && item.path !in names
    ensures ItemsFor(items + [item], files, names + {item.path}, now, env)
  {
    var more := items + [item];
    assert forall i | 0 <= i < |items| :: more[i] == items[i] && items[i].path in PathsIn(items);
    assert more[|items|] == item;
    assert PathsIn(more) == names + {item.path};
  }

  method FileItems(files: map<string, string>, now: string, env: Env) returns (items: seq<FileItem>, total: int)
    ensures ItemsFor(items, files, files.Keys, now, env) && total == SumSizes(items)
  {
    items, total := [], 0;
    var todo := files.Keys;
    ghost var done: set<string> := {};
    while todo != {}
      invariant todo !! done && todo + done == files.Keys
      invariant ItemsFor(items, files, done, now, env) && total == SumSizes(items)
      decreases todo
    {
      var n :| n in todo;
      var item := FileItem(n, |files[n]|, env.sha(files[n]), now);
      AppendItem(items, item, files, done, now, env);
      assert (items + [item])[..|items|] == items;
      items, total := items + [item], total + item.size;
      todo, done := todo - {n}, done + {n};
    }
    assert done == files.Keys;
  }

  method BuildManifest(files: map<string, string>, dirs: set<string>, roots: seq<string>, now: string, env: Env) returns (m: Manifest)
    ensures Describes(m, files, dirs, roots, now, env)
  {
    var items, total := FileItems(files, now, env);
    var listed := ListOf(dirs);
    m := Manifest(MANIFEST_VERSION, now, roots, |items|, total, items, listed);
  }

  // ----- Checking

  predicate ItemOk(item: FileItem, env: Env) {
    && SafeName(item.path) && item.path != MANIFEST_NAME && item.size >= 0
    && IsDigest(item.digest) && env.validTime(item.createdAt)
  }

  function ItemTest(env: Env): FileItem -> bool {
    (item: FileItem) => ItemOk(item, env)
  }

  predicate ItemsOk(items: seq<FileItem>, ok: FileItem -> bool) {
    forall i | 0 <= i < |items| :: ok(items[i])
  }

  predicate UnderSome(name: string, roots: seq<string>) {
    exists i | 0 <= i < |roots| :: Under(name, roots[i])
  }

  predicate RootsOk(roots: seq<string>, declared: set<string>) {
    && roots != []
    && (forall i | 0 <= i < |roots| :: SafeName(roots[i]) && roots[i] in declared)
    && forall n | n in declared :: UnderSome(n, roots)
  }

  /** A manifest that may be restored. */
  predicate ManifestOk(m: Manifest, env: Env) {
    && m.version == MANIFEST_VERSION && env.validTime(m.createdAt)
    && DistinctPaths(m.files) && ItemsOk(m.files, ItemTest(env))
    && NoDuplicates(m.directories) && (forall i | 0 <= i < |m.directories| :: SafeName(m.directories[i]))
    && PathsIn(m.files) !! Elements(m.directories)
    && RootsOk(m.roots, PathsIn(m.files) + Elements(m.directories))
    && m.fileCount == |m.files| && m.totalSize == SumSizes(m.files)
  }

  predicate Indexes(byPath: map<string, FileItem>, items: seq<FileItem>) {
    && byPath.Keys == PathsIn(items)
    && forall i | 0 <= i < |items| :: byPath[items[i].path] == items[i]
  }

  /** The state of the table after the first items. */
  predicate Indexed(byPath: map<string, FileItem>, total: int, items: seq<FileItem>, ok: FileItem -> bool) {
    && Indexes(byPath, items) && DistinctPaths(items) && total == SumSizes(items) && ItemsOk(items, ok)
  }

  lemma IndexAppend(byPath: map<string, FileItem>, items: seq<FileItem>, item: FileItem)
    requires Indexes(byPath, items) && DistinctPaths(items) && item.path !in byPath
    ensures Indexes(byPath[item.path := item], items + [item]) && DistinctPaths(items + [item])
  {
    var more := items + [item];
    assert forall i | 0 <= i < |items| :: more[i] == items[i] && items[i].path in PathsIn(items);
    assert more[|items|] == item;
    assert PathsIn(more) == PathsIn(items) + {item.path};
  }

  lemma {:induction false} SumAppend(items: seq<FileItem>, item: FileItem)
    ensures SumSizes([]) == 0 && SumSizes(items + [item]) == SumSizes(items) + item.size
  {
    assert (items + [item])[..|items|] == items;
  }

  lemma {:induction false} IndexStep(byPath: map<string, FileItem>, total: int, items: seq<FileItem>, item: FileItem, ok: FileItem -> bool)
    requires Indexed(byPath, total, items, ok) && ok(item) && item.path !in byPath
    ensures Indexed(byPath[item.path := item], total + item.size, items + [item], ok)
  {
    IndexAppend(byPath, items, item);
    SumAppend(items, item);
  }

  lemma IndexNext(byPath: map<string, FileItem>, total: int, items: seq<FileItem>, k: nat, ok: FileItem -> bool)
    requires k < |items| && Indexed(byPath, total, items[..k], ok) && ok(items[k]) && items[k].path !in byPath
    ensures Indexed(byPath[items[k].path := items[k]], total + items[k].size, items[..k + 1], ok)
  {
    TakeNext(items, k);
    IndexStep(byPath, total, items[..k], items[k], ok);
  }

  lemma RepeatedPath(byPath: map<string, FileItem>, items: seq<FileItem>, k: nat)
    requires k < |items| && Indexes(byPath, items[..k]) && items[k].path in byPath
    ensures !DistinctPaths(items)
  {
    var i :| 0 <= i < k && items[..k][i].path == items[k].path;
    assert items[i].path == items[k].path;
  }

  /** Fills the table of expected files, stopping at the first bad or repeated item. */
  method IndexFiles(items: seq<FileItem>, ok: FileItem -> bool) returns (r: Result<map<string, FileItem>>, total: int)
    ensures r.Ok? <==> DistinctPaths(items) && ItemsOk(items, ok)
    ensures r.Ok? ==> Indexes(r.value, items) && total == SumSizes(items)
  {
    var byPath: map<string, FileItem> := map[];
    total := 0;
    for k := 0 to |items|
      invariant Indexed(byPath, total, items[..k], ok)
    {
      var item := items[k];
      if !ok(item) {
        return Err("INVALID_MANIFEST"), 0;
      }
      if item.path in byPath {
        RepeatedPath(byPath, items, k);
        return Err("INVALID_MANIFEST"), 0;
      }
      IndexNext(byPath, total, items, k, ok);
      byPath, total := byPath[item.path := item], total + item.size;
    }
    assert items[..|items|] == items;
    r := Ok(byPath);
  }

  /** The set of directory names, when all pass the test and none is repeated. */
  method CollectNames(names: seq<string>, ok: string -> bool) returns (r: Result<set<string>>)
    ensures r.Ok? <==> NoDuplicates(names) && forall i | 0 <= i < |names| :: ok(names[i])
    ensures r.Ok? ==> r.value == Elements(names)
  {
    var dirs: set<string> := {};
    for k := 0 to |names|
      invariant forall i | 0 <= i < k :: ok(names[i])
      invariant dirs == Elements(names[..k])
    {
      if !ok(names[k]) {
        return Err("UNSAFE_ARCHIVE");
      }
      TakeNext(names, k);
      ElementsAppend(names[..k], names[k]);
      dirs := dirs + {names[k]};
    }
    assert names[..|names|] == names;
    CountShowsRepetition(names);
    if |dirs| != |names| {
      return Err("INVALID_MANIFEST");
    }
    r := Ok(dirs);
  }

  method CollectDirectories(names: seq<string>) returns (r: Result<set<string>>)
    ensures r.Ok? <==> NoDuplicates(names) && forall i | 0 <= i < |names| :: SafeName(names[i])
    ensures r.Ok? ==> r.value == Elements(names)
  {
    r := CollectNames(names, SafeName);
  }

  method CheckRoots(roots: seq<string>, declared: set<string>) returns (ok: bool)
    ensures ok <==> RootsOk(roots, declared)
  {
    if roots == [] {
      return false;
    }
    for k := 0 to |roots|
      invariant forall i | 0 <= i < k :: SafeName(roots[i]) && roots[i] in declared
    {
      if !SafeName(roots[k]) || roots[k] !in declared {
        return false;
      }
    }
    ok := forall n | n in declared :: UnderSome(n, roots);
  }

  /** Accepts a manifest exactly when it may be restored, and returns its files and directories. */
  method ValidateManifest(m: Manifest, env: Env) returns (r: Result<(map<string, FileItem>, set<string>)>)
    ensures r.Ok? <==> ManifestOk(m, env)
    ensures r.Ok? ==> Indexes(r.value.0, m.files) && r.value.1 == Elements(m.directories)
  {
    if m.version != MANIFEST_VERSION || !env.validTime(m.createdAt) || m.roots == [] {
      return Err("INVALID_MANIFEST");
    }
    var files, total := IndexFiles(m.files, ItemTest(env));
    if files.Err? {
      return Err(files.code);
    }
    var dirs := CollectDirectories(m.directories);
    if dirs.Err? {
      return Err(dirs.code);
    }
    if !(files.value.Keys !! dirs.value) {
      return Err("INVALID_MANIFEST");
    }
    var rootsOk := CheckRoots(m.roots, files.value.Keys + dirs.value);
    IndexCount(files.value, m.files);
    if !rootsOk || m.fileCount != |files.value| || m.totalSize != total {
      return Err("INVALID_MANIFEST");
    }
    r := Ok((files.value, dirs.value));
  }

  function PathSeq(items: seq<FileItem>): seq<string> {
    seq(|items|, i requires 0 <= i < |items| => items[i].path)
  }

  lemma IndexCount(byPath: map<string, FileItem>, items: seq<FileItem>)
    requires Indexes(byPath, items) && DistinctPaths(items)
    ensures |byPath| == |items|
  {
    var paths := PathSeq(items);
    assert Elements(paths) == byPath.Keys by {
      assert forall i | 0 <= i < |items| :: paths[i] == items[i].path;
    }
    CountShowsRepetition(paths);
    assert |byPath| == |byPath.Keys|;
  }
}
