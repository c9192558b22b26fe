/** Extracting an archive: everything is checked, and what is accepted is exactly what was described. */
module Restore {
  import opened Wrappers
  import opened Collections
  import opened FileTree
  import opened ArchivePaths
  import opened Manifest

  predicate DistinctMembers(members: seq<Member>) {
    forall i, j | 0 <= i < j < |members| :: members[i].name != members[j].name
  }

  predicate MemberOk(m: Member) {
    SafeName(m.name) && !m.kind.OtherMember?
  }

  predicate MembersOk(members: seq<Member>) {
    DistinctMembers(members) && forall i | 0 <= i < |members| :: MemberOk(members[i])
  }

  /** The members by name. */
  function Table(members: seq<Member>): map<string, MemberKind> {
    if members == [] then map[]
    else
      var last := members[|members| - 1];
      Table(members[..|members| - 1])[last.name := last.kind]
  }

  lemma {:induction false} TableAt(members: seq<Member>)
    ensures forall n :: n in Table(members) <==> exists i | 0 <= i < |members| :: members[i].name == n
    ensures DistinctMembers(members) ==> forall i | 0 <= i < |members| :: Table(members)[members[i].name] == members[i].kind
  {
    if members != [] {
      var front := members[..|members| - 1];
      TableAt(front);
      assert forall i | 0 <= i < |front| :: front[i] == members[i];
    }
  }

  lemma FreshNameKeepsDistinct(members: seq<Member>, m: Member)
    requires DistinctMembers(members) && m.name !in Table(members)
    ensures DistinctMembers(members + [m])
  {
    TableAt(members);
    var more := members + [m];
    assert forall i | 0 <= i < |members| :: more[i] == members[i];
  }

  lemma {:induction false} TableStep(members: seq<Member>, m: Member, more: seq<Member>)
    requires MembersOk(members) && MemberOk(m) && m.name !in Table(members) && more == members + [m]
    ensures MembersOk(more) && Table(more) == Table(members)[m.name := m.kind]
  {
    FreshNameKeepsDistinct(members, m);
    assert more[..|members|] == members;
    forall i | 0 <= i < |more|
      ensures MemberOk(more[i])
    {
      assert more[i] == if i < |members| then members[i] else m;
    }
  }

  lemma TableNext(members: seq<Member>, k: nat)
    requires k < |members| && MembersOk(members[..k]) && MemberOk(members[k]) && members[k].name !in Table(members[..k])
    ensures MembersOk(members[..k + 1]) && Table(members[..k + 1]) == Table(members[..k])[members[k].name := members[k].kind]
  {
    TakeNext(members, k);
    TableStep(members[..k], members[k], members[..k + 1]);
  }

  lemma RepeatedMember(members: seq<Member>, k: nat)
    requires k < |members| && members[k].name in Table(members[..k])
    ensures !DistinctMembers(members)
  {
    TableAt(members[..k]);
    var i :| 0 <= i < k && members[..k][i].name == members[k].name;
    assert members[i].name == members[k].name;
  }

  method IndexMembers(members: seq<Member>) returns (r: Result<map<string, MemberKind>>)
    ensures r.Ok? <==> MembersOk(members)
    ensures r.Ok? ==> r.value == Table(members)
  {
    var table: map<string, MemberKind> := map[];
    for k := 0 to |members|
      invariant table == Table(members[..k]) && MembersOk(members[..k])
    {
      var m := members[k];
      if !MemberOk(m) {
        return Err("UNSAFE_ARCHIVE");
      }
      if m.name in table {
        RepeatedMember(members, k);
        return Err("UNSAFE_ARCHIVE");
      }
      TableNext(members, k);
      table := table[m.name := m.kind];
    }
    assert members[..|members|] == members;
    r := Ok(table);
  }

  function FilesOf(table: map<string, MemberKind>): map<string, string> {
    map n | n in table && n != MANIFEST_NAME && table[n].FileMember? :: table[n].bytes
  }

  function DirsOf(table: map<string, MemberKind>): set<string> {
    set n | n in table && n != MANIFEST_NAME && table[n].DirMember?
  }

  /** Every described file has the size and the hash the manifest gives. */
  predicate ContentOk(items: seq<FileItem>, files: map<string, string>, env: Env) {
    forall i | 0 <= i < |items| && items[i].path in files ::
      |files[items[i].path]| == items[i].size && env.sha(files[items[i].path]) == items[i].digest
  }

  /** The members are those the manifest describes, and they can stand together in one tree. */
  predicate Agrees(m: Manifest, table: map<string, MemberKind>, env: Env) {
    var files := FilesOf(table);
    && ManifestOk(m, env)
    && files.Keys == PathsIn(m.files) && DirsOf(table) == Elements(m.directories)
    && ContentOk(m.files, files, env)
    && OnePathEach(files.Keys) && TreeOk(Paths(DirsOf(table)), Paths(files.Keys))
  }

  predicate HasManifest(table: map<string, MemberKind>, env: Env) {
    MANIFEST_NAME in table && table[MANIFEST_NAME].FileMember? && env.decode(table[MANIFEST_NAME].bytes).Some?
  }

  function ManifestIn(table: map<string, MemberKind>, env: Env): Manifest
    requires HasManifest(table, env)
  {
    env.decode(table[MANIFEST_NAME].bytes).value
  }

  predicate ArchiveOk(members: seq<Member>, env: Env) {
    && MembersOk(members)
    && HasManifest(Table(members), env) && Agrees(ManifestIn(Table(members), env), Table(members), env)
  }

  method CheckContent(expected: map<string, FileItem>, files: map<string, string>, ghost items: seq<FileItem>, env: Env) returns (ok: bool)
    requires Indexes(expected, items) && files.Keys == expected.Keys
    ensures ok <==> ContentOk(items, files, env)
  {
    var todo := files.Keys;
    ghost var done: set<string> := {};
    while todo != {}
      invariant todo !! done && todo + done == files.Keys
      invariant forall n | n in done :: |files[n]| == expected[n].size && env.sha(files[n]) == expected[n].digest
      decreases todo
    {
      var n :| n in todo;
      if |files[n]| != expected[n].size || env.sha(files[n]) != expected[n].digest {
        assert n in PathsIn(items);
        return false;
      }
      todo, done := todo - {n}, done + {n};
    }
    assert done == files.Keys;
    assert forall i | 0 <= i < |items| :: items[i].path in expected.Keys;
    ok := true;
  }

  /** The place lies at or below one of the roots. */
  predicate BelowRoot(p: Path, roots: seq<string>) {
    exists k | 0 <= k < |roots| :: Parts(roots[k]) <= p
  }

  /** The manifest lists the file at this place with its size and hash. */
  predicate Listed(p: Path, bytes: string, m: Manifest, env: Env) {
    exists i | 0 <= i < |m.files| :: Parts(m.files[i].path) == p && m.files[i].size == |bytes| && m.files[i].digest == env.sha(bytes)
  }

  /** The manifest is one that the program writes: current version, readable times, hexadecimal digests, sizes
      that add up, each path once, and safe names only. */
  predicate Genuine(m: Manifest, env: Env) {
    && m.version == "v2" && env.validTime(m.createdAt) && m.roots != []
    && (forall i | 0 <= i < |m.files| ::
          SafeName(m.files[i].path) && m.files[i].size >= 0 && IsDigest(m.files[i].digest) && env.validTime(m.files[i].createdAt))
    && (forall i, j | 0 <= i < j < |m.files| :: m.files[i].path != m.files[j].path)
    && (forall i, j | 0 <= i < j < |m.directories| :: m.directories[i] != m.directories[j])
    && (forall i, j | 0 <= i < |m.files| && 0 <= j < |m.directories| :: m.files[i].path != m.directories[j])
    && (forall i | 0 <= i < |m.directories| :: SafeName(m.directories[i]))
    && (forall i | 0 <= i < |m.roots| :: SafeName(m.roots[i]))
    && m.fileCount == |m.files| && m.totalSize == SumSizes(m.files)
  }

  lemma AcceptedIsGenuine(m: Manifest, env: Env)
    requires ManifestOk(m, env)
    ensures Genuine(m, env)
  {
    forall i | 0 <= i < |m.files|
      ensures ItemOk(m.files[i], env) && m.files[i].path in PathsIn(m.files)
    {
      assert ItemTest(env)(m.files[i]);
    }
    assert forall j | 0 <= j < |m.directories| :: m.directories[j] in Elements(m.directories);
  }

  /** The tree is what the manifest says, and nothing of it lies outside the top or outside the roots. */
  predicate TrueTo(t: Tree, m: Manifest, env: Env) {
    && (forall p | p in t.files.Keys + t.dirs :: Clean(p))
    && (forall p | p in t.files :: p != [] && Listed(p, t.files[p], m, env) && BelowRoot(p, m.roots))
    && (forall i | 0 <= i < |m.files| :: m.files[i].path != MANIFEST_NAME && Parts(m.files[i].path) in t.files)
    && (forall i | 0 <= i < |m.directories| :: Prefixes(Parts(m.directories[i])) <= t.dirs && BelowRoot(Parts(m.directories[i]), m.roots))
    && (forall k | 0 <= k < |m.roots| ::
          Parts(m.roots[k]) in t.files || Parts(m.roots[k]) in t.dirs || Parts(m.roots[k]) == [])
    && m.fileCount == |t.files| && Genuine(m, env)
  }

  /** Every member but the manifest is restored: files with their bytes, directories, and nothing else. */
  predicate AllRestored(members: seq<Member>, t: Tree) {
    forall i | 0 <= i < |members| && members[i].name != MANIFEST_NAME ::
      match members[i].kind
      case FileMember(bytes) => Parts(members[i].name) in t.files && t.files[Parts(members[i].name)] == bytes
      case DirMember => Parts(members[i].name) == [] || Parts(members[i].name) in t.dirs
      case OtherMember => false
  }

  lemma AcceptedIsRestored(members: seq<Member>, t: Tree, env: Env)
    requires ArchiveOk(members, env)
    requires HoldsExactly(t.files, FilesOf(Table(members)), FilesOf(Table(members)).Keys)
    requires t.dirs == Closure(Paths(DirsOf(Table(members))), Paths(FilesOf(Table(members)).Keys))
    ensures AllRestored(members, t)
  {
    TableAt(members);
    forall i | 0 <= i < |members| && members[i].name != MANIFEST_NAME && members[i].kind.DirMember?
      ensures Parts(members[i].name) == [] || Parts(members[i].name) in t.dirs
    {
      var p := Parts(members[i].name);
      assert members[i].name in DirsOf(Table(members)) && p in Paths(DirsOf(Table(members)));
      if p != [] {
        assert p == p[..|p|] && p in Prefixes(p);
      }
    }
    assert forall i | 0 <= i < |members| :: MemberOk(members[i]);
  }

  lemma UnderIsBelow(name: string, roots: seq<string>)
    requires UnderSome(name, roots)
    ensures BelowRoot(Parts(name), roots)
  {
    var k :| 0 <= k < |roots| && Under(name, roots[k]);
    if name != roots[k] {
      var rest := name[|roots[k]| + 1..];
      assert name == roots[k] + "/" + rest;
      PartsConcat(roots[k], rest);
    }
    assert Parts(roots[k]) <= Parts(name);
  }

  lemma CleanAbove(p: Path, q: Path)
    requires Clean(p) && q <= p
    ensures Clean(q)
  {
  }

  /** Everything in a tree of safe names stays below the top. */
  lemma SafeTreeIsClean(t: Tree, files: set<string>, dirs: set<string>)
    requires t.files.Keys == Paths(files) && t.dirs == Closure(Paths(dirs), Paths(files))
    requires forall n | n in files + dirs :: SafeName(n)
    ensures forall p | p in t.files.Keys + t.dirs :: Clean(p)
  {
    forall n | n in files + dirs
      ensures Clean(Parts(n))
    {
      SafeNameIsClean(n);
    }
    forall p | p in t.files.Keys + t.dirs
      ensures Clean(p)
    {
      if p in t.dirs {
        if p in PrefixesOf(Paths(dirs)) {
          var q :| q in Paths(dirs) && p in Prefixes(q);
          CleanAbove(q, p);
        } else {
          var q :| q in Paths(files) && p in Above(q);
          CleanAbove(q, p);
        }
      }
    }
  }

  lemma {:induction false} OnePathSize(names: set<string>)
    requires OnePathEach(names)
    ensures |Paths(names)| == |names|
  {
    if names == {} {
      assert Paths(names) == {};
    } else {
      var n :| n in names;
      var rest := names - {n};
      OnePathSize(rest);
      assert names == rest + {n};
      PathsInsert(rest, n);
      assert Parts(n) !in Paths(rest);
    }
  }

  lemma {:induction false} DistinctPathsSize(items: seq<FileItem>)
    requires DistinctPaths(items)
    ensures |PathsIn(items)| == |items|
  {
    if items != [] {
      var front, last := items[..|items| - 1], items[|items| - 1];
      assert forall i | 0 <= i < |front| :: front[i] == items[i];
      DistinctPathsSize(front);
      assert PathsIn(items) == PathsIn(front) + {last.path};
      assert last.path !in PathsIn(front);
    }
  }

  lemma ListedFiles(t: Tree, m: Manifest, files: map<string, string>, env: Env)
    requires HoldsExactly(t.files, files, files.Keys) && files.Keys == PathsIn(m.files) && ContentOk(m.files, files, env)
    requires RootsOk(m.roots, PathsIn(m.files) + Elements(m.directories))
    ensures forall p | p in t.files :: Listed(p, t.files[p], m, env) && BelowRoot(p, m.roots)
    ensures forall i | 0 <= i < |m.files| :: Parts(m.files[i].path) in t.files
  {
    forall p | p in t.files
      ensures Listed(p, t.files[p], m, env) && BelowRoot(p, m.roots)
    {
      var n :| n in files.Keys && Parts(n) == p;
      var i :| 0 <= i < |m.files| && m.files[i].path == n;
      UnderIsBelow(n, m.roots);
    }
    forall i | 0 <= i < |m.files|
      ensures Parts(m.files[i].path) in t.files
    {
      assert m.files[i].path in PathsIn(m.files);
    }
  }

  lemma DeclaredDirectories(t: Tree, m: Manifest, files: set<string>)
    requires t.dirs == Closure(Paths(Elements(m.directories)), Paths(files))
    requires RootsOk(m.roots, files + Elements(m.directories))
    ensures forall i | 0 <= i < |m.directories| :: Prefixes(Parts(m.directories[i])) <= t.dirs && BelowRoot(Parts(m.directories[i]), m.roots)
  {
    forall i | 0 <= i < |m.directories|
      ensures Prefixes(Parts(m.directories[i])) <= t.dirs && BelowRoot(Parts(m.directories[i]), m.roots)
    {
      assert m.directories[i] in Elements(m.directories);
      UnderIsBelow(m.directories[i], m.roots);
      assert Parts(m.directories[i]) in Paths(Elements(m.directories));
    }
  }

  lemma DeclaredRoots(t: Tree, m: Manifest, files: set<string>)
    requires t.files.Keys == Paths(files) && t.dirs == Closure(Paths(Elements(m.directories)), Paths(files))
    requires RootsOk(m.roots, files + Elements(m.directories))
    ensures forall k | 0 <= k < |m.roots| ::
              Parts(m.roots[k]) in t.files || Parts(m.roots[k]) in t.dirs || Parts(m.roots[k]) == []
  {
    forall k | 0 <= k < |m.roots|
      ensures Parts(m.roots[k]) in t.files || Parts(m.roots[k]) in t.dirs || Parts(m.roots[k]) == []
    {
      var p := Parts(m.roots[k]);
      if m.roots[k] in files {
        assert p in Paths(files);
      } else if p != [] {
        assert p in Paths(Elements(m.directories)) && p == p[..|p|] && p in Prefixes(p);
      }
    }
  }

  /** Whatever archive is accepted, what it leaves is true to its manifest. */
  lemma AcceptedIsTrue(members: seq<Member>, t: Tree, env: Env)
    requires ArchiveOk(members, env)
    requires HoldsExactly(t.files, FilesOf(Table(members)), FilesOf(Table(members)).Keys)
    requires t.dirs == Closure(Paths(DirsOf(Table(members))), Paths(FilesOf(Table(members)).Keys))
    ensures TrueTo(t, ManifestIn(Table(members), env), env)
  {
    var table := Table(members);
    var m, files, dirs := ManifestIn(table, env), FilesOf(table), DirsOf(table);
    TableAt(members);
    forall n | n in files.Keys + dirs
      ensures SafeName(n)
    {
      var i :| 0 <= i < |members| && members[i].name == n;
      assert MemberOk(members[i]);
    }
    AcceptedIsGenuine(m, env);
    SafeTreeIsClean(t, files.Keys, dirs);
    ListedFiles(t, m, files, env);
    DeclaredDirectories(t, m, files.Keys);
    DeclaredRoots(t, m, files.Keys);
    OnePathSize(files.Keys);
    DistinctPathsSize(m.files);
    forall i | 0 <= i < |m.files|
      ensures m.files[i].path != MANIFEST_NAME
    {
      assert ItemTest(env)(m.files[i]);
    }
  }

  /** Extracts an archive exactly when all of it is as described; the result then holds every
      described file, byte for byte, nothing else, and the described directories with their parents,
      and nothing outside the payload is touched, whoever wrote the archive. */
  method ExtractVerified(members: seq<Member>, env: Env) returns (r: Result<Tree>)
    ensures r.Ok? <==> ArchiveOk(members, env)
    ensures r.Ok? ==> HoldsExactly(r.value.files, FilesOf(Table(members)), FilesOf(Table(members)).Keys)
    ensures r.Ok? ==> r.value.dirs == Closure(Paths(DirsOf(Table(members))), Paths(FilesOf(Table(members)).Keys))
    ensures r.Ok? ==> AllRestored(members, r.value) && TrueTo(r.value, ManifestIn(Table(members), env), env)
  {
    var table := IndexMembers(members);
    if table.Err? {
      return Err(table.code);
    }
    if !HasManifest(table.value, env) {
      return Err("INVALID_MANIFEST");
    }
    var m := ManifestIn(table.value, env);
    var plan := ValidateManifest(m, env);
    if plan.Err? {
      return Err(plan.code);
    }
    var files := FilesOf(table.value);
    if files.Keys != plan.value.0.Keys || DirsOf(table.value) != plan.value.1 {
      return Err("INTEGRITY_ERROR");
    }
    r := BuildTree(plan.value.1, files);
    if r.Ok? {
      var same := CheckContent(plan.value.0, files, m.files, env);
      if !same {
        return Err("INTEGRITY_ERROR");
      }
      AcceptedIsTrue(members, r.value, env);
      AcceptedIsRestored(members, r.value, env);
    }
  }
}
