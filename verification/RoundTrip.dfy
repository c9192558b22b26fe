/** Backup then restore: which snapshots come back, and that those come back unchanged. */
module RoundTrip {
  import opened Wrappers
  import opened Collections
  import opened FileTree
  import opened ArchivePaths
  import opened Manifest
  import opened Backup
  import opened Restore

  /** What a caller can check of a snapshot before relying on its backup. */
  predicate Accepted(files: set<string>, dirs: set<string>, roots: seq<string>) {
    && MANIFEST_NAME !in files + dirs
    && (forall n | n in files + dirs :: '\\' !in n)
    && forall i | 0 <= i < |roots| :: roots[i] in files + dirs
  }

  /** A collected payload that the backup could stage. */
  predicate Snapshot(files: set<string>, dirs: set<string>, roots: seq<string>) {
    && roots != [] && files !! dirs
    && (forall n | n in files + dirs :: Normal(n) && UnderSome(n, roots))
    && TreeOk(Paths(dirs), Paths(files))
  }

  lemma MemberShape(members: seq<Member>, l: Layout, files: map<string, string>, dirs: set<string>, roots: seq<string>, now: string, env: Env)
    requires Archived(members, l, files, dirs, roots, now, env)
    ensures |members| == 1 + |l.dirs| + |l.files|
    ensures members[0] == Member(MANIFEST_NAME, FileMember(env.encode(l.manifest)))
    ensures forall i | 0 <= i < |l.dirs| :: members[1 + i] == Member(l.dirs[i], DirMember)
    ensures forall i | 0 <= i < |l.files| :: members[1 + |l.dirs| + i] == Member(l.files[i], FileMember(FileAt(l.files, files, i)))
  {
  }

  /** Where a member comes from. */
  lemma MemberOrigin(members: seq<Member>, l: Layout, files: map<string, string>, dirs: set<string>, roots: seq<string>, now: string, env: Env, i: nat)
    requires Archived(members, l, files, dirs, roots, now, env) && i < |members|
    ensures i == 0 ==> members[i].name == MANIFEST_NAME
    ensures 1 <= i <= |l.dirs| ==> members[i] == Member(l.dirs[i - 1], DirMember) && members[i].name in dirs
    ensures |l.dirs| < i ==>
              var j := i - 1 - |l.dirs|;
              j < |l.files| && l.files[j] in files && members[i] == Member(l.files[j], FileMember(files[l.files[j]]))
  {
    MemberShape(members, l, files, dirs, roots, now, env);
    if 1 <= i <= |l.dirs| {
      assert members[1 + (i - 1)] == Member(l.dirs[i - 1], DirMember);
      assert l.dirs[i - 1] in Elements(l.dirs);
    } else if |l.dirs| < i {
      var j := i - 1 - |l.dirs|;
      assert members[1 + |l.dirs| + j] == Member(l.files[j], FileMember(FileAt(l.files, files, j)));
      assert l.files[j] in Elements(l.files);
    }
  }

  lemma AcceptedMembers(members: seq<Member>, l: Layout, files: map<string, string>, dirs: set<string>, roots: seq<string>, now: string, env: Env)
    requires Archived(members, l, files, dirs, roots, now, env) && Snapshot(files.Keys, dirs, roots)
    requires Accepted(files.Keys, dirs, roots)
    ensures MembersOk(members)
  {
    forall i | 0 <= i < |members|
      ensures MemberOk(members[i])
    {
      MemberOrigin(members, l, files, dirs, roots, now, env, i);
      ManifestNameIsNormal();
      NormalIsSafe(members[i].name);
    }
    forall i, j | 0 <= i < j < |members|
      ensures members[i].name != members[j].name
    {
      MemberOrigin(members, l, files, dirs, roots, now, env, i);
      MemberOrigin(members, l, files, dirs, roots, now, env, j);
    }
  }

  lemma ManifestNameIsNormal()
    ensures Normal(MANIFEST_NAME) && '\\' !in MANIFEST_NAME
  {
    PlainIsNormal(MANIFEST_NAME);
  }

  lemma PlainIsNormal(s: string)
    requires '/' !in s && s != "" && s != "." && s != ".."
    ensures Normal(s)
  {
    SplitPlain(s);
  }

  lemma MemberInTable(members: seq<Member>, i: nat)
    requires DistinctMembers(members) && i < |members|
    ensures members[i].name in Table(members) && Table(members)[members[i].name] == members[i].kind
  {
    TableAt(members);
  }

  lemma FileInTable(members: seq<Member>, l: Layout, files: map<string, string>, dirs: set<string>, roots: seq<string>, now: string, env: Env, n: string)
    requires Archived(members, l, files, dirs, roots, now, env) && DistinctMembers(members) && n in files
    ensures n in Table(members) && Table(members)[n] == FileMember(files[n])
  {
    MemberShape(members, l, files, dirs, roots, now, env);
    assert n in Elements(l.files);
    var j :| 0 <= j < |l.files| && l.files[j] == n;
    MemberInTable(members, 1 + |l.dirs| + j);
  }

  lemma DirInTable(members: seq<Member>, l: Layout, files: map<string, string>, dirs: set<string>, roots: seq<string>, now: string, env: Env, n: string)
    requires Archived(members, l, files, dirs, roots, now, env) && DistinctMembers(members) && n in dirs
    ensures n in Table(members) && Table(members)[n] == DirMember
  {
    MemberShape(members, l, files, dirs, roots, now, env);
    assert n in Elements(l.dirs);
    var j :| 0 <= j < |l.dirs| && l.dirs[j] == n;
    MemberInTable(members, 1 + j);
  }

  lemma TableNames(members: seq<Member>, l: Layout, files: map<string, string>, dirs: set<string>, roots: seq<string>, now: string, env: Env, n: string)
    requires Archived(members, l, files, dirs, roots, now, env) && n in Table(members)
    ensures n == MANIFEST_NAME || n in files || n in dirs
  {
    TableAt(members);
    var i :| 0 <= i < |members| && members[i].name == n;
    MemberOrigin(members, l, files, dirs, roots, now, env, i);
  }

  /** The table of an archive without repeated names. */
  lemma ArchivedTable(members: seq<Member>, l: Layout, files: map<string, string>, dirs: set<string>, roots: seq<string>, now: string, env: Env)
    requires Archived(members, l, files, dirs, roots, now, env) && files.Keys !! dirs && MANIFEST_NAME !in files.Keys + dirs
    requires DistinctMembers(members)
    ensures FilesOf(Table(members)) == files && DirsOf(Table(members)) == dirs
    ensures MANIFEST_NAME in Table(members) && Table(members)[MANIFEST_NAME] == FileMember(env.encode(l.manifest))
  {
    var table := Table(members);
    MemberShape(members, l, files, dirs, roots, now, env);
    MemberInTable(members, 0);
    forall n | n in files
      ensures n in table && table[n] == FileMember(files[n])
    {
      FileInTable(members, l, files, dirs, roots, now, env, n);
    }
    forall n | n in dirs
      ensures n in table && table[n] == DirMember
    {
      DirInTable(members, l, files, dirs, roots, now, env, n);
    }
    forall n | n in table
      ensures n == MANIFEST_NAME || n in files || n in dirs
    {
      TableNames(members, l, files, dirs, roots, now, env, n);
    }
    SplitTable(table, files, dirs);
  }

  lemma SplitTable(table: map<string, MemberKind>, files: map<string, string>, dirs: set<string>)
    requires MANIFEST_NAME !in files.Keys + dirs && files.Keys !! dirs
    requires forall n | n in files :: n in table && table[n] == FileMember(files[n])
    requires forall n | n in dirs :: n in table && table[n] == DirMember
    requires forall n | n in table :: n == MANIFEST_NAME || n in files || n in dirs
    ensures FilesOf(table) == files && DirsOf(table) == dirs
  {
  }

  lemma DescribedItemsAreOk(m: Manifest, files: map<string, string>, dirs: set<string>, roots: seq<string>, now: string, env: Env)
    requires Describes(m, files, dirs, roots, now, env) && EnvOk(env) && env.validTime(now)
    requires MANIFEST_NAME !in files && forall n | n in files :: SafeName(n)
    ensures ItemsOk(m.files, ItemTest(env)) && ContentOk(m.files, files, env)
  {
    forall i | 0 <= i < |m.files|
      ensures ItemOk(m.files[i], env)
    {
      assert ItemFor(m.files[i], files, now, env);
    }
  }

  lemma DescribedManifestIsOk(m: Manifest, files: map<string, string>, dirs: set<string>, roots: seq<string>, now: string, env: Env)
    requires Describes(m, files, dirs, roots, now, env) && EnvOk(env) && env.validTime(now)
    requires Snapshot(files.Keys, dirs, roots) && Accepted(files.Keys, dirs, roots)
    ensures ManifestOk(m, env) && ContentOk(m.files, files, env)
  {
    forall n | n in files.Keys + dirs
      ensures SafeName(n)
    {
      NormalIsSafe(n);
    }
    DescribedItemsAreOk(m, files, dirs, roots, now, env);
    assert RootsOk(m.roots, files.Keys + dirs);
    forall i | 0 <= i < |m.directories|
      ensures SafeName(m.directories[i])
    {
      assert m.directories[i] in Elements(m.directories);
    }
  }

  /** A snapshot that is not accepted makes an archive that is refused. */
  lemma RefusedArchive(members: seq<Member>, l: Layout, files: map<string, string>, dirs: set<string>, roots: seq<string>, now: string, env: Env)
    requires Archived(members, l, files, dirs, roots, now, env) && EnvOk(env) && Snapshot(files.Keys, dirs, roots)
    requires ArchiveOk(members, env)
    ensures Accepted(files.Keys, dirs, roots)
  {
    MemberShape(members, l, files, dirs, roots, now, env);
    forall n | n in files.Keys + dirs
      ensures n != MANIFEST_NAME && '\\' !in n
    {
      MemberNamed(members, l, files, dirs, roots, now, env, n);
      NormalIsSafe(n);
    }
    ArchivedTable(members, l, files, dirs, roots, now, env);
  }

  lemma MemberNamed(members: seq<Member>, l: Layout, files: map<string, string>, dirs: set<string>, roots: seq<string>, now: string, env: Env, n: string)
    requires Archived(members, l, files, dirs, roots, now, env) && n in files.Keys + dirs
    ensures exists i | 1 <= i < |members| :: members[i].name == n
  {
    MemberShape(members, l, files, dirs, roots, now, env);
    if n in files {
      assert n in Elements(l.files);
      var j :| 0 <= j < |l.files| && l.files[j] == n;
      assert members[1 + |l.dirs| + j].name == n;
    } else {
      assert n in Elements(l.dirs);
      var j :| 0 <= j < |l.dirs| && l.dirs[j] == n;
      assert members[1 + j].name == n;
    }
  }

  /** The archive of a staged snapshot passes every check exactly when the snapshot is accepted, and
      then its members are the snapshot's files, byte for byte, and its directories. */
  lemma BackupIsRestorable(members: seq<Member>, l: Layout, files: map<string, string>, dirs: set<string>, roots: seq<string>, now: string, env: Env)
    requires Archived(members, l, files, dirs, roots, now, env) && EnvOk(env) && env.validTime(now)
    requires Snapshot(files.Keys, dirs, roots)
    ensures ArchiveOk(members, env) <==> Accepted(files.Keys, dirs, roots)
    ensures ArchiveOk(members, env) ==> FilesOf(Table(members)) == files && DirsOf(Table(members)) == dirs
  {
    if Accepted(files.Keys, dirs, roots) {
      AcceptedMembers(members, l, files, dirs, roots, now, env);
      ArchivedTable(members, l, files, dirs, roots, now, env);
      DescribedManifestIsOk(l.manifest, files, dirs, roots, now, env);
      NormalNamesAreApart(files.Keys);
    }
    if ArchiveOk(members, env) {
      RefusedArchive(members, l, files, dirs, roots, now, env);
    }
  }

  /** One whole backup followed by one whole restore. */
  method BackupThenRestore(e: Entries, roots: seq<string>, now: string, env: Env) returns (archive: Result<seq<Member>>, restored: Result<Tree>)
    requires EnvOk(env) && env.validTime(now) && roots != [] && e.files.Keys !! e.dirs
    requires forall n | n in e.files.Keys + e.dirs :: Normal(n) && UnderSome(n, roots)
    ensures archive.Ok? <==> TreeOk(Paths(e.dirs), Paths(e.files.Keys))
    ensures restored.Ok? <==> archive.Ok? && Accepted(e.files.Keys, e.dirs, roots)
    ensures restored.Ok? ==> HoldsExactly(restored.value.files, BytesOf(e.files), e.files.Keys)
    ensures restored.Ok? ==> restored.value.dirs == Closure(Paths(e.dirs), Paths(e.files.Keys))
  {
    ghost var l;
    archive, l := CreateBackup(e, roots, now, env);
    if archive.Err? {
      return archive, Err(archive.code);
    }
    assert BytesOf(e.files).Keys == e.files.Keys;
    BackupIsRestorable(archive.value, l, BytesOf(e.files), e.dirs, roots, now, env);
    restored := ExtractVerified(archive.value, env);
  }

  // ----- Directories

  /** Every declared path is at the top or has a declared directory right above it. */
  predicate ParentsDeclared(dirs: set<Path>, files: set<Path>) {
    forall p | p in dirs + files :: |p| <= 1 || Parent(p) in dirs
  }

  lemma {:induction false} PrefixDeclared(dirs: set<Path>, files: set<Path>, p: Path, k: nat)
    requires ParentsDeclared(dirs, files) && p in dirs && 1 <= k <= |p|
    ensures p[..k] in dirs
    decreases |p|
  {
    if k < |p| {
      PrefixDeclared(dirs, files, Parent(p), k);
      assert Parent(p)[..k] == p[..k];
    } else {
      assert p[..k] == p;
    }
  }

  lemma ClosedDirectories(dirs: set<Path>, files: set<Path>)
    requires ParentsDeclared(dirs, files)
    ensures Closure(dirs, files) <= dirs
  {
    forall q | q in AboveOf(files)
      ensures q in dirs
    {
      var p :| p in files && q in Above(p);
      PrefixDeclared(dirs, files, Parent(p), |q|);
    }
    forall q | q in PrefixesOf(dirs)
      ensures q in dirs
    {
      var p :| p in dirs && q in Prefixes(p);
      PrefixDeclared(dirs, files, p, |q|);
    }
  }

  lemma ParentIsMade(dirs: set<Path>, files: set<Path>, p: Path)
    requires p in dirs + files && |p| > 1
    ensures Parent(p) in Closure(dirs, files)
  {
    assert Parent(p)[..|p| - 1] == Parent(p);
    if p in files {
      assert Parent(p) in Above(p);
    } else {
      assert Parent(p) in Prefixes(p);
    }
  }

  /** Restoring gives exactly the declared directories when each declared path has its parent
      declared, and gives extra ones otherwise. */
  lemma DirectoriesAreExact(dirs: set<Path>, files: set<Path>)
    requires [] !in dirs
    ensures Closure(dirs, files) == dirs <==> ParentsDeclared(dirs, files)
    ensures dirs <= Closure(dirs, files)
  {
    forall p | p in dirs
      ensures p in PrefixesOf(dirs)
    {
      assert p[..|p|] == p;
      assert p in Prefixes(p);
    }
    if ParentsDeclared(dirs, files) {
      ClosedDirectories(dirs, files);
    }
    forall p | p in dirs + files && |p| > 1
      ensures Parent(p) in Closure(dirs, files)
    {
      ParentIsMade(dirs, files, p);
    }
  }

  /** Every root is at the top of the archive or right below a declared directory. */
  predicate RootsAtTop(roots: seq<string>, dirs: set<string>) {
    forall i | 0 <= i < |roots| :: |Parts(roots[i])| == 1 || Parent(Parts(roots[i])) in Paths(dirs)
  }

  /** When every declared name is a root or lies right below a declared directory, the restored
      directories are the declared ones exactly when every root is at the top or right below one. */
  lemma WalkedDirectoriesAreExact(files: set<string>, dirs: set<string>, roots: seq<string>)
    requires forall n | n in files + dirs :: Normal(n) && (n in roots || Parent(Parts(n)) in Paths(dirs))
    requires forall i | 0 <= i < |roots| :: roots[i] in files + dirs
    ensures Closure(Paths(dirs), Paths(files)) == Paths(dirs) <==> RootsAtTop(roots, dirs)
  {
    forall n | n in files + dirs
      ensures |Parts(n)| >= 1 && Parts(n) in Paths(files) + Paths(dirs)
    {
      NormalIsPosix(n);
    }
    DirectoriesAreExact(Paths(dirs), Paths(files));
    if ParentsDeclared(Paths(dirs), Paths(files)) {
      forall i | 0 <= i < |roots|
        ensures |Parts(roots[i])| == 1 || Parent(Parts(roots[i])) in Paths(dirs)
      {
        assert roots[i] in files + dirs;
      }
    }
  }

  /** The path of a candidate below its root. */
  function RelPath(rel: string): Path {
    if rel == "." then [] else Split(rel)
  }

  predicate IsParentDir(r: Root, k: nat, j: nat, includeEnv: bool)
    requires k < |r.candidates| && j < |r.candidates|
  {
    TakenDir(FoundIn(r)[k], includeEnv) && RelPath(r.candidates[k].rel) == Parent(RelPath(r.candidates[j].rel))
  }

  /** A walk that takes the directory right above everything it takes, as walking a directory tree
      downwards does when whole subtrees are excluded. */
  predicate FullWalk(r: Root, includeEnv: bool) {
    forall j | 0 <= j < |r.candidates| && Taken(FoundIn(r)[j], includeEnv) && r.candidates[j].rel != "." ::
      exists k | 0 <= k < |r.candidates| :: IsParentDir(r, k, j, includeEnv)
  }

  lemma PartsOfCandidate(r: Root, c: Candidate)
    requires WellNamed(r) && c in r.candidates
    ensures Parts(ArchiveName(r.arc, c.rel)) == Split(r.arc) + RelPath(c.rel)
  {
    ArcNameIsNormal(r.arc);
    CandidateName(r, c);
    NormalIsPosix(ArchiveName(r.arc, c.rel));
    if c.rel != "." {
      NormalConcat(r.arc, c.rel);
    }
  }

  lemma ParentPath(r: Root, j: nat, k: nat, includeEnv: bool)
    requires WellNamed(r) && j < |r.candidates| && k < |r.candidates| && IsParentDir(r, k, j, includeEnv) && r.candidates[j].rel != "."
    ensures Parent(Parts(FoundIn(r)[j].name)) == Parts(FoundIn(r)[k].name)
  {
    PartsOfCandidate(r, r.candidates[j]);
    PartsOfCandidate(r, r.candidates[k]);
    ParentOfJoined(Split(r.arc), RelPath(r.candidates[j].rel));
  }

  lemma ParentOfJoined(a: Path, b: Path)
    requires b != []
    ensures Parent(a + b) == a + Parent(b)
  {
  }

  lemma DirOnWalk(roots: seq<Root>, i: nat, k: nat, includeEnv: bool)
    requires i < |roots| && k < |roots[i].candidates| && TakenDir(FoundIn(roots[i])[k], includeEnv)
    ensures Parts(FoundIn(roots[i])[k].name) in Paths(DirNames(Walk(roots), includeEnv))
  {
    FoundOnWalk(roots, i, k);
    var x := FoundIn(roots[i])[k];
    var m :| 0 <= m < |Walk(roots)| && Walk(roots)[m] == x;
    assert x.name in DirNames(Walk(roots), includeEnv);
  }

  /** Below its root, a candidate's place is right below that of its parent directory. */
  lemma ParentIsTaken(roots: seq<Root>, i: nat, j: nat, includeEnv: bool)
    requires i < |roots| && WellNamed(roots[i]) && FullWalk(roots[i], includeEnv) && j < |roots[i].candidates|
    requires Taken(FoundIn(roots[i])[j], includeEnv) && roots[i].candidates[j].rel != "."
    ensures Parent(Parts(FoundIn(roots[i])[j].name)) in Paths(DirNames(Walk(roots), includeEnv))
  {
    var k :| 0 <= k < |roots[i].candidates| && IsParentDir(roots[i], k, j, includeEnv);
    ParentPath(roots[i], j, k, includeEnv);
    DirOnWalk(roots, i, k, includeEnv);
  }

  lemma {:induction false} OriginOnWalk(roots: seq<Root>, x: Found) returns (i: nat, j: nat)
    requires x in Walk(roots)
    ensures i < |roots| && j < |roots[i].candidates| && FoundIn(roots[i])[j] == x
  {
    var front, last := roots[..|roots| - 1], roots[|roots| - 1];
    if x in Walk(front) {
      i, j := OriginOnWalk(front, x);
    } else {
      i := |roots| - 1;
      j :| 0 <= j < |FoundIn(last)| && FoundIn(last)[j] == x;
    }
  }

  /** Full walks of the roots give what the exactness of the directories rests on. */
  lemma FullWalksAreExact(roots: seq<Root>, includeEnv: bool)
    requires forall i | 0 <= i < |roots| :: WellNamed(roots[i]) && FullWalk(roots[i], includeEnv)
    requires forall i | 0 <= i < |roots| ::
               ArcNames(roots)[i] in FileNames(Walk(roots), includeEnv) + DirNames(Walk(roots), includeEnv)
    ensures var files, dirs := FileNames(Walk(roots), includeEnv), DirNames(Walk(roots), includeEnv);
            Closure(Paths(dirs), Paths(files)) == Paths(dirs) <==> RootsAtTop(ArcNames(roots), dirs)
  {
    var files, dirs := FileNames(Walk(roots), includeEnv), DirNames(Walk(roots), includeEnv);
    NamesAreUnderRoots(roots, includeEnv);
    forall n | n in files + dirs
      ensures n in ArcNames(roots) || Parent(Parts(n)) in Paths(dirs)
    {
      TakenHasParent(roots, n, includeEnv);
    }
    WalkedDirectoriesAreExact(files, dirs, ArcNames(roots));
  }

  lemma {:induction false} TakenHasParent(roots: seq<Root>, n: string, includeEnv: bool)
    requires forall i | 0 <= i < |roots| :: WellNamed(roots[i]) && FullWalk(roots[i], includeEnv)
    requires n in FileNames(Walk(roots), includeEnv) + DirNames(Walk(roots), includeEnv)
    ensures n in ArcNames(roots) || Parent(Parts(n)) in Paths(DirNames(Walk(roots), includeEnv))
  {
    var k :| 0 <= k < |Walk(roots)| && Taken(Walk(roots)[k], includeEnv) && Walk(roots)[k].name == n;
    var i, j := OriginOnWalk(roots, Walk(roots)[k]);
    if roots[i].candidates[j].rel == "." {
      assert ArcNames(roots)[i] == n;
    } else {
      ParentIsTaken(roots, i, j, includeEnv);
    }
  }

  // ----- From the roots on disk

  function ArcNames(roots: seq<Root>): seq<string> {
    seq(|roots|, i requires 0 <= i < |roots| => roots[i].arc)
  }

  lemma NamesAreUnderRoots(roots: seq<Root>, includeEnv: bool)
    requires forall i | 0 <= i < |roots| :: WellNamed(roots[i])
    ensures forall n | n in FileNames(Walk(roots), includeEnv) + DirNames(Walk(roots), includeEnv) ::
              Normal(n) && UnderSome(n, ArcNames(roots))
  {
    WalkNames(roots);
    forall n | n in FileNames(Walk(roots), includeEnv) + DirNames(Walk(roots), includeEnv)
      ensures Normal(n) && UnderSome(n, ArcNames(roots))
    {
      var k :| 0 <= k < |Walk(roots)| && Walk(roots)[k].name == n;
      assert Walk(roots)[k] in Walk(roots);
      var i :| 0 <= i < |roots| && Under(n, roots[i].arc);
      assert Under(n, ArcNames(roots)[i]);
    }
  }

  /** The walk of the root came to the root itself and took it. */
  predicate Visited(r: Root, includeEnv: bool) {
    exists j | 0 <= j < |r.candidates| :: r.candidates[j].rel == "." && Storable(FoundIn(r)[j], includeEnv) && Taken(FoundIn(r)[j], includeEnv)
  }

  lemma {:induction false} FoundOnWalk(roots: seq<Root>, i: nat, j: nat)
    requires i < |roots| && j < |roots[i].candidates|
    ensures FoundIn(roots[i])[j] in Walk(roots)
  {
    if i < |roots| - 1 {
      FoundOnWalk(roots[..|roots| - 1], i, j);
    }
  }

  /** A root that the walk took is itself a declared file or directory. */
  lemma VisitedRootsAreDeclared(roots: seq<Root>, includeEnv: bool)
    requires forall i | 0 <= i < |roots| :: Visited(roots[i], includeEnv)
    ensures forall i | 0 <= i < |roots| ::
              ArcNames(roots)[i] in FileNames(Walk(roots), includeEnv) + DirNames(Walk(roots), includeEnv)
  {
    forall i | 0 <= i < |roots|
      ensures roots[i].arc in FileNames(Walk(roots), includeEnv) + DirNames(Walk(roots), includeEnv)
    {
      var j :| 0 <= j < |roots[i].candidates| && roots[i].candidates[j].rel == "."
               && Storable(FoundIn(roots[i])[j], includeEnv) && Taken(FoundIn(roots[i])[j], includeEnv);
      FoundOnWalk(roots, i, j);
      var k :| 0 <= k < |Walk(roots)| && Walk(roots)[k] == FoundIn(roots[i])[j];
      assert TakenFile(Walk(roots)[k], includeEnv) || TakenDir(Walk(roots)[k], includeEnv);
    }
  }

  /** The tree holds, for each file the walk takes, its bytes at its place, and no other file. */
  predicate HoldsWalk(files: map<Path, string>, w: seq<Found>, includeEnv: bool) {
    && files.Keys == Paths(FileNames(w, includeEnv))
    && forall i | 0 <= i < |w| && TakenFile(w[i], includeEnv) :: files[Parts(w[i].name)] == w[i].it.kind.bytes
  }

  lemma PayloadIsWalk(files: map<Path, string>, e: Entries, w: seq<Found>, includeEnv: bool)
    requires Holds(e, w, includeEnv) && HoldsExactly(files, BytesOf(e.files), e.files.Keys)
    ensures HoldsWalk(files, w, includeEnv)
  {
    forall i | 0 <= i < |w| && TakenFile(w[i], includeEnv)
      ensures Parts(w[i].name) in files && files[Parts(w[i].name)] == w[i].it.kind.bytes
    {
      assert w[i].name in e.files;
      assert Parts(w[i].name) in Paths(e.files.Keys);
      assert files[Parts(w[i].name)] == BytesOf(e.files)[w[i].name];
    }
  }

  /** From the roots on disk to the restored tree. The payload is refused exactly when something on the
      walk stops it, the archive exactly when the payload cannot be staged, the restore exactly when
      the snapshot is not accepted; and what is restored is, byte for byte, what the walk took. When
      every root was fully walked, the directories are the walk's own exactly when every root is at
      the top of the archive or right below a directory of the walk. */
  method BackupRootsThenRestore(roots: seq<Root>, includeEnv: bool, now: string, env: Env)
      returns (payload: Result<Entries>, archive: Result<seq<Member>>, restored: Result<Tree>)
    requires EnvOk(env) && env.validTime(now) && roots != [] && SteadyDisk(Walk(roots))
    requires forall i | 0 <= i < |roots| :: WellNamed(roots[i])
    ensures payload.Ok? <==> WalkOk(Walk(roots), includeEnv)
    ensures archive.Ok? <==> payload.Ok? && TreeOk(Paths(DirNames(Walk(roots), includeEnv)), Paths(FileNames(Walk(roots), includeEnv)))
    ensures restored.Ok? <==>
            archive.Ok? && Accepted(FileNames(Walk(roots), includeEnv), DirNames(Walk(roots), includeEnv), ArcNames(roots))
    ensures restored.Ok? ==> HoldsWalk(restored.value.files, Walk(roots), includeEnv)
    ensures restored.Ok? ==>
              restored.value.dirs == Closure(Paths(DirNames(Walk(roots), includeEnv)), Paths(FileNames(Walk(roots), includeEnv)))
    ensures restored.Ok? && (forall i | 0 <= i < |roots| :: FullWalk(roots[i], includeEnv)) ==>
              (restored.value.dirs == Paths(DirNames(Walk(roots), includeEnv)) <==> RootsAtTop(ArcNames(roots), DirNames(Walk(roots), includeEnv)))
  {
    payload := PayloadEntries(roots, includeEnv);
    if payload.Err? {
      return payload, Err(payload.code), Err(payload.code);
    }
    var e := payload.value;
    TakenAreApart(Walk(roots), includeEnv);
    NamesAreUnderRoots(roots, includeEnv);
    archive, restored := BackupThenRestore(e, ArcNames(roots), now, env);
    if restored.Ok? {
      PayloadIsWalk(restored.value.files, e, Walk(roots), includeEnv);
      if forall i | 0 <= i < |roots| :: FullWalk(roots[i], includeEnv) {
        FullWalksAreExact(roots, includeEnv);
      }
    }
  }

  // ----- Where restoring does not give back what was backed up

  /** A directory two levels down is accepted, and comes back with one that was never declared. */
  lemma NestedRootGainsParent()
    ensures Snapshot({}, {"a/b"}, ["a/b"]) && Accepted({}, {"a/b"}, ["a/b"])
    ensures Closure(Paths({"a/b"}), {}) == {["a"], ["a", "b"]} && Paths({"a/b"}) == {["a", "b"]}
  {
    PlainIsNormal("a");
    PlainIsNormal("b");
    assert "a/b" == "a" + "/" + "b";
    NormalConcat("a", "b");
    SplitPlain("a");
    SplitPlain("b");
    NormalIsPosix("a/b");
    var p: Path := ["a", "b"];
    assert Parts("a/b") == p;
    assert Prefixes(p) == {["a"], p} by {
      assert p[..1] == ["a"] && p[..2] == p;
    }
    ClosureInsertDir({}, {}, p);
    assert {} + {p} == {p} && Closure({}, {}) == {};
    assert Paths({"a/b"}) == {p} && Paths({}) == {};
    assert Under("a/b", ["a/b"][0]);
    assert ["a/b"][0] in {} + {"a/b"};
  }

  /** A walk on which everything is excluded takes nothing and meets no obstacle. */
  lemma ExcludedIsPassedOver(w: seq<Found>, includeEnv: bool)
    requires forall i | 0 <= i < |w| :: w[i].it.excluded
    ensures WalkOk(w, includeEnv) && FileNames(w, includeEnv) == {} && DirNames(w, includeEnv) == {}
  {
    assert forall i | 0 <= i < |w| :: !Taken(w[i], includeEnv);
  }

  lemma {:induction false} NothingIsASnapshot(root: string)
    ensures Snapshot({}, {}, [root]) && !Accepted({}, {}, [root])
  {
    assert Paths({}) == {} && Closure({}, {}) == {};
    assert [root][0] !in {} + {};
  }

  lemma {:induction false} ExcludedWalk(roots: seq<Root>)
    requires forall r | r in roots :: forall c | c in r.candidates :: c.excluded
    ensures forall x | x in Walk(roots) :: x.it.excluded
  {
    if roots != [] {
      ExcludedWalk(roots[..|roots| - 1]);
      assert roots[|roots| - 1] in roots;
      assert forall x | x in FoundIn(roots[|roots| - 1]) :: x.it in roots[|roots| - 1].candidates;
    }
  }

  /** Roots that the walk passes over, for instance inside the excluded output directory, stop nothing:
      the snapshot is empty. */
  lemma PassedOverRootsAreNoObstacle(roots: seq<Root>, includeEnv: bool)
    requires forall r | r in roots :: forall c | c in r.candidates :: c.excluded
    ensures WalkOk(Walk(roots), includeEnv) && FileNames(Walk(roots), includeEnv) == {} && DirNames(Walk(roots), includeEnv) == {}
  {
    ExcludedWalk(roots);
    assert forall i | 0 <= i < |Walk(roots)| :: Walk(roots)[i] in Walk(roots);
    ExcludedIsPassedOver(Walk(roots), includeEnv);
  }

  /** And no archive of such a root is ever restored. */
  lemma PassedOverRootIsLost(root: string, files: map<string, string>, members: seq<Member>, l: Layout, now: string, env: Env)
    requires EnvOk(env) && env.validTime(now) && files == map[]
    ensures Snapshot(files.Keys, {}, [root])
    ensures Archived(members, l, files, {}, [root], now, env) ==> !ArchiveOk(members, env)
  {
    assert files.Keys == {};
    NothingIsASnapshot(root);
    if Archived(members, l, files, {}, [root], now, env) {
      BackupIsRestorable(members, l, files, {}, [root], now, env);
    }
  }

  lemma SingleFileSnapshot(name: string)
    requires '/' !in name && name != "" && name != "." && name != ".."
    ensures Snapshot({name}, {}, [name])
  {
    PlainIsNormal(name);
    NormalIsPosix(name);
    SplitPlain(name);
    assert Under(name, [name][0]);
    assert Paths({}) == {} && Paths({name}) == {[name]};
    ClosureInsertFile({}, {}, [name]);
    assert {} + {[name]} == {[name]} && Closure({}, {}) == {};
    assert Above([name]) == {};
  }

  /** A file whose name has a backslash, or is the manifest's, can be backed up, and no archive of it is
      ever restored. */
  lemma UnsafeNameIsLost(name: string, bytes: string, members: seq<Member>, l: Layout, now: string, env: Env)
    requires EnvOk(env) && env.validTime(now) && ('\\' in name || name == MANIFEST_NAME)
    requires '/' !in name && name != "." && name != ".."
    ensures Snapshot({name}, {}, [name])
    ensures Archived(members, l, map[name := bytes], {}, [name], now, env) ==> !ArchiveOk(members, env)
  {
    SingleFileSnapshot(name);
    var files := map[name := bytes];
    assert files.Keys == {name};
    if Archived(members, l, files, {}, [name], now, env) {
      BackupIsRestorable(members, l, files, {}, [name], now, env);
      assert name in files.Keys + {};
    }
  }

  lemma BackslashNameIsLost(members: seq<Member>, l: Layout, now: string, env: Env)
    requires EnvOk(env) && env.validTime(now)
    ensures Snapshot({"a\\b"}, {}, ["a\\b"])
    ensures Archived(members, l, map["a\\b" := "x"], {}, ["a\\b"], now, env) ==> !ArchiveOk(members, env)
  {
    assert "a\\b"[1] == '\\';
    UnsafeNameIsLost("a\\b", "x", members, l, now, env);
  }
}
