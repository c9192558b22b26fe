/** What a backup holds: the payload entries, the manifest and the archive members. */
module Backup {
  import opened Wrappers
  import opened Collections
  import opened FileTree
  import opened ArchivePaths
  import opened Manifest

  // ----- Collecting the payload

  datatype Kind = Directory | Regular(bytes: string) | Symlink | Special

  /** One path found under a root. `rel` is its path below the root, "." for the root itself;
      `source` identifies the path on disk. */
  datatype Candidate = Candidate(rel: string, source: nat, kind: Kind, excluded: bool, isEnv: bool)

  datatype Root = Root(arc: string, candidates: seq<Candidate>)

  datatype SourceFile = SourceFile(source: nat, bytes: string)

  datatype Entries = Entries(files: map<string, SourceFile>, dirs: set<string>)

  function ArchiveName(root: string, rel: string): string {
    if rel == "." then root else root + "/" + rel
  }

  /** What the walk of a root sees: names the file system can produce. */
  predicate WellNamed(r: Root) {
    && ArcNameOk(r.arc) && r.arc != "."
    && forall i | 0 <= i < |r.candidates| :: r.candidates[i].rel == "." || Normal(r.candidates[i].rel)
  }

  lemma CandidateName(r: Root, c: Candidate)
    requires WellNamed(r) && c in r.candidates
    ensures Normal(ArchiveName(r.arc, c.rel)) && Under(ArchiveName(r.arc, c.rel), r.arc)
  {
    ArcNameIsNormal(r.arc);
    if c.rel != "." {
      NormalConcat(r.arc, c.rel);
    }
  }

  /** A candidate under its archive name. */
  datatype Found = Found(name: string, it: Candidate)

  function FoundIn(r: Root): seq<Found> {
    seq(|r.candidates|, j requires 0 <= j < |r.candidates| => Found(ArchiveName(r.arc, r.candidates[j].rel), r.candidates[j]))
  }

  /** Everything the walks of the roots come across, in order. */
  function Walk(roots: seq<Root>): seq<Found> {
    if roots == [] then [] else Walk(roots[..|roots| - 1]) + FoundIn(roots[|roots| - 1])
  }

  lemma {:induction false} WalkPrefix(roots: seq<Root>, i: nat)
    requires i <= |roots|
    ensures Walk(roots[..i]) <= Walk(roots)
  {
    if i < |roots| {
      WalkPrefix(roots[..|roots| - 1], i);
      assert roots[..|roots| - 1][..i] == roots[..i];
    } else {
      assert roots[..i] == roots;
    }
  }

  /** Every name the walks give is a normal path under one of the roots. */
  lemma {:induction false} WalkNames(roots: seq<Root>)
    requires forall i | 0 <= i < |roots| :: WellNamed(roots[i])
    ensures forall x | x in Walk(roots) :: Normal(x.name) && exists i | 0 <= i < |roots| :: Under(x.name, roots[i].arc)
  {
    if roots != [] {
      var front, last := roots[..|roots| - 1], roots[|roots| - 1];
      WalkNames(front);
      forall x | x in Walk(roots)
        ensures Normal(x.name) && exists i | 0 <= i < |roots| :: Under(x.name, roots[i].arc)
      {
        if x in Walk(front) {
          var i :| 0 <= i < |front| && Under(x.name, front[i].arc);
          assert Under(x.name, roots[i].arc);
        } else {
          CandidateName(last, x.it);
          assert Under(x.name, roots[|roots| - 1].arc);
        }
      }
    }
  }

  /** The item is to be in the backup. */
  predicate Taken(x: Found, includeEnv: bool) {
    !x.it.excluded && !(x.it.isEnv && !includeEnv)
  }

  predicate TakenFile(x: Found, includeEnv: bool) { Taken(x, includeEnv) && x.it.kind.Regular? }

  predicate TakenDir(x: Found, includeEnv: bool) { Taken(x, includeEnv) && x.it.kind.Directory? }

  /** Links and special files stop a backup, unless they are excluded. */
  predicate Storable(x: Found, includeEnv: bool) {
    !x.it.excluded ==> !x.it.kind.Symlink? && (Taken(x, includeEnv) ==> x.it.kind.Directory? || x.it.kind.Regular?)
  }

  /** Two items claim one name: a file and a directory, or two different files. */
  predicate Clash(x: Found, y: Found, includeEnv: bool) {
    && x.name == y.name && Taken(x, includeEnv) && Taken(y, includeEnv)
    && (x.it.kind.Regular? || y.it.kind.Regular?)
    && (x.it.kind.Regular? && y.it.kind.Regular? ==> x.it.source != y.it.source)
  }

  /** Nothing on the walk stops the backup. */
  predicate WalkOk(w: seq<Found>, includeEnv: bool) {
    && (forall i | 0 <= i < |w| :: Storable(w[i], includeEnv))
    && forall i, j | 0 <= i < j < |w| :: !Clash(w[i], w[j], includeEnv)
  }

  /** One path on disk looks the same whenever it is met. */
  predicate SteadyDisk(w: seq<Found>) {
    forall i, j | 0 <= i < j < |w| && w[i].it.source == w[j].it.source :: w[i].it.kind == w[j].it.kind
  }

  function FileNames(w: seq<Found>, includeEnv: bool): set<string> {
    set i | 0 <= i < |w| && TakenFile(w[i], includeEnv) :: w[i].name
  }

  function DirNames(w: seq<Found>, includeEnv: bool): set<string> {
    set i | 0 <= i < |w| && TakenDir(w[i], includeEnv) :: w[i].name
  }

  /** The payload is exactly what the walk takes: these names and no others, files with their bytes. */
  predicate Holds(e: Entries, w: seq<Found>, includeEnv: bool) {
    && e.files.Keys == FileNames(w, includeEnv) && e.dirs == DirNames(w, includeEnv)
    && forall i | 0 <= i < |w| && TakenFile(w[i], includeEnv) :: e.files[w[i].name] == SourceFile(w[i].it.source, w[i].it.kind.bytes)
  }

  function Added(e: Entries, x: Found, includeEnv: bool): Entries {
    if TakenDir(x, includeEnv) then Entries(e.files, e.dirs + {x.name})
    else if TakenFile(x, includeEnv) then Entries(e.files[x.name := SourceFile(x.it.source, x.it.kind.bytes)], e.dirs)
    else e
  }

  lemma NamesAppend(w: seq<Found>, x: Found, includeEnv: bool)
    ensures FileNames(w + [x], includeEnv) == FileNames(w, includeEnv) + if TakenFile(x, includeEnv) then {x.name} else {}
    ensures DirNames(w + [x], includeEnv) == DirNames(w, includeEnv) + if TakenDir(x, includeEnv) then {x.name} else {}
  {
    var more := w + [x];
    assert forall i | 0 <= i < |w| :: more[i] == w[i];
    assert more[|w|] == x;
  }

  /** Which items end the walk badly, seen from the payload so far. */
  lemma ClashIsSeen(e: Entries, w: seq<Found>, x: Found, includeEnv: bool)
    requires Holds(e, w, includeEnv) && WalkOk(w, includeEnv)
    ensures WalkOk(w + [x], includeEnv) <==>
            && Storable(x, includeEnv)
            && (TakenDir(x, includeEnv) ==> x.name !in e.files)
            && (TakenFile(x, includeEnv) ==> x.name !in e.dirs && (x.name in e.files ==> e.files[x.name].source == x.it.source))
  {
    var more := w + [x];
    assert forall i | 0 <= i < |w| :: more[i] == w[i];
    assert more[|w|] == x;
    if WalkOk(more, includeEnv) {
      assert forall i | 0 <= i < |w| :: !Clash(w[i], x, includeEnv);
    } else if Storable(x, includeEnv) {
      var i, j :| 0 <= i < j < |more| && Clash(more[i], more[j], includeEnv);
      assert j == |w| && Clash(w[i], x, includeEnv);
    }
  }

  lemma AddedHolds(e: Entries, w: seq<Found>, x: Found, includeEnv: bool)
    requires Holds(e, w, includeEnv) && WalkOk(w + [x], includeEnv) && SteadyDisk(w + [x])
    ensures Holds(Added(e, x, includeEnv), w + [x], includeEnv)
  {
    var more := w + [x];
    NamesAppend(w, x, includeEnv);
    forall i | 0 <= i < |w| && TakenFile(w[i], includeEnv)
      ensures w[i].name in FileNames(w, includeEnv) && more[i] == w[i]
      ensures TakenFile(x, includeEnv) && x.name == w[i].name ==> w[i].it.source == x.it.source && w[i].it.kind == x.it.kind
    {
      assert more[i] == w[i] && more[|w|] == x;
      assert !Clash(more[i], more[|w|], includeEnv);
    }
    assert more[|w|] == x;
  }

  /** One candidate enters the payload, is passed over, or stops the backup. */
  method AddCandidate(e: Entries, x: Found, includeEnv: bool, ghost w: seq<Found>) returns (out: Result<Entries>)
    requires Holds(e, w, includeEnv) && WalkOk(w, includeEnv) && SteadyDisk(w + [x])
    ensures out.Ok? <==> WalkOk(w + [x], includeEnv)
    ensures out.Ok? ==> Holds(out.value, w + [x], includeEnv)
  {
    var name, c := x.name, x.it;
    ClashIsSeen(e, w, x, includeEnv);
    if WalkOk(w + [x], includeEnv) {
      AddedHolds(e, w, x, includeEnv);
    }
    if c.excluded {
      return Ok(e);
    }
    if c.kind.Symlink? {
      return Err("symlink");
    }
    if c.isEnv && !includeEnv {
      return Ok(e);
    }
    match c.kind
    case Directory =>
      if name in e.files { return Err("conflict"); }
      out := Ok(Entries(e.files, e.dirs + {name}));
    case Regular(bytes) =>
      if name in e.dirs { return Err("conflict"); }
      if name in e.files {
        if e.files[name].source != c.source { return Err("conflict"); }
        KnownFile(e, w, x, includeEnv);
        out := Ok(e);
      } else {
        out := Ok(Entries(e.files[name := SourceFile(c.source, bytes)], e.dirs));
      }
    case _ => out := Err("unsupported");
  }

  /** A file met again is already in the payload as it is. */
  lemma KnownFile(e: Entries, w: seq<Found>, x: Found, includeEnv: bool)
    requires Holds(e, w, includeEnv) && SteadyDisk(w + [x]) && TakenFile(x, includeEnv)
    requires x.name in e.files && e.files[x.name].source == x.it.source
    ensures Added(e, x, includeEnv) == e
  {
    var i :| 0 <= i < |w| && TakenFile(w[i], includeEnv) && w[i].name == x.name;
    assert (w + [x])[i] == w[i] && (w + [x])[|w|] == x;
  }

  lemma WalkOkPrefix(w: seq<Found>, whole: seq<Found>, includeEnv: bool)
    requires w <= whole
    ensures WalkOk(whole, includeEnv) ==> WalkOk(w, includeEnv)
    ensures SteadyDisk(whole) ==> SteadyDisk(w)
  {
    assert forall i | 0 <= i < |w| :: w[i] == whole[i];
  }

  /** Collects every candidate of one root. */
  method AddRoot(e: Entries, r: Root, includeEnv: bool, ghost w: seq<Found>) returns (out: Result<Entries>)
    requires Holds(e, w, includeEnv) && WalkOk(w, includeEnv) && SteadyDisk(w + FoundIn(r))
    ensures out.Ok? <==> WalkOk(w + FoundIn(r), includeEnv)
    ensures out.Ok? ==> Holds(out.value, w + FoundIn(r), includeEnv)
  {
    out := Ok(e);
    ghost var all := w + FoundIn(r);
    assert w + FoundIn(r)[..0] == w;
    for j := 0 to |r.candidates|
      invariant out.Ok? && Holds(out.value, w + FoundIn(r)[..j], includeEnv) && WalkOk(w + FoundIn(r)[..j], includeEnv)
    {
      var x := Found(ArchiveName(r.arc, r.candidates[j].rel), r.candidates[j]);
      ghost var before := w + FoundIn(r)[..j];
      assert before + [x] == w + FoundIn(r)[..j + 1] <= all;
      WalkOkPrefix(before + [x], all, includeEnv);
      out := AddCandidate(out.value, x, includeEnv, before);
      if out.Err? {
        return;
      }
    }
    assert FoundIn(r)[..|r.candidates|] == FoundIn(r);
  }

  /** Collects every candidate of every root. It succeeds exactly when nothing on the walk stops it, and
      the payload is then exactly what the walk takes. */
  method PayloadEntries(roots: seq<Root>, includeEnv: bool) returns (out: Result<Entries>)
    requires SteadyDisk(Walk(roots))
    ensures out.Ok? <==> WalkOk(Walk(roots), includeEnv)
    ensures out.Ok? ==> Holds(out.value, Walk(roots), includeEnv)
  {
    out := Ok(Entries(map[], {}));
    for i := 0 to |roots|
      invariant out.Ok? && Holds(out.value, Walk(roots[..i]), includeEnv) && WalkOk(Walk(roots[..i]), includeEnv)
    {
      WalkPrefix(roots, i + 1);
      assert roots[..i + 1][..i] == roots[..i];
      WalkOkPrefix(Walk(roots[..i + 1]), Walk(roots), includeEnv);
      out := AddRoot(out.value, roots[i], includeEnv, Walk(roots[..i]));
      if out.Err? {
        return;
      }
    }
    assert roots[..|roots|] == roots;
  }

  lemma TakenAreApart(w: seq<Found>, includeEnv: bool)
    requires WalkOk(w, includeEnv)
    ensures FileNames(w, includeEnv) !! DirNames(w, includeEnv)
  {
    forall i, j | 0 <= i < |w| && 0 <= j < |w| && TakenFile(w[i], includeEnv) && TakenDir(w[j], includeEnv)
      ensures w[i].name != w[j].name
    {
      assert i != j;
      assert if i < j then !Clash(w[i], w[j], includeEnv) else !Clash(w[j], w[i], includeEnv);
    }
  }

  // ----- Writing the archive

  function BytesOf(files: map<string, SourceFile>): map<string, string> {
    map n | n in files :: files[n].bytes
  }

  function DirMembers(names: seq<string>): seq<Member> {
    seq(|names|, i requires 0 <= i < |names| => Member(names[i], DirMember))
  }

  function FileMembers(names: seq<string>, files: map<string, string>): seq<Member>
    requires Elements(names) <= files.Keys
  {
    seq(|names|, i requires 0 <= i < |names| => Member(names[i], FileMember(FileAt(names, files, i))))
  }

  function FileAt(names: seq<string>, files: map<string, string>, i: nat): string
    requires i < |names| && Elements(names) <= files.Keys
  {
    assert names[i] in Elements(names);
    files[names[i]]
  }

  /** The layout of an archive: the manifest, then the directories, then the files. */
  datatype Layout = Layout(manifest: Manifest, dirs: seq<string>, files: seq<string>)

  predicate Archived(members: seq<Member>, l: Layout, files: map<string, string>, dirs: set<string>, roots: seq<string>, now: string, env: Env) {
    && Describes(l.manifest, files, dirs, roots, now, env)
    && NoDuplicates(l.dirs) && Elements(l.dirs) == dirs
    && NoDuplicates(l.files) && Elements(l.files) == files.Keys
    && members == [Member(MANIFEST_NAME, FileMember(env.encode(l.manifest)))] + DirMembers(l.dirs) + FileMembers(l.files, files)
  }

  method AddDirectories(members: seq<Member>, names: seq<string>) returns (r: seq<Member>)
    ensures r == members + DirMembers(names)
  {
    r := members;
    for i := 0 to |names|
      invariant r == members + DirMembers(names)[..i]
    {
      r := r + [Member(names[i], DirMember)];
    }
  }

  method AddFiles(members: seq<Member>, names: seq<string>, files: map<string, string>) returns (r: seq<Member>)
    requires Elements(names) <= files.Keys
    ensures r == members + FileMembers(names, files)
  {
    r := members;
    for i := 0 to |names|
      invariant r == members + FileMembers(names, files)[..i]
    {
      r := r + [Member(names[i], FileMember(FileAt(names, files, i)))];
    }
  }

  lemma NormalNamesAreApart(names: set<string>)
    requires forall n | n in names :: Normal(n)
    ensures OnePathEach(names)
  {
    forall a, b | a in names && b in names && Parts(a) == Parts(b)
      ensures a == b
    {
      NormalIsPosix(a);
      NormalIsPosix(b);
      SplitInjective(a, b);
    }
  }

  /** Copies the payload aside. It fails exactly when a file stands where a directory must be. */
  method StageCopies(files: map<string, string>, dirs: set<string>) returns (out: Result<map<string, string>>)
    requires forall n | n in files :: Normal(n)
    ensures out.Ok? <==> TreeOk(Paths(dirs), Paths(files.Keys))
    ensures out.Ok? ==> out.value == files
  {
    NormalNamesAreApart(files.Keys);
    var staged := BuildTree(dirs, files);
    if staged.Err? {
      return Err(staged.code);
    }
    out := Ok(map n | n in files :: ReadBack(staged.value, files, n));
  }

  /** Describes the copies and lists the members: the manifest, the directories, the files. */
  method WriteArchive(files: map<string, string>, dirs: set<string>, roots: seq<string>, now: string, env: Env)
      returns (members: seq<Member>, ghost l: Layout)
    ensures Archived(members, l, files, dirs, roots, now, env)
  {
    var m := BuildManifest(files, dirs, roots, now, env);
    var dirNames := ListOf(dirs);
    var fileNames := ListOf(files.Keys);
    members := AddDirectories([Member(MANIFEST_NAME, FileMember(env.encode(m)))], dirNames);
    members := AddFiles(members, fileNames, files);
    l := Layout(m, dirNames, fileNames);
  }

  /** The whole backup of a payload. */
  method CreateBackup(e: Entries, roots: seq<string>, now: string, env: Env) returns (out: Result<seq<Member>>, ghost l: Layout)
    requires forall n | n in e.files :: Normal(n)
    ensures out.Ok? <==> TreeOk(Paths(e.dirs), Paths(e.files.Keys))
    ensures out.Ok? ==> Archived(out.value, l, BytesOf(e.files), e.dirs, roots, now, env)
  {
    var copies := StageCopies(BytesOf(e.files), e.dirs);
    assert BytesOf(e.files).Keys == e.files.Keys;
    if copies.Err? {
      l := Layout(Manifest("", "", [], 0, 0, [], []), [], []);
      return Err(copies.code), l;
    }
    var members;
    members, l := WriteArchive(copies.value, e.dirs, roots, now, env);
    out := Ok(members);
  }

  /** The bytes of a staged copy. */
  function ReadBack(t: Tree, content: map<string, string>, n: string): (r: string)
    requires n in content && HoldsExactly(t.files, content, content.Keys)
    ensures r == content[n]
  {
    assert Parts(n) in Paths(content.Keys);
    t.files[Parts(n)]
  }
}
