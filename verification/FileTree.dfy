/** A directory tree filled by named entries, as both the backup staging area and the restored payload are. */
module FileTree {
  import opened Wrappers
  import opened ArchivePaths

  datatype Tree = Tree(files: map<Path, string>, dirs: set<Path>)

  /** The path and every directory above it, below the top. */
  function Prefixes(p: Path): set<Path> {
    set k | 1 <= k <= |p| :: p[..k]
  }

  function Parent(p: Path): Path { if p == [] then [] else p[..|p| - 1] }

  function Above(p: Path): set<Path> {
    if p == [] then {} else Prefixes(p[..|p| - 1])
  }

  /** Makes a directory with its parents; existing directories are fine, existing files are not. */
  function MakeDirs(t: Tree, p: Path): Result<Tree> {
    if Prefixes(p) !! t.files.Keys then Ok(Tree(t.files, t.dirs + Prefixes(p))) else Err("FileExistsError")
  }

  /** Creates a file that must not exist yet, after making its parent directories. */
  function WriteNew(t: Tree, p: Path, bytes: string): Result<Tree> {
    if p == [] || p in t.files || p in t.dirs + Above(p) || !(Above(p) !! t.files.Keys) then Err("FileExistsError")
    else Ok(Tree(t.files[p := bytes], t.dirs + Above(p)))
  }

  function PrefixesOf(paths: set<Path>): set<Path> {
    set p, q | p in paths && q in Prefixes(p) :: q
  }

  function AboveOf(paths: set<Path>): set<Path> {
    set p, q | p in paths && q in Above(p) :: q
  }

  /** The directories that exist once these directories and files have been made. */
  function Closure(dirs: set<Path>, files: set<Path>): set<Path> {
    PrefixesOf(dirs) + AboveOf(files)
  }

  /** No file stands where a directory must be. */
  predicate TreeOk(dirs: set<Path>, files: set<Path>) {
    [] !in files && files !! Closure(dirs, files)
  }

  lemma ClosureInsertDir(dirs: set<Path>, files: set<Path>, p: Path)
    ensures Closure(dirs + {p}, files) == Closure(dirs, files) + Prefixes(p)
  {
    assert p in dirs + {p};
  }

  lemma ClosureInsertFile(dirs: set<Path>, files: set<Path>, p: Path)
    ensures Closure(dirs, files + {p}) == Closure(dirs, files) + Above(p)
  {
    assert p in files + {p};
  }

  function Paths(names: set<string>): set<Path> {
    set n | n in names :: Parts(n)
  }

  /** No two of the names stand for the same place. */
  predicate OnePathEach(names: set<string>) {
    forall a, b | a in names && b in names && Parts(a) == Parts(b) :: a == b
  }

  /** The tree's files are exactly the named ones, each with its bytes. */
  predicate HoldsExactly(files: map<Path, string>, content: map<string, string>, names: set<string>) {
    && names <= content.Keys && files.Keys == Paths(names)
    && forall n | n in names :: files[Parts(n)] == content[n]
  }

  /** What the directories and the files written so far have produced. */
  predicate Filled(t: Tree, dirs: set<string>, content: map<string, string>, done: set<string>) {
    && HoldsExactly(t.files, content, done) && OnePathEach(done)
    && t.dirs == Closure(Paths(dirs), Paths(done)) && TreeOk(Paths(dirs), Paths(done))
  }

  lemma PathsInsert(names: set<string>, n: string)
    ensures Paths(names + {n}) == Paths(names) + {Parts(n)}
  {
    assert n in names + {n};
  }

  lemma TreeOkInsert(dirs: set<Path>, files: set<Path>, p: Path)
    requires TreeOk(dirs, files) && p != [] && p !in Closure(dirs, files) + Above(p) && Above(p) !! files
    ensures TreeOk(dirs, files + {p})
  {
    ClosureInsertFile(dirs, files, p);
  }

  lemma {:induction false} WriteKeepsContent(files: map<Path, string>, content: map<string, string>, done: set<string>, n: string)
    requires HoldsExactly(files, content, done) && OnePathEach(done) && n in content && n !in done && Parts(n) !in files
    ensures HoldsExactly(files[Parts(n) := content[n]], content, done + {n}) && OnePathEach(done + {n})
  {
    PathsInsert(done, n);
    assert forall a | a in done :: Parts(a) in Paths(done) && Parts(a) != Parts(n);
  }

  lemma {:induction false} WriteKeepsFilled(t: Tree, dirs: set<string>, content: map<string, string>, done: set<string>, n: string)
    requires Filled(t, dirs, content, done) && n in content && n !in done
    requires WriteNew(t, Parts(n), content[n]).Ok?
    ensures Filled(WriteNew(t, Parts(n), content[n]).value, dirs, content, done + {n})
  {
    WriteKeepsContent(t.files, content, done, n);
    PathsInsert(done, n);
    ClosureInsertFile(Paths(dirs), Paths(done), Parts(n));
    TreeOkInsert(Paths(dirs), Paths(done), Parts(n));
  }

  /** A write that fails can never succeed in another order. */
  lemma WriteFailureIsFinal(t: Tree, dirs: set<string>, content: map<string, string>, done: set<string>, n: string)
    requires Filled(t, dirs, content, done) && n in content && n !in done
    requires WriteNew(t, Parts(n), content[n]).Err?
    ensures !OnePathEach(content.Keys) || !TreeOk(Paths(dirs), Paths(content.Keys))
  {
    var p := Parts(n);
    if p in t.files {
      var a :| a in done && Parts(a) == p;
      assert a in content.Keys && n in content.Keys;
    } else {
      assert p in Paths(content.Keys);
      WriteFailureIsClash(Paths(dirs), Paths(done), Paths(content.Keys), p);
    }
  }

  /** Makes the directories, then the files, in any order. It succeeds exactly when no two files
      share a place and no file stands where a directory must be. */
  method BuildTree(dirs: set<string>, content: map<string, string>) returns (r: Result<Tree>)
    ensures r.Ok? <==> OnePathEach(content.Keys) && TreeOk(Paths(dirs), Paths(content.Keys))
    ensures r.Ok? ==> HoldsExactly(r.value.files, content, content.Keys)
    ensures r.Ok? ==> r.value.dirs == Closure(Paths(dirs), Paths(content.Keys))
  {
    var t := MakeAll(Paths(dirs));
    var todo := content.Keys;
    ghost var done: set<string> := {};
    assert Paths({}) == {};
    while todo != {}
      invariant todo !! done && todo + done == content.Keys
      invariant Filled(t, dirs, content, done)
      decreases todo
    {
      var n :| n in todo;
      var w := WriteNew(t, Parts(n), content[n]);
      if w.Err? {
        WriteFailureIsFinal(t, dirs, content, done, n);
        return Err(w.code);
      }
      WriteKeepsFilled(t, dirs, content, done, n);
      t := w.value;
      todo, done := todo - {n}, done + {n};
    }
    assert done == content.Keys;
    r := Ok(t);
  }

  method MakeAll(dirs: set<Path>) returns (t: Tree)
    ensures t == Tree(map[], Closure(dirs, {}))
  {
    t := Tree(map[], {});
    var todo := dirs;
    ghost var done: set<Path> := {};
    assert Closure({}, {}) == {};
    while todo != {}
      invariant todo !! done && todo + done == dirs
      invariant t == Tree(map[], Closure(done, {}))
      decreases todo
    {
      var p :| p in todo;
      ClosureInsertDir(done, {}, p);
      t := MakeDirs(t, p).value;
      todo, done := todo - {p}, done + {p};
    }
    assert done == dirs;
  }

  /** A file that cannot be written clashes with what is there now or with a later parent. */
  lemma WriteFailureIsClash(dirs: set<Path>, done: set<Path>, all: set<Path>, p: Path)
    requires done <= all && p in all && p !in done
    requires p == [] || p in Closure(dirs, done) + Above(p) || !(Above(p) !! done)
    ensures !TreeOk(dirs, all)
  {
    assert Closure(dirs, done) <= Closure(dirs, all);
    assert Above(p) <= Closure(dirs, all) by {
      assert forall q | q in Above(p) :: q in AboveOf(all);
    }
  }
}
