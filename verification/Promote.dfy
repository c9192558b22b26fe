/** Installing a verified payload over a target by renames, with rollback from any failing rename. */
module Promote {
  import opened Wrappers
  import opened Collections

  datatype Node = File(bytes: string) | Link(to: string) | Dir(entries: map<string, Node>)

  /** The three places a restore touches. Each is on one file system, so a rename moves a whole node. */
  datatype Disk = Disk(target: Option<Node>, payload: Option<Node>, rollback: map<string, Node>)

  datatype Place = Target | Payload | InTarget(name: string) | InPayload(name: string) | InRollback(name: string)

  function Entries(n: Option<Node>): map<string, Node> {
    if n.Some? && n.value.Dir? then n.value.entries else map[]
  }

  function Get<V>(m: map<string, V>, k: string): Option<V> {
    if k in m then Some(m[k]) else None
  }

  function At(d: Disk, p: Place): Option<Node> {
    match p
    case Target => d.target
    case Payload => d.payload
    case InTarget(n) => Get(Entries(d.target), n)
    case InPayload(n) => Get(Entries(d.payload), n)
    case InRollback(n) => Get(d.rollback, n)
  }

  function Set<V>(m: map<string, V>, k: string, v: Option<V>): map<string, V> {
    if v.Some? then m[k := v.value] else m - {k}
  }

  function Put(d: Disk, p: Place, v: Option<Node>): Disk {
    match p
    case Target => d.(target := v)
    case Payload => d.(payload := v)
    case InTarget(n) => d.(target := Some(Dir(Set(Entries(d.target), n, v))))
    case InPayload(n) => d.(payload := Some(Dir(Set(Entries(d.payload), n, v))))
    case InRollback(n) => d.(rollback := Set(d.rollback, n, v))
  }

  predicate IsDir(n: Option<Node>) { n.Some? && n.value.Dir? }

  /** The directory that holds the place exists. */
  predicate HasParent(d: Disk, p: Place) {
    && (p.InTarget? ==> IsDir(d.target))
    && (p.InPayload? ==> IsDir(d.payload))
  }

  /** A rename that overwrites nothing. */
  predicate Movable(d: Disk, src: Place, dst: Place) {
    HasParent(d, src) && HasParent(d, dst) && At(d, src).Some? && At(d, dst).None?
  }

  function Moved(d: Disk, src: Place, dst: Place): Disk {
    Put(Put(d, src, None), dst, At(d, src))
  }

  lemma SetUndone<V>(m: map<string, V>, k: string, v: V)
    ensures k !in m ==> Set(Set(m, k, Some(v)), k, None) == m
    ensures k in m ==> Set(Set(m, k, None), k, Some(m[k])) == m
  {
  }

  lemma PutUndone(d: Disk, p: Place, v: Node)
    requires HasParent(d, p)
    ensures At(d, p).None? ==> Put(Put(d, p, Some(v)), p, None) == d
    ensures At(d, p).Some? ==> Put(Put(d, p, None), p, At(d, p)) == d
    ensures At(Put(d, p, Some(v)), p) == Some(v)
  {
    match p
    case InTarget(n) => SetUndone(Entries(d.target), n, v);
    case InPayload(n) => SetUndone(Entries(d.payload), n, v);
    case InRollback(n) => SetUndone(d.rollback, n, v);
    case _ =>
  }

  /** A rename that overwrites nothing, of a node that is not itself the place of the other end, can be
      undone by the opposite one. */
  lemma RenameIsUndone(d: Disk, src: Place, dst: Place)
    requires Movable(d, src, dst) && HasParent(Put(d, src, None), dst)
    ensures Moved(Moved(d, src, dst), dst, src) == d
  {
    var without := Put(d, src, None);
    PutUndone(d, src, At(d, src).value);
    PutUndone(without, dst, At(d, src).value);
  }

  // ----- The merge in terms of what is installed and what is moved aside

  function Restrict<V>(m: map<string, V>, keys: set<string>): map<string, V> {
    map k | k in m && k in keys :: m[k]
  }

  /** The disk when the payload entries `ins` are installed and the old entries `old` are aside. */
  function Mid(t: map<string, Node>, p: map<string, Node>, ins: set<string>, away: set<string>): Disk {
    Disk(Some(Dir((t - away) + Restrict(p, ins))), Some(Dir(p - ins)), Restrict(t, away))
  }

  /** Old entries are moved aside before payload entries of the same name are installed. */
  predicate Consistent(t: map<string, Node>, p: map<string, Node>, ins: set<string>, away: set<string>) {
    ins <= p.Keys && away <= t.Keys && ins * t.Keys <= away
  }

  lemma MoveAside(t: map<string, Node>, p: map<string, Node>, ins: set<string>, away: set<string>, n: string)
    requires Consistent(t, p, ins, away) && n in t && n !in away
    ensures Movable(Mid(t, p, ins, away), InTarget(n), InRollback(n))
    ensures Moved(Mid(t, p, ins, away), InTarget(n), InRollback(n)) == Mid(t, p, ins, away + {n})
  {
    var d := Mid(t, p, ins, away);
    assert Entries(d.target) - {n} == Entries(Mid(t, p, ins, away + {n}).target);
    assert d.rollback[n := t[n]] == Restrict(t, away + {n});
  }

  lemma Install(t: map<string, Node>, p: map<string, Node>, ins: set<string>, away: set<string>, n: string)
    requires Consistent(t, p, ins, away) && n in p && n !in ins && (n in t ==> n in away)
    ensures Movable(Mid(t, p, ins, away), InPayload(n), InTarget(n))
    ensures Moved(Mid(t, p, ins, away), InPayload(n), InTarget(n)) == Mid(t, p, ins + {n}, away)
  {
    var d := Mid(t, p, ins, away);
    assert p - ins - {n} == p - (ins + {n});
    assert Entries(d.target)[n := p[n]] == Entries(Mid(t, p, ins + {n}, away).target);
  }

  lemma Uninstall(t: map<string, Node>, p: map<string, Node>, ins: set<string>, away: set<string>, n: string)
    requires Consistent(t, p, ins, away) && n in ins
    ensures Movable(Mid(t, p, ins, away), InTarget(n), InPayload(n))
    ensures Moved(Mid(t, p, ins, away), InTarget(n), InPayload(n)) == Mid(t, p, ins - {n}, away)
  {
    var d := Mid(t, p, ins, away);
    assert Entries(d.target) - {n} == Entries(Mid(t, p, ins - {n}, away).target);
    assert (p - ins)[n := p[n]] == p - (ins - {n});
  }

  lemma MoveBack(t: map<string, Node>, p: map<string, Node>, ins: set<string>, away: set<string>, n: string)
    requires Consistent(t, p, ins, away) && n in away && n !in ins
    ensures Movable(Mid(t, p, ins, away), InRollback(n), InTarget(n))
    ensures Moved(Mid(t, p, ins, away), InRollback(n), InTarget(n)) == Mid(t, p, ins, away - {n})
  {
    var d := Mid(t, p, ins, away);
    assert Restrict(t, away) - {n} == Restrict(t, away - {n});
    assert Entries(d.target)[n := t[n]] == Entries(Mid(t, p, ins, away - {n}).target);
  }

  predicate NonEmpty(target: Option<Node>) {
    target.Some? && (!target.value.Dir? || target.value.entries != map[])
  }

  datatype Outcome = Installed(replaced: bool) | TargetNotEmpty | Failed

  lemma MidStart(t: map<string, Node>, p: map<string, Node>)
    ensures Mid(t, p, {}, {}) == Disk(Some(Dir(t)), Some(Dir(p)), map[])
  {
    assert (t - {}) + Restrict(p, {}) == t;
    assert p - {} == p;
  }

  lemma MidEnd(t: map<string, Node>, p: map<string, Node>, away: set<string>)
    requires Consistent(t, p, p.Keys, away) && away <= p.Keys
    ensures Mid(t, p, p.Keys, away).target == Some(Dir(t + p))
    ensures Mid(t, p, p.Keys, away).payload == Some(Dir(map[]))
  {
    assert (t - away) + Restrict(p, p.Keys) == t + p;
    assert p - p.Keys == map[];
  }

  /** The last name of a list without duplicates is not in the rest. */
  lemma DropLast(s: seq<string>)
    requires s != [] && NoDuplicates(s)
    ensures NoDuplicates(s[..|s| - 1])
    ensures Elements(s[..|s| - 1]) == Elements(s) - {s[|s| - 1]}
    ensures s[|s| - 1] in Elements(s)
  {
    var init, last := s[..|s| - 1], s[|s| - 1];
    assert s == init + [last];
    assert last !in init;
    ElementsAppend(init, last);
  }

  lemma AppendName(s: seq<string>, n: string)
    requires NoDuplicates(s) && n !in Elements(s)
    ensures NoDuplicates(s + [n]) && Elements(s + [n]) == Elements(s) + {n}
  {
    ElementsAppend(s, n);
  }

  lemma NextName(names: seq<string>, i: nat)
    requires NoDuplicates(names) && i < |names|
    ensures names[i] in Elements(names) && names[i] !in Elements(names[..i])
    ensures names[..i + 1] == names[..i] + [names[i]]
    ensures Elements(names[..i + 1]) == Elements(names[..i]) + {names[i]}
  {
    assert names[..i + 1] == names[..i] + [names[i]];
    ElementsAppend(names[..i], names[i]);
  }

  /** One of the forward operations from number `from` up to `upto` fails. */
  ghost predicate Faulted(fails: nat -> bool, from: nat, upto: nat) {
    exists n: nat | from <= n < upto :: fails(n)
  }

  lemma FaultedSplit(fails: nat -> bool, from: nat, middle: nat, upto: nat)
    requires from <= middle <= upto
    ensures Faulted(fails, from, upto) <==> Faulted(fails, from, middle) || Faulted(fails, middle, upto)
  {
    if Faulted(fails, from, upto) {
      var n: nat :| from <= n < upto && fails(n);
      assert n < middle || middle <= n;
    }
  }

  class RestoreWorkspace {
    const fails: nat -> bool   // which forward operations fail: any schedule whatever
    var disk: Disk
    var step: nat              // forward operations so far

    constructor (d: Disk, fails: nat -> bool)
      ensures disk == d && this.fails == fails && step == 0
    {
      disk, step := d, 0;
      this.fails := fails;
    }

    /** A forward operation fails exactly when the schedule says so. */
    method Attempt() returns (ok: bool)
      modifies this`step
      ensures step == old(step) + 1 && (ok <==> !Faulted(fails, old(step), step))
    {
      ok := !fails(step);
      step := step + 1;
      assert !ok ==> fails(old(step)) && old(step) < step;
    }

    /** A rename. When a forward rename fails nothing has moved; an undoing one is taken to succeed. */
    method Rename(src: Place, dst: Place, undo: bool) returns (ok: bool)
      requires Movable(disk, src, dst)
      modifies this
      ensures step == if undo then old(step) else old(step) + 1
      ensures ok <==> !Faulted(fails, old(step), step)
      ensures disk == if ok then Moved(old(disk), src, dst) else old(disk)
    {
      ok := true;
      if !undo {
        ok := Attempt();
      }
      if ok {
        disk := Moved(disk, src, dst);
      }
    }

    /** Undoes a partial merge, last rename first. */
    method Rollback(installed: seq<string>, moved: seq<string>, ghost t: map<string, Node>, ghost p: map<string, Node>)
      requires NoDuplicates(installed) && NoDuplicates(moved)
      requires Consistent(t, p, Elements(installed), Elements(moved))
      requires disk == Mid(t, p, Elements(installed), Elements(moved))
      modifies this
      ensures disk == Mid(t, p, {}, {}) && step == old(step)
    {
      var ins, mov := installed, moved;
      while ins != []
        invariant NoDuplicates(ins) && Consistent(t, p, Elements(ins), Elements(mov))
        invariant disk == Mid(t, p, Elements(ins), Elements(mov)) && step == old(step)
        decreases |ins|
      {
        var n := ins[|ins| - 1];
        DropLast(ins);
        Uninstall(t, p, Elements(ins), Elements(mov), n);
        var _ := Rename(InTarget(n), InPayload(n), true);
        ins := ins[..|ins| - 1];
      }
      assert Elements(ins) == {};
      while mov != []
        invariant NoDuplicates(mov) && Consistent(t, p, {}, Elements(mov))
        invariant disk == Mid(t, p, {}, Elements(mov)) && step == old(step)
        decreases |mov|
      {
        var n := mov[|mov| - 1];
        DropLast(mov);
        MoveBack(t, p, {}, Elements(mov), n);
        var _ := Rename(InRollback(n), InTarget(n), true);
        mov := mov[..|mov| - 1];
      }
      assert Elements(mov) == {};
    }

    /** Replaces one target entry by the payload entry of the same name. */
    method InstallOne(n: string, ghost t: map<string, Node>, ghost p: map<string, Node>, ghost ins: set<string>, ghost away: set<string>)
      returns (moved: bool, ok: bool)
      requires Consistent(t, p, ins, away) && disk == Mid(t, p, ins, away)
      requires n in p && n !in ins && n !in away
      modifies this
      ensures moved ==> n in t
      ensures ok ==> (n in t ==> moved)
      ensures old(step) <= step && (ok <==> !Faulted(fails, old(step), step))
      ensures disk == Mid(t, p, if ok then ins + {n} else ins, if moved then away + {n} else away)
    {
      moved, ok := false, true;
      if At(disk, InTarget(n)).Some? {
        MoveAside(t, p, ins, away, n);
        ok := Rename(InTarget(n), InRollback(n), false);
        moved := ok;
      }
      ghost var middle := step;
      if ok {
        Install(t, p, ins, if moved then away + {n} else away, n);
        ok := Rename(InPayload(n), InTarget(n), false);
      }
      FaultedSplit(fails, old(step), middle, step);
    }

    /** The forward half of the merge: installs entry after entry until a rename fails. */
    method InstallAll(names: seq<string>, ghost t: map<string, Node>, ghost p: map<string, Node>)
      returns (installed: seq<string>, moved: seq<string>, ok: bool)
      requires NoDuplicates(names) && Elements(names) == p.Keys && disk == Mid(t, p, {}, {})
      modifies this
      ensures NoDuplicates(installed) && NoDuplicates(moved)
      ensures Consistent(t, p, Elements(installed), Elements(moved))
      ensures disk == Mid(t, p, Elements(installed), Elements(moved))
      ensures ok ==> Elements(installed) == p.Keys && Elements(moved) <= p.Keys
      ensures old(step) <= step && (ok <==> !Faulted(fails, old(step), step))
    {
      installed, moved, ok := [], [], true;
      ghost var ins: set<string>, away: set<string> := {}, {};
      var i := 0;
      while i < |names| && ok
        invariant 0 <= i <= |names| && disk == Mid(t, p, ins, away) && Consistent(t, p, ins, away)
        invariant NoDuplicates(installed) && ins == Elements(installed)
        invariant NoDuplicates(moved) && away == Elements(moved)
        invariant ok ==> ins == Elements(names[..i]) && away <= ins
        invariant old(step) <= step && (ok <==> !Faulted(fails, old(step), step))
        decreases |names| - i
      {
        var n := names[i];
        NextName(names, i);
        var aside: bool;
        ghost var middle := step;
        aside, ok := InstallOne(n, t, p, ins, away);
        FaultedSplit(fails, old(step), middle, step);
        if aside {
          AppendName(moved, n);
          moved, away := moved + [n], away + {n};
        }
        if ok {
          AppendName(installed, n);
          installed, ins := installed + [n], ins + {n};
        }
        i := i + 1;
      }
      assert names[..|names|] == names;
    }

    /** Merges the payload's top-level entries into a non-empty target directory. */
    method Merge(ghost t: map<string, Node>, p: map<string, Node>) returns (ok: bool)
      requires disk == Disk(Some(Dir(t)), Some(Dir(p)), map[])
      modifies this
      ensures disk == if ok then Disk(Some(Dir(t + p)), Some(Dir(map[])), map[]) else old(disk)
      ensures old(step) <= step && (ok <==> !Faulted(fails, old(step), step))
    {
      MidStart(t, p);
      var names := ListOf(p.Keys);
      var installed: seq<string>, moved: seq<string>;
      installed, moved, ok := InstallAll(names, t, p);
      if ok {
        MidEnd(t, p, Elements(moved));
        disk := disk.(rollback := map[]);
      } else {
        Rollback(installed, moved, t, p);
      }
    }

    /** Puts the payload in the place of a target that is absent, empty, or not a directory. */
    method ReplaceWhole() returns (ok: bool)
      requires IsDir(disk.payload) && disk.rollback == map[]
      modifies this
      ensures disk == if ok then Disk(old(disk).payload, None, map[]) else old(disk)
      ensures old(step) < step && (ok <==> !Faulted(fails, old(step), step))
    {
      if disk.target.None? {
        ok := Rename(Payload, Target, false);
        return;
      }
      ghost var before := disk;
      ok := Rename(Target, InRollback("target"), false);
      if !ok {
        return;
      }
      ghost var middle := step;
      ok := Rename(Payload, Target, false);
      FaultedSplit(fails, old(step), middle, step);
      if ok {
        disk := disk.(rollback := map[]);
      } else {
        var _ := Rename(InRollback("target"), Target, true);
        assert disk.rollback == map[];
      }
    }

    /** Installs the payload. It fails exactly when one of its forward operations does, and then target
        and payload end up exactly as they were. On success a non-empty target directory keeps every entry the payload does not
        name; any other target becomes the payload. */
    method Promote(force: bool) returns (r: Outcome)
      requires IsDir(disk.payload) && disk.rollback == map[]
      modifies this
      ensures !r.TargetNotEmpty? ==> old(step) < step
      ensures r.TargetNotEmpty? <==> old(disk).target != None && old(disk).target != Some(Dir(map[])) && !force
      ensures old(step) <= step && (r.Failed? <==> Faulted(fails, old(step), step))
      ensures !r.Installed? ==> disk == old(disk)
      ensures r.Installed? ==> r.replaced == NonEmpty(old(disk).target) && disk.rollback == map[]
      ensures r.Installed? && IsDir(old(disk).target) && NonEmpty(old(disk).target) ==>
                disk.target == Some(Dir(Entries(old(disk).target) + Entries(old(disk).payload)))
      ensures r.Installed? && !(IsDir(old(disk).target) && NonEmpty(old(disk).target)) ==>
                disk.target == old(disk).payload
    {
      var nonempty := NonEmpty(disk.target);
      if nonempty && !force {
        return TargetNotEmpty;
      }
      var ok := true;
      if disk.target.Some? {
        ok := Attempt();   // to make the rollback directory
        if !ok {
          return Failed;
        }
      }
      ghost var middle := step;
      if disk.target.None? || !disk.target.value.Dir? || !nonempty {
        ok := ReplaceWhole();
      } else {
        ok := Merge(disk.target.value.entries, disk.payload.value.entries);
      }
      FaultedSplit(fails, old(step), middle, step);
      r := if ok then Installed(nonempty) else Failed;
    }
  }
}
