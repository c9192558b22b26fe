/** Archive names as strings, and the two syntactic checks: the writer's and the restorer's. */
module ArchivePaths {

  type Path = seq<string>

  /** The pieces of a name between slashes. */
  function Split(s: string): (r: seq<string>)
    ensures r != []
  {
    if s == "" then [""]
    else if s[0] == '/' then [""] + Split(s[1..])
    else
      var r := Split(s[1..]);
      [[s[0]] + r[0]] + r[1..]
  }

  function Join(parts: seq<string>): string
    requires parts != []
  {
    if |parts| == 1 then parts[0] else parts[0] + "/" + Join(parts[1..])
  }

  lemma {:induction false} JoinSplit(s: string)
    ensures Join(Split(s)) == s
  {
    if s != "" {
      JoinSplit(s[1..]);
      var r := Split(s[1..]);
      if s[0] == '/' {
        assert Split(s)[1..] == r;
        assert [s[0]] + s[1..] == s;
      } else {
        assert Split(s)[1..] == r[1..];
        if |r| == 1 {
          assert [s[0]] + s[1..] == s;
        } else {
          assert ([s[0]] + r[0]) + "/" + Join(r[1..]) == [s[0]] + (r[0] + "/" + Join(r[1..]));
          assert [s[0]] + s[1..] == s;
        }
      }
    }
  }

  lemma {:induction false} SplitPlain(a: string)
    requires '/' !in a
    ensures Split(a) == [a]
  {
    if a != "" {
      SplitPlain(a[1..]);
      assert a == [a[0]] + a[1..];
    }
  }

  lemma {:induction false} SplitPrefix(a: string, rest: string)
    requires '/' !in a
    ensures Split(a + "/" + rest) == [a] + Split(rest)
  {
    var s := a + "/" + rest;
    if a == "" {
      assert s[1..] == rest;
    } else {
      SplitPrefix(a[1..], rest);
      assert s[1..] == a[1..] + "/" + rest;
      assert a == [a[0]] + a[1..];
    }
  }

  predicate NoSlash(parts: seq<string>) {
    forall i | 0 <= i < |parts| :: '/' !in parts[i]
  }

  lemma {:induction false} SplitJoin(parts: seq<string>)
    requires parts != [] && NoSlash(parts)
    ensures Split(Join(parts)) == parts
  {
    if |parts| == 1 {
      SplitPlain(parts[0]);
    } else {
      SplitJoin(parts[1..]);
      SplitPrefix(parts[0], Join(parts[1..]));
    }
  }

  lemma {:induction false} SplitHasNoSlash(s: string)
    ensures NoSlash(Split(s))
  {
    if s != "" {
      SplitHasNoSlash(s[1..]);
    }
  }

  lemma {:induction false} JoinConcat(x: seq<string>, y: seq<string>)
    requires x != [] && y != []
    ensures Join(x + y) == Join(x) + "/" + Join(y)
  {
    if |x| == 1 {
      assert (x + y)[1..] == y;
    } else {
      JoinConcat(x[1..], y);
      assert (x + y)[1..] == x[1..] + y;
      assert Join(x + y) == x[0] + "/" + Join(x[1..] + y);
    }
  }

  lemma SplitConcat(a: string, b: string)
    ensures Split(a + "/" + b) == Split(a) + Split(b)
  {
    JoinConcat(Split(a), Split(b));
    JoinSplit(a);
    JoinSplit(b);
    SplitHasNoSlash(a);
    SplitHasNoSlash(b);
    SplitJoin(Split(a) + Split(b));
  }

  // ----- PurePosixPath

  /** The parts a pure path keeps: neither empty pieces nor single dots. */
  function Parts(s: string): seq<string> {
    KeepParts(Split(s))
  }

  function KeepParts(pieces: seq<string>): (r: seq<string>)
    ensures forall x | x in r :: x in pieces && x != "" && x != "."
    ensures |r| <= |pieces|
    ensures |r| == |pieces| ==> r == pieces
  {
    if pieces == [] then []
    else
      var rest := KeepParts(pieces[1..]);
      assert forall x | x in pieces[1..] :: x in pieces;
      if pieces[0] == "" || pieces[0] == "." then rest else [pieces[0]] + rest
  }

  /** `as_posix` of a relative pure path. */
  function AsPosix(s: string): string {
    if Parts(s) == [] then "." else Join(Parts(s))
  }

  predicate IsAbsolute(s: string) { s != "" && s[0] == '/' }

  /** The check made before a root enters a backup. */
  predicate ArcNameOk(s: string) {
    s != "" && !IsAbsolute(s) && ".." !in Parts(s) && AsPosix(s) == s
  }

  function StripDot(s: string): string {
    if |s| >= 2 && s[..2] == "./" then s[2..] else s
  }

  /** The check every name in an archive must pass before anything is restored. */
  predicate SafeName(s: string) {
    var candidate := StripDot(s);
    && s != "" && s[0] != '/' && '\\' !in s
    && !IsAbsolute(candidate) && ".." !in Parts(candidate)
    && (s == "." || (candidate != "" && AsPosix(candidate) == candidate))
  }

  /** A relative path in normal form. */
  predicate Normal(s: string) {
    forall i | 0 <= i < |Split(s)| :: Split(s)[i] != "" && Split(s)[i] != "." && Split(s)[i] != ".."
  }

  lemma {:induction false} KeepAllParts(pieces: seq<string>)
    requires forall i | 0 <= i < |pieces| :: pieces[i] != "" && pieces[i] != "."
    ensures KeepParts(pieces) == pieces
  {
    if pieces != [] {
      KeepAllParts(pieces[1..]);
    }
  }

  lemma DotSlashSplit(s: string)
    requires |s| >= 2 && s[..2] == "./"
    ensures Split(s)[0] == "."
  {
    assert s == "." + "/" + s[2..];
    SplitPrefix(".", s[2..]);
  }

  lemma NormalIsPosix(s: string)
    requires Normal(s)
    ensures s != "" && !IsAbsolute(s) && Parts(s) == Split(s) && AsPosix(s) == s && ".." !in Parts(s)
    ensures StripDot(s) == s
  {
    KeepAllParts(Split(s));
    JoinSplit(s);
    if |s| >= 2 && s[..2] == "./" {
      DotSlashSplit(s);
    }
  }

  lemma ArcNamesAreNormal(s: string)
    requires ArcNameOk(s) && s != "."
    ensures Normal(s)
  {
    var kept := Parts(s);
    SplitHasNoSlash(s);
    forall i | 0 <= i < |kept|
      ensures '/' !in kept[i] && kept[i] in kept
    {
      assert kept[i] in kept;
      var j :| 0 <= j < |Split(s)| && Split(s)[j] == kept[i];
    }
    SplitJoin(kept);
  }

  /** The writer accepts exactly the normal names and the project root itself. */
  lemma ArcNameIsNormal(s: string)
    ensures ArcNameOk(s) <==> Normal(s) || s == "."
  {
    SplitPlain(".");
    if Normal(s) {
      NormalIsPosix(s);
    }
    if ArcNameOk(s) && s != "." {
      ArcNamesAreNormal(s);
    }
  }

  /** For a normal name the restorer's check comes down to having no backslash. */
  lemma NormalIsSafe(s: string)
    requires Normal(s)
    ensures SafeName(s) <==> '\\' !in s
  {
    NormalIsPosix(s);
  }

  /** For any name at all: the restorer accepts the top itself and normal paths, with or without one "./"
      in front, as long as there is no backslash. */
  lemma SafeNameExactly(s: string)
    ensures SafeName(s) <==>
            '\\' !in s && (s == "." || s == "./." || Normal(s) || (|s| > 2 && s[..2] == "./" && Normal(s[2..])))
  {
    ArcNameIsNormal(StripDot(s));
    SplitPlain(".");
    if Normal(s) {
      NormalIsPosix(s);
    }
    if |s| >= 2 && s[..2] == "./" {
      assert s == "./" + s[2..];
      SplitPlain("");
    } else {
      assert s == "." <==> StripDot(s) == ".";
    }
  }

  /** A path that stays below the top: its parts are names, not steps. */
  predicate Clean(p: Path) {
    forall i | 0 <= i < |p| :: p[i] != "" && p[i] != "." && p[i] != ".." && '/' !in p[i] && '\\' !in p[i]
  }

  lemma {:induction false} SplitChars(s: string, piece: string, ch: char)
    requires piece in Split(s) && ch in piece
    ensures ch in s
  {
    if s != "" {
      var r := Split(s[1..]);
      assert s == [s[0]] + s[1..];
      if piece in r {
        SplitChars(s[1..], piece, ch);
      } else if s[0] != '/' && piece == [s[0]] + r[0] {
        if ch in r[0] {
          SplitChars(s[1..], r[0], ch);
        }
      }
    }
  }

  /** Whatever passes the restorer's check stays below the top. */
  lemma SafeNameIsClean(s: string)
    requires SafeName(s)
    ensures Clean(Parts(s))
  {
    var p := Parts(s);
    SafeNameExactly(s);
    SplitHasNoSlash(s);
    forall i | 0 <= i < |p|
      ensures p[i] != "" && p[i] != "." && p[i] != ".." && '/' !in p[i] && '\\' !in p[i]
    {
      assert p[i] in p && p[i] in Split(s);
      if '\\' in p[i] {
        SplitChars(s, p[i], '\\');
      }
      SafePiece(s, p[i]);
    }
  }

  lemma SafePiece(s: string, piece: string)
    requires SafeName(s) && piece in Split(s)
    ensures piece != ".."
  {
    SafeNameExactly(s);
    SplitPlain(".");
    if |s| >= 2 && s[..2] == "./" {
      assert s == "." + "/" + s[2..];
      SplitPrefix(".", s[2..]);
    }
  }

  lemma {:induction false} KeepPartsConcat(a: seq<string>, b: seq<string>)
    ensures KeepParts(a + b) == KeepParts(a) + KeepParts(b)
  {
    if a == [] {
      assert a + b == b;
    } else {
      assert (a + b)[1..] == a[1..] + b;
      KeepPartsConcat(a[1..], b);
    }
  }

  /** What lies below a name in writing lies below it in the tree. */
  lemma PartsConcat(a: string, b: string)
    ensures Parts(a + "/" + b) == Parts(a) + Parts(b)
  {
    SplitConcat(a, b);
    KeepPartsConcat(Split(a), Split(b));
  }

  lemma NormalConcat(a: string, b: string)
    requires Normal(a) && Normal(b)
    ensures Normal(a + "/" + b) && Split(a + "/" + b) == Split(a) + Split(b)
  {
    SplitConcat(a, b);
  }

  lemma SplitInjective(a: string, b: string)
    requires Split(a) == Split(b)
    ensures a == b
  {
    JoinSplit(a);
    JoinSplit(b);
  }
}
