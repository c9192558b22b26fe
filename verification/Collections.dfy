/** Lists seen as sets. */
module Collections {

  predicate NoDuplicates<T(==)>(s: seq<T>) {
    forall i, j | 0 <= i < j < |s| :: s[i] != s[j]
  }

  function Elements<T>(s: seq<T>): set<T> {
    set x | x in s
  }

  lemma ElementsAppend<T>(s: seq<T>, x: T)
    ensures Elements(s + [x]) == Elements(s) + {x}
  {
  }

  lemma TakeNext<T>(s: seq<T>, k: nat)
    requires k < |s|
    ensures s[..k + 1] == s[..k] + [s[k]]
  {
  }

  /** The elements of a set, each once, in whatever order they are walked. */
  method ListOf<T(==)>(s: set<T>) returns (r: seq<T>)
    ensures NoDuplicates(r) && Elements(r) == s
  {
    r := [];
    var todo := s;
    while todo != {}
      invariant NoDuplicates(r) && Elements(r) == s - todo && todo <= s
      decreases todo
    {
      var x :| x in todo;
      assert x !in Elements(r);
      ElementsAppend(r, x);
      r, todo := r + [x], todo - {x};
    }
  }

  /** Comparing sizes is a test for repetition. */
  lemma {:induction false} CountShowsRepetition<T>(s: seq<T>)
    ensures |Elements(s)| <= |s|
    ensures |Elements(s)| == |s| <==> NoDuplicates(s)
  {
    if s != [] {
      var front, x := s[..|s| - 1], s[|s| - 1];
      CountShowsRepetition(front);
      assert s == front + [x];
      ElementsAppend(front, x);
      if x in front {
        assert Elements(s) == Elements(front);
        var i :| 0 <= i < |front| && front[i] == x;
        assert s[i] == s[|s| - 1];
      } else {
        assert forall i | 0 <= i < |front| :: s[i] == front[i];
        if !NoDuplicates(front) {
          var i, j :| 0 <= i < j < |front| && front[i] == front[j];
          assert s[i] == s[j];
        }
      }
    }
  }
}
