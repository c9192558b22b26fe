/** The runtime as one thread runs it, other threads acting between any two of its accesses within
    what the protocol lets a thread rely on. */
module StateRuntime {
  import opened Wrappers
  import opened IndexAuthority

  datatype Reply<+T> = Returned(value: T) | Closed | Failed | TypeError | IndexTaken | RetrieverExists

  class StateRuntime {
    var index: Option<nat>
    var retriever: Option<nat>
    var closed: bool

    constructor ()
      ensures index == None && retriever == None && !closed
    {
      index, retriever, closed := None, None, false;
    }

    /** The object has gone from one state to another within what a thread may rely on. */
    twostate predicate Moved(holdsIndex: bool, holdsRetriever: bool)
      reads this
    {
      && Rely(old(index), index, holdsIndex) && Rely(old(retriever), retriever, holdsRetriever)
      && (old(closed) ==> closed)
    }

    /** Other threads act, while this one holds the given locks. */
    method Interfere(holdsIndex: bool, holdsRetriever: bool)
      modifies this
      ensures Moved(holdsIndex, holdsRetriever)
    {
      var i: Option<nat> := *;
      var r: Option<nat> := *;
      var c: bool := *;
      if index.None? && !holdsIndex {
        index := i;
      }
      if retriever.None? && !holdsRetriever {
        retriever := r;
      }
      closed := closed || c;
    }

    /** The lazily built index. Whoever gets one gets the one the runtime then has for good. `built` is what
        constructing one gives, if that does not fail. */
    method DerivedKnowledgeIndex(built: Option<nat>) returns (r: Reply<Option<nat>>)
      modifies this
      ensures Moved(false, false)
      ensures r.Returned? ==> r.value.Some? && r.value == index
      ensures r.Returned? && old(index).Some? ==> r.value == old(index)
      ensures r.Closed? <==> old(closed)
      ensures r.Returned? || r.Closed? || (r.Failed? && old(index).None? && built.None?)
    {
      if closed {
        return Closed;
      }
      Interfere(false, false);
      if index.None? {
        Interfere(false, false);   // until the index lock is acquired
        if index.None? {
          Interfere(true, false);
          if built.None? {
            return Failed;
          }
          index := built;
        }
      }
      Interfere(false, false);
      r := Returned(index);
    }

    /** Binds a given index. It succeeds only while the runtime has no other index and no retriever. */
    method BindDerivedKnowledgeIndex(id: Option<nat>) returns (r: Reply<()>)
      modifies this
      ensures Moved(false, false)
      ensures r.Returned? ==> id.Some? && index == id && (old(index).None? || old(index) == id) && old(retriever).None?
      ensures r.TypeError? <==> id.None?
      ensures r.Closed? <==> id.Some? && old(closed)
      ensures r.IndexTaken? ==> index.Some? && index != id
      ensures r.RetrieverExists? ==> retriever.Some?
      ensures r.Returned? || r.TypeError? || r.Closed? || r.IndexTaken? || r.RetrieverExists?
    {
      if id.None? {
        return TypeError;
      }
      if closed {
        return Closed;
      }
      Interfere(false, false);   // until the index lock is acquired
      Interfere(true, false);    // until the retriever lock is acquired
      var current := index;
      Interfere(true, true);
      if current.Some? && current != id {
        return IndexTaken;
      }
      Interfere(true, true);
      if retriever.Some? {
        return RetrieverExists;
      }
      Interfere(true, true);
      index := id;
      r := Returned(());
    }

    /** The lazily built retriever, one for each runtime; `built` as for the index. */
    method DerivedKnowledgeRetriever(built: Option<nat>) returns (r: Reply<Option<nat>>)
      modifies this
      ensures Moved(false, false)
      ensures r.Returned? ==> r.value.Some? && r.value == retriever
      ensures r.Returned? && old(retriever).Some? ==> r.value == old(retriever)
      ensures r.Closed? <==> old(closed)
      ensures r.Returned? || r.Closed? || (r.Failed? && old(retriever).None? && built.None?)
    {
      if closed {
        return Closed;
      }
      Interfere(false, false);
      if retriever.None? {
        Interfere(false, false);   // until the retriever lock is acquired
        if retriever.None? {
          Interfere(false, true);
          if built.None? {
            return Failed;
          }
          retriever := built;
        }
      }
      Interfere(false, false);
      r := Returned(retriever);
    }
  }
}
