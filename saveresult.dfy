// SaveResult: the three sets of records a save reports, and how results
// of several collections are combined.

module SaveResults {
  /** The value a SaveResult holds. `R` is the record class of the
    * collection that saves. */
  datatype SaveView<R(==)> = SaveView(inserted: set<R>, updated: set<R>, errored: set<R>)

  function EmptyView<R(==)>(): SaveView<R> {
    SaveView({}, {}, {})
  }

  /** What mergeFrom computes: the union of each set with the other's. */
  function Merge<R(==)>(a: SaveView<R>, b: SaveView<R>): (r: SaveView<R>)
    ensures r.inserted == a.inserted + b.inserted
    ensures r.updated == a.updated + b.updated
    ensures r.errored == a.errored + b.errored
  {
    SaveView(a.inserted + b.inserted, a.updated + b.updated, a.errored + b.errored)
  }

  /** Merging the same result twice is merging it once; merging is also
    * order-insensitive and the empty result changes nothing. */
  lemma MergeLaws<R>(a: SaveView<R>, b: SaveView<R>, c: SaveView<R>)
    ensures Merge(Merge(a, b), b) == Merge(a, b)
    ensures Merge(a, b) == Merge(b, a)
    ensures Merge(Merge(a, b), c) == Merge(a, Merge(b, c))
    ensures Merge(a, EmptyView()) == a
  {
  }

  class SaveResult<R(==)> {
    var inserted: set<R>
    var updated: set<R>
    var errored: set<R>

    function View(): SaveView<R>
      reads this
    {
      SaveView(inserted, updated, errored)
    }

    constructor ()
      ensures inserted == {} && updated == {} && errored == {}
    {
      inserted, updated, errored := {}, {}, {};
    }

    method AddInserted(r: R)
      modifies this
      ensures inserted == old(inserted) + {r}
      ensures updated == old(updated) && errored == old(errored)
    {
      inserted := inserted + {r};
    }

    method AddUpdated(r: R)
      modifies this
      ensures updated == old(updated) + {r}
      ensures inserted == old(inserted) && errored == old(errored)
    {
      updated := updated + {r};
    }

    method AddErrored(r: R)
      modifies this
      ensures errored == old(errored) + {r}
      ensures inserted == old(inserted) && updated == old(updated)
    {
      errored := errored + {r};
    }

    /** mergeFrom: addAll of each of the other's sets; `other` is only read
      * (it may even be this result). */
    method MergeFrom(other: SaveResult<R>)
      modifies this
      ensures View() == Merge(old(View()), old(other.View()))
      ensures other != this ==> unchanged(other)
    {
      inserted := inserted + other.inserted;
      updated := updated + other.updated;
      errored := errored + other.errored;
    }
  }
}
