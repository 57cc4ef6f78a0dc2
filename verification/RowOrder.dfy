/** Picking one row by two sort columns and the primary key. */
module RowOrder {
  import opened Wrappers

  type Rank = (int, int)

  predicate Before(a: Rank, ia: Id, b: Rank, ib: Id) {
    a.0 < b.0 || (a.0 == b.0 && (a.1 < b.1 || (a.1 == b.1 && ia < ib)))
  }

  /** The row every other candidate comes after. */
  ghost predicate IsFirst(ids: set<Id>, rank: Id -> Rank, first: Id) {
    first in ids && forall o :: o in ids && o != first ==> Before(rank(first), first, rank(o), o)
  }

  method First(ids: set<Id>, rank: Id -> Rank) returns (first: Id)
    requires ids != {}
    ensures IsFirst(ids, rank, first)
  {
    first :| first in ids;
    var todo := ids - {first};
    while todo != {}
      invariant first in ids && todo <= ids && first !in todo
      invariant forall o :: o in ids && o !in todo && o != first ==> Before(rank(first), first, rank(o), o)
    {
      var o :| o in todo;
      todo := todo - {o};
      if Before(rank(o), o, rank(first), first) {
        first := o;
      }
    }
  }
}
