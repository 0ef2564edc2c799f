/** A database session: what is committed, and what the unit of work sees. */
module Sessions {

  class Session<D> {
    var committed: D
    var working: D
    /** Every state committed through this session. */
    ghost var history: seq<D>

    constructor (db: D)
      ensures committed == working == db && history == []
    {
      committed, working, history := db, db, [];
    }

    method Commit()
      modifies this
      ensures working == committed == old(working) && history == old(history) + [committed]
    {
      committed := working;
      history := history + [committed];
    }

    method Rollback()
      modifies this`working
      ensures working == committed
    {
      working := committed;
    }
  }
}
