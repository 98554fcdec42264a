/**
 The store object: its handle, its lock, and the paths through entering and leaving a
 transaction.  What the engine answers is passed in.
 */
module SqliteStore {
  import opened TransactionModel

  class Store {
    const memory: bool
    var conn: Conn
    var stored: seq<Write>
    var locked: bool

    ghost var regions: seq<Region>
    ghost var trace: seq<Event>

    ghost function View(): State
      reads this
    {
      State(memory, conn, stored, locked, regions)
    }

    ghost predicate Valid()
      reads this
    {
      View() == Run(Init(memory), trace)
    }

    constructor (memory: bool)
      ensures Valid() && trace == [] && this.memory == memory && !locked
    {
      this.memory := memory;
      conn, stored, locked := Idle, [], false;
      regions, trace := [], [];
    }

    ghost method Record(e: Event)
      requires Valid() && Enabled(View(), e)
      modifies this`trace
      ensures trace == old(trace) + [e]
      ensures Run(Init(memory), trace) == Next(old(View()), e)
    {
      assert (trace + [e])[..|trace|] == trace;
      trace := trace + [e];
    }

    // ----------------------------------------------------------------- the lock

    method Acquire()
      requires !locked
      modifies this`locked, this`regions
      ensures locked && regions == old(regions) + [Region([], [], Open, 1, 0)]
    {
      locked := true;
      regions := regions + [Region([], [], Open, 1, 0)];
    }

    // Giving back a lock that is not held would raise.
    method Release(status: Status)
      requires locked && regions != []
      modifies this`locked, this`regions
      ensures !locked
      ensures regions == old(regions)[..|old(regions)|-1]
                         + [Last(old(View())).(status := status, returned := Last(old(View())).returned + 1)]
    {
      locked := false;
      regions := regions[..|regions|-1]
          + [regions[|regions|-1].(status := status, returned := regions[|regions|-1].returned + 1)];
    }

    // --------------------------------------------------------------- the handle

    // An absent handle is reopened, unless reopening would be an empty database.
    method Connection(opens: bool) returns (ok: bool)
      modifies this`conn
      ensures ok <==> old(conn) != Absent || (!memory && opens)
      ensures conn == if old(conn) == Absent && ok then Idle else old(conn)
    {
      if conn == Absent {
        if memory || !opens {
          return false;
        }
        conn := Idle;
      }
      ok := true;
    }

    method DiscardConnection()
      modifies this`conn, this`stored
      ensures conn == Absent && stored == if memory then [] else old(stored)
    {
      conn := Absent;
      if memory {
        stored := [];
      }
    }

    method Commit(result: CommitResult) returns (ok: bool)
      requires result == Success ==> conn.InTxn?
      modifies this`conn, this`stored
      ensures ok <==> result == Success
      ensures stored == if ok then old(stored) + old(conn).pending else old(stored)
      ensures conn == if result == StillOpen then old(conn) else if conn.Absent? then old(conn) else Idle
      ensures old(conn) != Absent ==> conn != Absent
    {
      ok := result == Success;
      if ok {
        stored := stored + conn.pending;
      }
      if result != StillOpen && conn != Absent {
        conn := Idle;
      }
    }

    // -------------------------------------------------------------- transactions

    // `__enter__`: a BEGIN that does not start gives the lock back and raises.
    method Enter(opens: bool, begins: bool) returns (entered: bool)
      requires Valid() && !locked
      modifies this
      ensures Valid() && trace == old(trace) + [Event.Enter(opens, begins)]
      ensures entered <==> locked
      ensures entered ==> conn == InTxn([])
    {
      hide Run;
      Record(Event.Enter(opens, begins));
      Acquire();
      var ok := Connection(opens);
      if ok && begins {
        conn := InTxn([]);
        return true;
      }
      Release(NeverBegan);
      entered := false;
    }

    // One statement of the block; once the engine has rolled back, it commits by itself.
    method Statement(w: Write)
      requires Valid() && Enabled(View(), Event.Statement(w))
      modifies this
      ensures Valid() && trace == old(trace) + [Event.Statement(w)]
    {
      hide Run;
      Record(Event.Statement(w));
      var last := regions[|regions|-1];
      if conn.InTxn? {
        conn := InTxn(conn.pending + [w]);
        regions := regions[..|regions|-1] + [last.(writes := last.writes + [w])];
      } else {
        stored := stored + [w];
        regions := regions[..|regions|-1] + [last.(strays := last.strays + [w])];
      }
    }

    // The engine rolls the transaction back under the block, as it may on a full disk.
    method EngineRollsBack()
      requires Valid() && Enabled(View(), EngineAborts)
      modifies this`conn, this`trace
      ensures Valid() && trace == old(trace) + [EngineAborts]
    {
      hide Run;
      Record(EngineAborts);
      conn := Idle;
    }

    // `__exit__`: commit, or roll back, or drop a handle that can do neither; the lock
    // goes back on every path.
    method Leave(raised: bool, commit: CommitResult, rollback: bool) returns (raises: bool)
      requires Valid() && Enabled(View(), Event.Leave(raised, commit, rollback))
      modifies this
      ensures Valid() && trace == old(trace) + [Event.Leave(raised, commit, rollback)]
      ensures !locked
      ensures raises == Raises(raised, commit)
      ensures !raises ==> stored == old(stored) + Last(old(View())).writes
      ensures raises && !memory ==> stored == old(stored)
    {
      hide Run, Inv, Left;
      RunKeepsInv(memory, trace);
      LeaveStores(View(), raised, commit, rollback);
      LeftIs(View(), raised, commit, rollback);
      Record(Event.Leave(raised, commit, rollback));
      var status: Status;
      raises, status := Finish(raised, commit, rollback);
      Release(status);
    }

    method Finish(raised: bool, commit: CommitResult, rollback: bool) returns (raises: bool, status: Status)
      requires conn != Absent && (!conn.InTxn? ==> commit != Success)
      modifies this`conn, this`stored
      ensures raises == Raises(raised, commit)
      ensures status == Outcome(raises, rollback)
      ensures conn == if !raises || rollback then Idle else Absent
      ensures stored == if !raises then old(stored) + old(conn).pending
                        else if !rollback && memory then [] else old(stored)
    {
      status := Committed;
      raises := raised;
      if !raised {
        var ok := Commit(commit);
        if !ok {
          raises := true;
          status := RollBackOrDiscard(rollback);
        }
      } else {
        status := RollBackOrDiscard(rollback);
      }
    }

    method RollBackOrDiscard(ok: bool) returns (status: Status)
      modifies this`conn, this`stored
      ensures conn == if ok then Idle else Absent
      ensures stored == if !ok && memory then [] else old(stored)
      ensures status == if ok then RolledBack else Discarded
    {
      if ok {
        conn := Idle;
        return RolledBack;
      }
      DiscardConnection();
      status := Discarded;
    }

    // ---------------------------------------------------------- outside a block

    // A statement on its own commits itself.
    method Execute(w: Write, opens: bool, ok: bool) returns (done: bool)
      requires Valid() && !locked
      modifies this
      ensures Valid() && trace == old(trace) + [Event.Execute(w, opens, ok)]
      ensures !locked
      ensures stored == if done then old(stored) + [w] else old(stored)
    {
      hide Run;
      Record(Event.Execute(w, opens, ok));
      Acquire();
      var connected := Connection(opens);
      done := connected && ok;
      if done {
        stored := stored + [w];
        regions := regions[..|regions|-1] + [regions[|regions|-1].(writes := [w])];
      }
      Release(if done then Committed else NeverBegan);
    }

    // The handle is let go of before anything that can fail.
    method Close()
      requires Valid() && !locked
      modifies this
      ensures Valid() && trace == old(trace) + [Event.Close]
      ensures !locked && conn == Absent
      ensures !memory ==> stored == old(stored)
    {
      hide Run;
      Record(Event.Close);
      Acquire();
      DiscardConnection();
      Release(NeverBegan);
    }
  }
}
