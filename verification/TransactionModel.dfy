/**
 Transactions over one connection and one lock, when opening, BEGIN, COMMIT, ROLLBACK and
 the block itself may each fail.  A stretch of code under the lock is one event.
 */
module TransactionModel {

  type Write = string

  datatype Option<T> = None | Some(value: T)

  datatype Conn = Absent | Idle | InTxn(pending: seq<Write>)

  // How a locked region ended; `Open` while its transaction still holds the lock.
  datatype Status = Open | NeverBegan | Committed | RolledBack | Discarded

  // One locked region: what it wrote in its transaction, what it wrote after the engine had
  // rolled that back, and how often it took and gave back the lock.
  datatype Region = Region(writes: seq<Write>, strays: seq<Write>, status: Status, taken: nat, returned: nat)

  datatype State = State(memory: bool, conn: Conn,
                         stored: seq<Write>,      // what the database holds
                         locked: bool,
                         regions: seq<Region>)    // every region so far, in the order they took the lock

  datatype CommitResult =
    | Success
    | StillOpen     // it raised and the transaction goes on
    | Ended         // it raised and the transaction was rolled back under it

  datatype Event =
    | Enter(opens: bool, begins: bool)
    | Statement(w: Write)
    | EngineAborts
    | Leave(raised: bool, commit: CommitResult, rollback: bool)
    | Execute(w: Write, opens: bool, ok: bool)
    | Close

  // A dropped connection takes an open transaction with it, and an in-memory database.
  function Dropped(s: State): State {
    s.(conn := Absent, stored := if s.memory then [] else s.stored)
  }

  // The live connection, reopened if it is a file's.
  function Connected(s: State, opens: bool): Option<State> {
    if s.conn != Absent then Some(s)
    else if s.memory || !opens then None
    else Some(s.(conn := Idle))
  }

  function Append(s: State, r: Region): State {
    s.(regions := s.regions + [r])
  }

  // The region that holds the lock.
  function Last(s: State): Region
    requires s.regions != []
  {
    s.regions[|s.regions|-1]
  }

  function SetLast(s: State, r: Region): State
    requires s.regions != []
  {
    s.(regions := s.regions[..|s.regions|-1] + [r])
  }

  predicate Enabled(s: State, e: Event) {
    match e
    case Enter(_, _) => !s.locked
    case Statement(_) => s.locked && !s.conn.Absent? && s.regions != []
    case EngineAborts => s.locked && s.conn.InTxn? && s.regions != []
    case Leave(raised, commit, rollback) =>
      && s.locked && s.regions != []
      // outside a transaction neither COMMIT nor ROLLBACK succeeds
      && (!s.conn.InTxn? ==> commit != Success && !rollback)
      && (commit == Ended ==> !rollback || raised)
    case Execute(_, _, _) => !s.locked
    case Close => !s.locked
  }

  function Entered(s: State, opens: bool, begins: bool): State {
    var c := Connected(s, opens);
    if c.None? then Append(s, Region([], [], NeverBegan, 1, 1))
    else if !begins then Append(c.value, Region([], [], NeverBegan, 1, 1))
    else Append(c.value.(conn := InTxn([]), locked := true), Region([], [], Open, 1, 0))
  }

  function RolledBackOr(s: State, rollback: bool): State
    requires s.regions != []
  {
    var r := Last(s);
    if rollback then SetLast(s.(conn := Idle), r.(status := RolledBack))
    else SetLast(Dropped(s), r.(status := Discarded))
  }

  function Left(s: State, raised: bool, commit: CommitResult, rollback: bool): State
    requires s.regions != []
    requires s.conn.InTxn? || commit != Success || raised
  {
    var ended :=
      if raised then RolledBackOr(s, rollback)
      else if commit == Success then
        SetLast(s.(conn := Idle, stored := s.stored + s.conn.pending), Last(s).(status := Committed))
      else RolledBackOr(s, rollback);
    SetLast(ended, Last(ended).(returned := Last(ended).returned + 1)).(locked := false)
  }

  function Executed(s: State, w: Write, opens: bool, ok: bool): State {
    var c := Connected(s, opens);
    if c.None? then Append(s, Region([], [], NeverBegan, 1, 1))
    else if !ok then Append(c.value, Region([], [], NeverBegan, 1, 1))
    else Append(c.value.(stored := s.stored + [w]), Region([w], [], Committed, 1, 1))
  }

  // Outside a transaction the connection commits every statement by itself.
  function Wrote(s: State, w: Write): State
    requires s.regions != []
  {
    if s.conn.InTxn? then
      SetLast(s.(conn := InTxn(s.conn.pending + [w])), Last(s).(writes := Last(s).writes + [w]))
    else
      SetLast(s.(stored := s.stored + [w]), Last(s).(strays := Last(s).strays + [w]))
  }

  function Next(s: State, e: Event): State
    requires Enabled(s, e)
  {
    match e
    case Enter(opens, begins) => Entered(s, opens, begins)
    case Statement(w) => Wrote(s, w)
    case EngineAborts => s.(conn := Idle)
    case Leave(raised, commit, rollback) => Left(s, raised, commit, rollback)
    case Execute(w, opens, ok) => Executed(s, w, opens, ok)
    case Close => Append(Dropped(s), Region([], [], NeverBegan, 1, 1))
  }

  function Run(s: State, es: seq<Event>): State
    decreases |es|
  {
    if es == [] then s
    else
      var before := Run(s, es[..|es|-1]);
      if Enabled(before, es[|es|-1]) then Next(before, es[|es|-1]) else before
  }

  function Init(memory: bool): State {
    State(memory, Idle, [], false, [])
  }

  // ------------------------------------------------------------------ invariants

  // The writes of the committed regions, in the order they took the lock.
  function Survivors(rs: seq<Region>): seq<Write> {
    if rs == [] then []
    else Survivors(rs[..|rs|-1]) + (if rs[|rs|-1].status == Committed then rs[|rs|-1].writes else [])
  }

  // What a region has put into the database.
  function Part(r: Region): seq<Write> { if r.status == Committed then r.writes else r.strays }

  function Landed(rs: seq<Region>): seq<Write> {
    if rs == [] then [] else Landed(rs[..|rs|-1]) + Part(rs[|rs|-1])
  }

  // No region went on writing after the engine had rolled its transaction back.
  ghost predicate NoStrays(rs: seq<Region>) {
    forall i :: 0 <= i < |rs| ==> rs[i].strays == []
  }

  predicate Settled(r: Region) {
    r.status != Open && r.taken == 1 && r.returned == 1 && (r.status == Committed ==> r.strays == [])
  }

  predicate Holding(r: Region) { r.status == Open && r.taken == 1 && r.returned == 0 }

  ghost predicate LockOk(s: State) {
    && (s.locked ==> s.regions != [] && Holding(s.regions[|s.regions|-1]))
    && forall i :: 0 <= i < |s.regions| && !(s.locked && i == |s.regions| - 1) ==> Settled(s.regions[i])
  }

  ghost predicate ConnOk(s: State) {
    && (s.conn.InTxn? ==>
          s.locked && s.regions != [] && s.conn.pending == Last(s).writes && Last(s).strays == [])
    && (s.conn.Absent? ==> !s.locked)
  }

  ghost predicate StoredOk(s: State) {
    s.stored == if s.memory && s.conn.Absent? then [] else Landed(s.regions)
  }

  ghost predicate Inv(s: State) {
    LockOk(s) && ConnOk(s) && StoredOk(s)
  }

  lemma LandedOfMore(rs: seq<Region>, r: Region)
    ensures Landed(rs + [r]) == Landed(rs) + Part(r)
  {
    assert (rs + [r])[..|rs|] == rs;
  }

  lemma AppendKeepsInv(s: State, r: Region)
    requires Inv(s) && !s.locked && Settled(r) && Part(r) == []
    ensures Inv(Append(s, r))
  {
    LandedOfMore(s.regions, r);
  }

  lemma ConnectedKeepsInv(s: State, opens: bool)
    requires Inv(s) && !s.locked && Connected(s, opens).Some?
    ensures var c := Connected(s, opens).value; Inv(c) && c.conn == Idle && c.stored == s.stored && !c.locked
  {
  }

  lemma OpenKeepsInv(s: State)
    requires Inv(s) && !s.locked && s.conn == Idle
    ensures Inv(Append(s.(conn := InTxn([]), locked := true), Region([], [], Open, 1, 0)))
  {
    hide Landed;
    LandedOfMore(s.regions, Region([], [], Open, 1, 0));
  }

  lemma EnterKeepsInv(s: State, opens: bool, begins: bool)
    requires Inv(s) && !s.locked
    ensures Inv(Entered(s, opens, begins))
  {
    var c := Connected(s, opens);
    if c.None? {
      AppendKeepsInv(s, Region([], [], NeverBegan, 1, 1));
    } else {
      ConnectedKeepsInv(s, opens);
      if begins { OpenKeepsInv(c.value); } else { AppendKeepsInv(c.value, Region([], [], NeverBegan, 1, 1)); }
    }
  }

  // A step inside a region changes its last entry and nothing before it.
  lemma LastKeepsInv(s: State, t: State)
    requires Inv(s) && s.locked && t.memory == s.memory && ConnOk(t)
    requires |t.regions| == |s.regions| && t.regions[..|s.regions|-1] == s.regions[..|s.regions|-1]
    requires if t.locked then Holding(Last(t)) else Settled(Last(t))
    requires t.stored == if t.memory && t.conn.Absent? then [] else Landed(s.regions[..|s.regions|-1]) + Part(Last(t))
    ensures Inv(t)
  {
    var init := s.regions[..|s.regions|-1];
    assert t.regions == init + [Last(t)];
    LandedOfMore(init, Last(t));
    forall i | 0 <= i < |init| ensures t.regions[i] == s.regions[i] && Settled(s.regions[i]) {
      assert t.regions[i] == init[i] == s.regions[i];
    }
  }

  // While a region holds the lock the database has what it wrote outside its transaction
  // and nothing else of it.
  lemma StoredMidRegion(s: State)
    requires Inv(s) && s.locked
    ensures s.stored == Landed(s.regions[..|s.regions|-1]) + Last(s).strays
    ensures s.conn.InTxn? ==> s.stored == Landed(s.regions[..|s.regions|-1])
  {
  }

  lemma LeaveKeepsInv(s: State, raised: bool, commit: CommitResult, rollback: bool)
    requires Inv(s) && Enabled(s, Leave(raised, commit, rollback))
    ensures Inv(Left(s, raised, commit, rollback))
  {
    hide Landed;
    StoredMidRegion(s);
    LastKeepsInv(s, Left(s, raised, commit, rollback));
  }

  lemma ExecuteKeepsInv(s: State, w: Write, opens: bool, ok: bool)
    requires Inv(s) && !s.locked
    ensures Inv(Executed(s, w, opens, ok))
  {
    var c := Connected(s, opens);
    if c.None? {
      AppendKeepsInv(s, Region([], [], NeverBegan, 1, 1));
    } else {
      ConnectedKeepsInv(s, opens);
      AppendKeepsInv(c.value, Region([], [], NeverBegan, 1, 1));
      LandedOfMore(s.regions, Region([w], [], Committed, 1, 1));
    }
  }

  lemma StatementKeepsInv(s: State, w: Write)
    requires Inv(s) && Enabled(s, Statement(w))
    ensures Inv(Next(s, Statement(w)))
  {
    hide Landed;
    StoredMidRegion(s);
    LastKeepsInv(s, Next(s, Statement(w)));
  }

  lemma CloseKeepsInv(s: State)
    requires Inv(s) && !s.locked
    ensures Inv(Next(s, Close))
  {
    assert Inv(Dropped(s));
    AppendKeepsInv(Dropped(s), Region([], [], NeverBegan, 1, 1));
  }

  // Whatever fails, a step keeps the lock, the connection and the database in order.
  lemma NextKeepsInv(s: State, e: Event)
    requires Inv(s) && Enabled(s, e)
    ensures Inv(Next(s, e))
  {
    match e
    case Enter(opens, begins) => EnterKeepsInv(s, opens, begins);
    case Statement(w) => StatementKeepsInv(s, w);
    case EngineAborts =>
    case Leave(raised, commit, rollback) => LeaveKeepsInv(s, raised, commit, rollback);
    case Execute(w, opens, ok) => ExecuteKeepsInv(s, w, opens, ok);
    case Close => CloseKeepsInv(s);
  }

  lemma {:induction false} RunKeepsInv(memory: bool, es: seq<Event>)
    ensures Inv(Run(Init(memory), es)) && Run(Init(memory), es).memory == memory
    decreases |es|
  {
    hide Next, Enabled, Inv;
    if es == [] {
      assert Inv(Init(memory)) by { InitOk(memory); }
    } else {
      RunKeepsInv(memory, es[..|es|-1]);
      var s := Run(Init(memory), es[..|es|-1]);
      if Enabled(s, es[|es|-1]) {
        NextKeepsInv(s, es[|es|-1]);
        SameKind(s, es[|es|-1]);
      }
    }
  }

  lemma InitOk(memory: bool)
    ensures Inv(Init(memory))
  {
  }

  lemma SameKind(s: State, e: Event)
    requires Enabled(s, e)
    ensures Next(s, e).memory == s.memory
  {
  }

  // ------------------------------------------------------------------ main results

  // Every region gave the lock back exactly once, but for the one that holds it.
  lemma LockReturnedOnce(memory: bool, es: seq<Event>)
    ensures var s := Run(Init(memory), es);
      && (forall i :: 0 <= i < |s.regions| ==> s.regions[i].taken == 1)
      && (forall i :: 0 <= i < |s.regions| ==>
            s.regions[i].returned == if s.locked && i == |s.regions| - 1 then 0 else 1)
  {
    hide Run, Landed;
    RunKeepsInv(memory, es);
    var s := Run(Init(memory), es);
    forall i | 0 <= i < |s.regions|
      ensures s.regions[i].taken == 1 && s.regions[i].returned == if s.locked && i == |s.regions| - 1 then 0 else 1
    {
      if !(s.locked && i == |s.regions| - 1) { assert Settled(s.regions[i]); }
    }
  }

  // Whoever takes the free lock finds no transaction left open by someone else.
  lemma FreeMeansClean(memory: bool, es: seq<Event>)
    ensures var s := Run(Init(memory), es); !s.locked ==> s.conn == Absent || s.conn == Idle
  {
    RunKeepsInv(memory, es);
  }

  // The strays are what a database holds beyond the committed writes.
  lemma {:induction false} LandedIsSurvivors(rs: seq<Region>)
    requires forall i :: 0 <= i < |rs| ==> rs[i].status == Committed ==> rs[i].strays == []
    ensures |Landed(rs)| >= |Survivors(rs)|
    ensures Landed(rs) == Survivors(rs) <==> NoStrays(rs)
    ensures |Landed(rs)| == |Survivors(rs)| <==> NoStrays(rs)
  {
    if rs != [] {
      var init, r := rs[..|rs|-1], rs[|rs|-1];
      assert forall i :: 0 <= i < |init| ==> init[i] == rs[i];
      LandedIsSurvivors(init);
      assert NoStrays(rs) <==> NoStrays(init) && r.strays == [];
    }
  }

  // A file holds the writes of the regions whose COMMIT succeeded, in order, whole, and
  // nothing else, exactly if no region wrote after the engine had rolled it back.
  lemma FileHoldsCommittedIff(es: seq<Event>)
    ensures var s := Run(Init(false), es); s.stored == Survivors(s.regions) <==> NoStrays(s.regions)
  {
    hide Run, Landed, Survivors;
    RunKeepsInv(false, es);
    LandedIsSurvivors(Run(Init(false), es).regions);
  }

  // So does an in-memory store, until its connection is dropped.
  lemma MemoryHoldsCommittedIff(es: seq<Event>)
    ensures var s := Run(Init(true), es);
      if s.conn == Absent then s.stored == [] else s.stored == Survivors(s.regions) <==> NoStrays(s.regions)
  {
    hide Run, Landed, Survivors;
    RunKeepsInv(true, es);
    LandedIsSurvivors(Run(Init(true), es).regions);
  }

  // One such region: its transaction is gone, what it wrote afterwards is there to stay, and
  // its caller is told that the block failed.
  lemma StrayStays(w: Write, v: Write)
    ensures var s := Run(Init(false), [Enter(true, true), Statement(w), EngineAborts, Statement(v),
                                       Leave(false, Ended, false)]);
      s.stored == [v] && s.regions == [Region([w], [v], Discarded, 1, 1)] && Survivors(s.regions) == []
  {
    hide Run, Next;
    var e0, e1, e2, e3, e4 := Enter(true, true), Statement(w), EngineAborts, Statement(v), Leave(false, Ended, false);
    RunNone(Init(false));
    RunSnoc(Init(false), [], e0, [e0]);
    RunSnoc(Init(false), [e0], e1, [e0, e1]);
    RunSnoc(Init(false), [e0, e1], e2, [e0, e1, e2]);
    RunSnoc(Init(false), [e0, e1, e2], e3, [e0, e1, e2, e3]);
    RunSnoc(Init(false), [e0, e1, e2, e3], e4, [e0, e1, e2, e3, e4]);
    StraySteps(w, v);
    StrayLeaves(w, v);
    LeaveIs(State(false, Idle, [v], true, [Region([w], [v], Open, 1, 0)]), false, Ended, false);
  }

  lemma StraySteps(w: Write, v: Write)
    ensures var s4 := State(false, Idle, [v], true, [Region([w], [v], Open, 1, 0)]);
      var s3 := State(false, Idle, [], true, [Region([w], [], Open, 1, 0)]);
      var s2 := State(false, InTxn([w]), [], true, [Region([w], [], Open, 1, 0)]);
      var s1 := State(false, InTxn([]), [], true, [Region([], [], Open, 1, 0)]);
      && Enabled(Init(false), Enter(true, true)) && Next(Init(false), Enter(true, true)) == s1
      && Enabled(s1, Statement(w)) && Next(s1, Statement(w)) == s2
      && Enabled(s2, EngineAborts) && Next(s2, EngineAborts) == s3
      && Enabled(s3, Statement(v)) && Next(s3, Statement(v)) == s4
      && Enabled(s4, Leave(false, Ended, false))
  {
    hide Wrote, Left, Executed;
    var r1, r2 := Region([], [], Open, 1, 0), Region([w], [], Open, 1, 0);
    WroteFirst(State(false, InTxn([]), [], true, [r1]), w);
    WroteFirst(State(false, Idle, [], true, [r2]), v);
    assert [] + [r1] == [r1];
  }

  lemma WroteFirst(s: State, w: Write)
    requires |s.regions| == 1 && s.stored == [] && s.regions[0].strays == []
    requires s.conn.InTxn? ==> s.conn.pending == [] == s.regions[0].writes
    ensures Wrote(s, w)
         == if s.conn.InTxn? then s.(conn := InTxn([w]), regions := [s.regions[0].(writes := [w])])
            else s.(stored := [w], regions := [s.regions[0].(strays := [w])])
  {
    assert [] + [w] == [w] && s.regions[..0] == [];
  }

  lemma StrayLeaves(w: Write, v: Write)
    ensures Left(State(false, Idle, [v], true, [Region([w], [v], Open, 1, 0)]), false, Ended, false)
         == State(false, Absent, [v], false, [Region([w], [v], Discarded, 1, 1)])
    ensures Survivors([Region([w], [v], Discarded, 1, 1)]) == []
  {
    var r := Region([w], [v], Discarded, 1, 0);
    SetOnly(State(false, Absent, [v], true, [Region([w], [v], Open, 1, 0)]), r);
    SetOnly(State(false, Absent, [v], true, [r]), r.(returned := 1));
    assert [r.(returned := 1)][..0] == [];
  }

  lemma SetOnly(s: State, r: Region)
    requires |s.regions| == 1
    ensures SetLast(s, r) == s.(regions := [r])
  {
    assert s.regions[..0] == [];
  }

  lemma LeaveIs(s: State, raised: bool, commit: CommitResult, rollback: bool)
    requires Enabled(s, Leave(raised, commit, rollback))
    ensures Next(s, Leave(raised, commit, rollback)) == Left(s, raised, commit, rollback)
  {
  }

  lemma RunNone(s: State)
    ensures Run(s, []) == s
  {
  }

  lemma RunSnoc(s: State, es: seq<Event>, e: Event, more: seq<Event>)
    requires more == es + [e]
    ensures Run(s, more) == if Enabled(Run(s, es), e) then Next(Run(s, es), e) else Run(s, es)
  {
    assert more[..|es|] == es;
  }

  // ... and from then on every use of it raises.
  lemma {:induction false} LostMemoryStaysLost(s: State, es: seq<Event>)
    requires s.memory && s.conn == Absent && !s.locked
    ensures var t := Run(s, es);
      && t.memory && t.conn == Absent && !t.locked && s.regions <= t.regions
      && forall i :: |s.regions| <= i < |t.regions| ==> t.regions[i].status == NeverBegan
    decreases |es|
  {
    if es != [] {
      LostMemoryStaysLost(s, es[..|es|-1]);
    }
  }

  // What the caller of a block sees: an exception, unless its COMMIT went through.
  predicate Raises(raised: bool, commit: CommitResult) { raised || commit != Success }

  // A block that ends without an exception has put its writes into the database, all of them
  // and in its transaction; one that ends with an exception has left a file as the block found
  // it, exactly if it wrote nothing after the engine had rolled it back.
  lemma CallerIsTold(s: State, raised: bool, commit: CommitResult, rollback: bool)
    requires Inv(s) && Enabled(s, Leave(raised, commit, rollback))
    ensures var t, found := Left(s, raised, commit, rollback), Landed(s.regions[..|s.regions|-1]);
      && (!Raises(raised, commit) ==>
            t.stored == found + Last(s).writes && Last(t).status == Committed && Last(s).strays == [])
      && (Raises(raised, commit) ==> Last(t).status in {RolledBack, Discarded})
      && (Raises(raised, commit) && !s.memory ==>
            t.stored == found + Last(s).strays && (t.stored == found <==> Last(s).strays == []))
      && !t.locked && (t.conn == Idle || t.conn == Absent)
  {
    StoredMidRegion(s);
  }

  // ... beside what the database held when the block ended.
  lemma LeaveStores(s: State, raised: bool, commit: CommitResult, rollback: bool)
    requires Inv(s) && Enabled(s, Leave(raised, commit, rollback))
    ensures s.conn != Absent
    ensures var t := Left(s, raised, commit, rollback);
      && (!Raises(raised, commit) ==> t.stored == s.stored + Last(s).writes)
      && (Raises(raised, commit) && !s.memory ==> t.stored == s.stored)
  {
  }

  function Outcome(raises: bool, rollback: bool): Status {
    if !raises then Committed else if rollback then RolledBack else Discarded
  }

  // Leaving in one go.
  lemma LeftIs(s: State, raised: bool, commit: CommitResult, rollback: bool)
    requires Enabled(s, Leave(raised, commit, rollback))
    ensures var raises := Raises(raised, commit);
      Left(s, raised, commit, rollback)
        == s.(conn := if !raises || rollback then Idle else Absent,
              stored := if !raises then s.stored + s.conn.pending
                        else if !rollback && s.memory then [] else s.stored,
              locked := false,
              regions := s.regions[..|s.regions|-1]
                         + [Last(s).(status := Outcome(raises, rollback), returned := Last(s).returned + 1)])
  {
  }

  // ---------------------------------------------------------------- getting in

  // A block begins exactly if there is a connection, or a file that can be opened, and the
  // BEGIN succeeds; it then has an empty transaction.  One that does not keeps nothing.
  lemma EntersIff(s: State, opens: bool, begins: bool)
    requires Inv(s) && !s.locked
    ensures var t := Entered(s, opens, begins);
      && (t.locked <==> begins && (s.conn != Absent || (!s.memory && opens)))
      && (t.locked ==> t.conn == InTxn([])) && t.stored == s.stored
      && |t.regions| == |s.regions| + 1 && t.regions[..|s.regions|] == s.regions
      && t.regions[|s.regions|].status == if t.locked then Open else NeverBegan
  {
  }

  // A statement on its own is written exactly under the same condition, and it succeeds.
  lemma ExecutesIff(s: State, w: Write, opens: bool, ok: bool)
    requires Inv(s) && !s.locked
    ensures var t := Executed(s, w, opens, ok);
      t.stored == (if ok && (s.conn != Absent || (!s.memory && opens)) then s.stored + [w] else s.stored) && !t.locked
  {
  }
}
