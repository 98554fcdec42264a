/**
 Every desk's store behaves as if the shared table were its own: what it reads, what it
 writes, what it is refused, over any run of calls by any number of desks.
 */
module TenantIsolation {
  import opened TenantModel

  // ---------------------------------------------------------------- what is sent

  datatype Call =
    | Fetch(filters: Filters)
    | Add(rows: seq<Row>, onConflict: Option<seq<string>>, resolution: Option<Resolution>)
    | Patch(filters: Filters, body: Row)
    | Remove(filters: Filters)

  predicate Mentions(column: string) {
    exists i :: 0 <= i <= |column| - |DESK| && ReadsDesk(column, i)
  }

  predicate ReadsDesk(column: string, i: nat)
    requires i + |DESK| <= |column|
  {
    column[i..i+|DESK|] == DESK
  }

  // The desk is put before a target that does not mention it.
  function Expanded(target: Option<seq<string>>): Option<seq<string>> {
    if target.None? || target.value == [] then None
    else if exists i :: 0 <= i < |target.value| && Mentions(target.value[i]) then target
    else Some([DESK] + target.value)
  }

  function Stamped(desk: string, rows: seq<Row>): (r: seq<Row>)
    ensures |r| == |rows|
    ensures forall i :: 0 <= i < |r| ==> r[i] == rows[i][DESK := Text(desk)]
  {
    if rows == [] then [] else Stamped(desk, rows[..|rows|-1]) + [rows[|rows|-1][DESK := Text(desk)]]
  }

  // The request a call turns into; an empty payload is not sent.
  function Sent(desk: string, call: Call): Option<Request> {
    match call
    case Fetch(filters) => Some(GET(Scoped(desk, filters)))
    case Add(rows, target, resolution) =>
      if rows == [] then None else Some(POST(Stamped(desk, rows), Expanded(target), resolution))
    case Patch(filters, body) => Some(PATCH(Scoped(desk, filters), body[DESK := Text(desk)]))
    case Remove(filters) => Some(DELETE(Scoped(desk, filters)))
  }

  ghost function Do(db: Database, t: Table, desk: string, call: Call): (Table, Response) {
    var req := Sent(desk, call);
    if req.None? then (t, Rows([])) else Handle(db, t, req.value)
  }

  // --------------------------------------------------- the store on a table of its own

  function Bare(filters: Filters): Params { Texts(filters) - {DESK} }

  // The same call on a table no one else uses, with no desk in a filter or a constraint.
  ghost function Alone(db: Database, own: Table, desk: string, call: Call): (Table, Response) {
    match call
    case Fetch(filters) => (own, Rows(Select(db, Bare(filters), own)))
    case Add(rows, target, resolution) =>
      if rows == [] then (own, Rows([]))
      else if !SameColumns(Stamped(desk, rows)) then (own, Failed)
      else if resolution.Some? && target.Some? && target.value != []
           && ToSet(target.value) + {DESK} != ToSet(db.key) + {DESK} then (own, Failed)
      else Insert(db.key, false, own, Stamped(desk, rows), resolution)
    case Patch(filters, body) =>
      var u := Patched(db, Bare(filters), body[DESK := Text(desk)], own);
      if Unique(db.key, false, u) then (u, Rows(Select2(db, Bare(filters), body[DESK := Text(desk)], own)))
      else (own, Failed)
    case Remove(filters) => (Delete(db, Bare(filters), own), Rows(Select(db, Bare(filters), own)))
  }

  // The rows of one desk.
  function Own(t: Table, desk: Value): Table {
    if t == [] then []
    else
      var rest, r := Own(t[..|t|-1], desk), t[|t|-1];
      if Get(r, DESK) == desk then rest + [r] else rest
  }

  predicate WellKeyed(db: Database) {
    forall i :: 0 <= i < |db.key| ==> !Mentions(db.key[i])
  }

  // ------------------------------------------------------------------- selection

  lemma MatchesScoped(db: Database, desk: string, filters: Filters, r: Row)
    requires ReadsEq(db)
    ensures Matches(db, Scoped(desk, filters), r) <==> Get(r, DESK) == Text(desk) && Matches(db, Bare(filters), r)
  {
    var s, b := Scoped(desk, filters), Bare(filters);
    assert s[DESK] == "eq." + desk;
    assert db.op(DESK, "eq." + desk, r) <==> Get(r, DESK) == Text(desk);
    if Matches(db, s, r) {
      forall c | c in b ensures db.op(c, b[c], r) { assert s[c] == b[c]; }
    } else if Get(r, DESK) == Text(desk) {
      var c :| c in s && !db.op(c, s[c], r);
      assert c in b && b[c] == s[c];
    }
  }

  lemma OwnOfSnoc(t: Table, r: Row, desk: Value)
    ensures Own(t + [r], desk) == if Get(r, DESK) == desk then Own(t, desk) + [r] else Own(t, desk)
  {
    assert (t + [r])[..|t|] == t;
  }

  lemma {:induction false} OwnRows(t: Table, desk: Value)
    ensures forall r :: r in Own(t, desk) <==> r in t && Get(r, DESK) == desk
  {
    if t != [] {
      OwnRows(t[..|t|-1], desk);
      assert t == t[..|t|-1] + [t[|t|-1]];
    }
  }

  lemma {:induction false} SelectScoped(db: Database, desk: string, filters: Filters, body: Row, t: Table)
    requires ReadsEq(db)
    ensures Select(db, Scoped(desk, filters), t) == Select(db, Bare(filters), Own(t, Text(desk)))
    ensures Select2(db, Scoped(desk, filters), body, t) == Select2(db, Bare(filters), body, Own(t, Text(desk)))
  {
    if t != [] {
      var init, r := t[..|t|-1], t[|t|-1];
      SelectScoped(db, desk, filters, body, init);
      MatchesScoped(db, desk, filters, r);
      assert (Own(init, Text(desk)) + [r])[..|Own(init, Text(desk))|] == Own(init, Text(desk));
    }
  }

  lemma {:induction false} DeleteScoped(db: Database, desk: string, filters: Filters, t: Table, e: Value)
    requires ReadsEq(db)
    ensures Own(Delete(db, Scoped(desk, filters), t), e) ==
      if e == Text(desk) then Delete(db, Bare(filters), Own(t, e)) else Own(t, e)
  {
    if t != [] {
      var init, r := t[..|t|-1], t[|t|-1];
      DeleteScoped(db, desk, filters, init, e);
      MatchesScoped(db, desk, filters, r);
      OwnOfSnoc(Delete(db, Scoped(desk, filters), init), r, e);
      assert (Own(init, e) + [r])[..|Own(init, e)|] == Own(init, e);
    }
  }

  lemma {:induction false} PatchScoped(db: Database, desk: string, filters: Filters, body: Row, t: Table, e: Value)
    requires ReadsEq(db) && DESK in body && body[DESK] == Text(desk)
    ensures Own(Patched(db, Scoped(desk, filters), body, t), e) ==
      if e == Text(desk) then Patched(db, Bare(filters), body, Own(t, e)) else Own(t, e)
  {
    if t != [] {
      var init, r := t[..|t|-1], t[|t|-1];
      var p := Patched(db, Scoped(desk, filters), body, init);
      PatchScoped(db, desk, filters, body, init, e);
      MatchesScoped(db, desk, filters, r);
      OwnOfSnoc(p, r, e);
      OwnOfSnoc(p, r + body, e);
      assert (Own(init, e) + [r])[..|Own(init, e)|] == Own(init, e);
    }
  }

  // ------------------------------------------------------------------ uniqueness

  lemma {:induction false} FreeOfOwn(key: seq<string>, t: Table, r: Row)
    ensures Free(key, true, t, r) <==> Free(key, false, Own(t, Get(r, DESK)), r)
  {
    if t != [] {
      var init, last := t[..|t|-1], t[|t|-1];
      FreeOfOwn(key, init, r);
      FreeSnoc(key, true, init, last, r);
      FreeSnoc(key, false, Own(init, Get(r, DESK)), last, r);
      assert t == init + [last];
    }
  }

  lemma FreeSnoc(key: seq<string>, byDesk: bool, t: Table, last: Row, r: Row)
    ensures Free(key, byDesk, t + [last], r) <==> Free(key, byDesk, t, r) && !Clash(key, byDesk, last, r)
  {
    var u := t + [last];
    assert u[|t|] == last && forall i :: 0 <= i < |t| ==> u[i] == t[i];
  }

  lemma UniqueSnoc(key: seq<string>, byDesk: bool, t: Table, r: Row)
    ensures Unique(key, byDesk, t + [r]) <==> Unique(key, byDesk, t) && Free(key, byDesk, t, r)
  {
    var u := t + [r];
    assert u[|t|] == r && forall i :: 0 <= i < |t| ==> u[i] == t[i];
  }

  ghost predicate UniqueOwn(key: seq<string>, t: Table, e: Value) {
    Unique(key, false, Own(t, e))
  }

  // The constraint on (desk, key) is the constraint on the key, desk by desk.
  lemma {:induction false} UniqueByDesk(key: seq<string>, t: Table)
    ensures Unique(key, true, t) <==> forall e :: UniqueOwn(key, t, e)
  {
    if t == [] {
      assert forall e :: UniqueOwn(key, t, e);
    } else {
      var init, r := t[..|t|-1], t[|t|-1];
      assert t == init + [r];
      UniqueByDesk(key, init);
      UniqueSnoc(key, true, init, r);
      FreeOfOwn(key, init, r);
      forall e ensures UniqueOwn(key, t, e) <==>
        UniqueOwn(key, init, e) && (Get(r, DESK) == e ==> Free(key, false, Own(init, e), r))
      {
        UniqueSnoc(key, false, Own(init, e), r);
      }
      assert (forall e :: UniqueOwn(key, t, e)) ==> UniqueOwn(key, t, Get(r, DESK));
      assert (forall e :: UniqueOwn(key, t, e)) ==> forall e :: UniqueOwn(key, init, e);
    }
  }

  // A table in which only one desk's rows were changed.
  lemma UniqueAfter(key: seq<string>, t: Table, t': Table, desk: Value)
    requires Unique(key, true, t) && forall e :: e != desk ==> Own(t', e) == Own(t, e)
    ensures Unique(key, true, t') <==> Unique(key, false, Own(t', desk))
  {
    UniqueByDesk(key, t);
    UniqueByDesk(key, t');
    if Unique(key, false, Own(t', desk)) {
      forall e ensures UniqueOwn(key, t', e) { assert UniqueOwn(key, t, e); }
    } else {
      assert !UniqueOwn(key, t', desk);
    }
  }

  // --------------------------------------------------------------------- inserts

  ghost predicate OfDesk(rows: seq<Row>, desk: Value) {
    forall i :: 0 <= i < |rows| ==> Get(rows[i], DESK) == desk
  }

  lemma {:induction false} OwnAll(rows: seq<Row>, desk: Value, e: Value)
    requires OfDesk(rows, desk)
    ensures Own(rows, e) == if e == desk then rows else []
  {
    if rows != [] {
      var init := rows[..|rows|-1];
      assert forall i :: 0 <= i < |init| ==> init[i] == rows[i];
      OwnAll(init, desk, e);
    }
  }

  lemma {:induction false} OwnConcat(t: Table, rows: seq<Row>, e: Value)
    ensures Own(t + rows, e) == Own(t, e) + Own(rows, e)
  {
    if rows == [] {
      assert t + rows == t;
    } else {
      var init := rows[..|rows|-1];
      OwnConcat(t, init, e);
      assert t + rows == (t + init) + [rows[|rows|-1]];
      OwnOfSnoc(t + init, rows[|rows|-1], e);
    }
  }

  lemma {:induction false} InsertNewOwn(key: seq<string>, t: Table, rows: seq<Row>, desk: Value, e: Value)
    requires OfDesk(rows, desk)
    ensures InsertNew(key, true, t, rows).1 == InsertNew(key, false, Own(t, desk), rows).1
    ensures Own(InsertNew(key, true, t, rows).0, e) ==
      if e == desk then InsertNew(key, false, Own(t, desk), rows).0 else Own(t, e)
  {
    if rows != [] {
      var init, r := rows[..|rows|-1], rows[|rows|-1];
      assert forall i :: 0 <= i < |init| ==> init[i] == rows[i];
      InsertNewOwn(key, t, init, desk, e);
      InsertNewOwn(key, t, init, desk, desk);
      var u := InsertNew(key, true, t, init).0;
      FreeOfOwn(key, u, r);
      OwnOfSnoc(u, r, e);
    }
  }

  lemma OverlaidSnoc(key: seq<string>, byDesk: bool, t: Table, last: Row, r: Row)
    ensures Overlaid(key, byDesk, t + [last], r)
         == Overlaid(key, byDesk, t, r) + [if Clash(key, byDesk, last, r) then last + r else last]
    ensures Hit(key, byDesk, t + [last], r)
         == if Clash(key, byDesk, last, r) then Hit(key, byDesk, t, r) + [last + r] else Hit(key, byDesk, t, r)
  {
    assert (t + [last])[..|t|] == t;
  }

  // A row laid over another keeps its desk.
  lemma OverlaidDesk(key: seq<string>, last: Row, r: Row)
    requires Clash(key, true, last, r)
    ensures Get(last + r, DESK) == Get(last, DESK) == Get(r, DESK)
  {
  }

  lemma {:induction false} OverlaidOwn(key: seq<string>, t: Table, r: Row, e: Value)
    ensures Hit(key, true, t, r) == Hit(key, false, Own(t, Get(r, DESK)), r)
    ensures Own(Overlaid(key, true, t, r), e) ==
      if e == Get(r, DESK) then Overlaid(key, false, Own(t, e), r) else Own(t, e)
  {
    hide SameKey, Get;
    if |t| != 0 {
      var init, last := t[..|t|-1], t[|t|-1];
      assert t == init + [last];
      OverlaidOwn(key, init, r, e);
      OverlaidSnoc(key, true, init, last, r);
      OverlaidSnoc(key, false, Own(init, Get(r, DESK)), last, r);
      OwnOfSnoc(init, last, e);
      OwnOfSnoc(init, last, Get(r, DESK));
      OverlaidLast(key, init, last, r, e);
    }
  }

  lemma OverlaidLast(key: seq<string>, init: Table, last: Row, r: Row, e: Value)
    ensures var x := if Clash(key, true, last, r) then last + r else last;
      Own(Overlaid(key, true, init, r) + [x], e)
        == if Get(last, DESK) == e then Own(Overlaid(key, true, init, r), e) + [x]
            else Own(Overlaid(key, true, init, r), e)
  {
    hide SameKey, Overlaid;
    if Clash(key, true, last, r) { OverlaidDesk(key, last, r); }
    OwnOfSnoc(Overlaid(key, true, init, r), if Clash(key, true, last, r) then last + r else last, e);
  }

  lemma {:induction false} InsertMergedOwn(key: seq<string>, t: Table, rows: seq<Row>, desk: Value, e: Value)
    requires OfDesk(rows, desk)
    ensures InsertMerged(key, true, t, rows).1 == InsertMerged(key, false, Own(t, desk), rows).1
    ensures Own(InsertMerged(key, true, t, rows).0, e) ==
      if e == desk then InsertMerged(key, false, Own(t, desk), rows).0 else Own(t, e)
  {
    if rows != [] {
      var init, r := rows[..|rows|-1], rows[|rows|-1];
      assert forall i :: 0 <= i < |init| ==> init[i] == rows[i];
      InsertMergedOwn(key, t, init, desk, e);
      InsertMergedOwn(key, t, init, desk, desk);
      var u := InsertMerged(key, true, t, init).0;
      FreeOfOwn(key, u, r);
      OwnOfSnoc(u, r, e);
      OverlaidOwn(key, u, r, e);
    }
  }

  lemma {:induction false} InsertNewUnique(key: seq<string>, byDesk: bool, t: Table, rows: seq<Row>)
    requires Unique(key, byDesk, t)
    ensures Unique(key, byDesk, InsertNew(key, byDesk, t, rows).0)
  {
    if rows != [] {
      InsertNewUnique(key, byDesk, t, rows[..|rows|-1]);
      UniqueSnoc(key, byDesk, InsertNew(key, byDesk, t, rows[..|rows|-1]).0, rows[|rows|-1]);
    }
  }

  // Laying a row over one with its own key leaves every key where it was.
  lemma {:induction false} OverlaidKeys(key: seq<string>, t: Table, r: Row)
    ensures |Overlaid(key, true, t, r)| == |t|
    ensures forall i :: 0 <= i < |t| ==> SameIdentity(key, t[i], Overlaid(key, true, t, r)[i])
  {
    if t != [] { OverlaidKeys(key, t[..|t|-1], r); }
  }

  ghost predicate SameIdentity(key: seq<string>, a: Row, b: Row) {
    Get(a, DESK) == Get(b, DESK) && forall i :: 0 <= i < |key| ==> Get(a, key[i]) == Get(b, key[i])
  }

  lemma SameIdentityClash(key: seq<string>, a: Row, a': Row, b: Row, b': Row)
    requires SameIdentity(key, a, a') && SameIdentity(key, b, b')
    ensures Clash(key, true, a, b) <==> Clash(key, true, a', b')
  {
  }

  lemma {:induction false} InsertMergedUnique(key: seq<string>, t: Table, rows: seq<Row>)
    requires Unique(key, true, t)
    ensures Unique(key, true, InsertMerged(key, true, t, rows).0)
  {
    if rows != [] {
      var r := rows[|rows|-1];
      InsertMergedUnique(key, t, rows[..|rows|-1]);
      var u := InsertMerged(key, true, t, rows[..|rows|-1]).0;
      if Free(key, true, u, r) {
        UniqueSnoc(key, true, u, r);
      } else {
        var o := Overlaid(key, true, u, r);
        OverlaidKeys(key, u, r);
        forall i, j | 0 <= i < j < |o| ensures !Clash(key, true, o[i], o[j]) {
          SameIdentityClash(key, u[i], o[i], u[j], o[j]);
        }
      }
    }
  }

  lemma InsertIsolated(key: seq<string>, t: Table, rows: seq<Row>, resolution: Option<Resolution>, desk: Value,
      e: Value)
    requires OfDesk(rows, desk) && Unique(key, true, t)
    ensures var (t', out) := Insert(key, true, t, rows, resolution);
      && Unique(key, true, t')
      && out == Insert(key, false, Own(t, desk), rows, resolution).1
      && Own(t', e) == if e == desk then Insert(key, false, Own(t, desk), rows, resolution).0 else Own(t, e)
  {
    match resolution
    case None =>
      forall v ensures Own(t + rows, v) == if v == desk then Own(t, desk) + rows else Own(t, v) {
        OwnConcat(t, rows, v);
        OwnAll(rows, desk, v);
      }
      UniqueAfter(key, t, t + rows, desk);
    case Some(IgnoreDuplicates) =>
      InsertNewOwn(key, t, rows, desk, e);
      InsertNewUnique(key, true, t, rows);
    case Some(MergeDuplicates) =>
      InsertMergedOwn(key, t, rows, desk, e);
      InsertMergedUnique(key, t, rows);
      BatchUnique(key, rows, desk);
  }

  lemma BatchUnique(key: seq<string>, rows: seq<Row>, desk: Value)
    requires OfDesk(rows, desk)
    ensures Unique(key, true, rows) <==> Unique(key, false, rows)
  {
  }

  // A target naming the business key, with or without the desk, is the constraint.
  lemma TargetIsKey(db: Database, target: Option<seq<string>>)
    requires WellKeyed(db)
    ensures IsConstraint(ToSet(db.key) + {DESK}, Expanded(target)) <==>
      (target.Some? && target.value != [] ==> ToSet(target.value) + {DESK} == ToSet(db.key) + {DESK})
  {
    if target.Some? && target.value != [] {
      var cs := target.value;
      assert ToSet([DESK] + cs) == ToSet(cs) + {DESK};
      if i :| 0 <= i < |cs| && Mentions(cs[i]) {
        assert cs[i] in ToSet(cs);
        assert ReadsDesk(DESK, 0);
        if ToSet(cs) + {DESK} == ToSet(db.key) + {DESK} {
          assert cs[i] in ToSet(db.key) + {DESK};
          assert cs[i] == DESK;
          assert ToSet(cs) + {DESK} == ToSet(cs);
        }
      }
    }
  }

  // What comes back was selected from the desk's own rows, or written by it.
  lemma {:induction false} SelectedOfDesk(db: Database, params: Params, body: Row, own: Table, desk: Value)
    requires OfDesk(own, desk) && (DESK in body ==> body[DESK] == desk)
    ensures OfDesk(Select(db, params, own), desk) && OfDesk(Select2(db, params, body, own), desk)
  {
    if own != [] {
      var init := own[..|own|-1];
      assert forall i :: 0 <= i < |init| ==> init[i] == own[i];
      SelectedOfDesk(db, params, body, init, desk);
    }
  }

  lemma OwnOfDesk(t: Table, desk: Value)
    ensures OfDesk(Own(t, desk), desk)
  {
    OwnRows(t, desk);
    forall i | 0 <= i < |Own(t, desk)| ensures Get(Own(t, desk)[i], DESK) == desk {
      assert Own(t, desk)[i] in Own(t, desk);
    }
  }

  lemma {:induction false} InsertedOfDesk(key: seq<string>, own: Table, rows: seq<Row>, desk: Value)
    requires OfDesk(rows, desk) && OfDesk(own, desk)
    ensures OfDesk(InsertNew(key, false, own, rows).1, desk)
    ensures OfDesk(InsertMerged(key, false, own, rows).0, desk) && OfDesk(InsertMerged(key, false, own, rows).1, desk)
  {
    if rows != [] {
      var init, r := rows[..|rows|-1], rows[|rows|-1];
      assert forall i :: 0 <= i < |init| ==> init[i] == rows[i];
      InsertedOfDesk(key, own, init, desk);
      OverlaidOfDesk(key, InsertMerged(key, false, own, init).0, r, desk);
    }
  }

  lemma {:induction false} OverlaidOfDesk(key: seq<string>, own: Table, r: Row, desk: Value)
    requires OfDesk(own, desk) && Get(r, DESK) == desk
    ensures OfDesk(Overlaid(key, false, own, r), desk) && OfDesk(Hit(key, false, own, r), desk)
  {
    if own != [] {
      var init := own[..|own|-1];
      assert forall i :: 0 <= i < |init| ==> init[i] == own[i];
      OverlaidOfDesk(key, init, r, desk);
    }
  }

  // A call by one desk's store leaves the constraint in force and other desks' rows as
  // they were; on its own rows it does, and answers, what it would on a table of its own;
  // and it is shown no row of another desk.
  ghost predicate Isolated(db: Database, t: Table, desk: string, call: Call, e: Value) {
    var (t', out) := Do(db, t, desk, call);
    && Unique(db.key, true, t')
    && (Own(t', Text(desk)), out) == Alone(db, Own(t, Text(desk)), desk, call)
    && (e != Text(desk) ==> Own(t', e) == Own(t, e))
    && (out.Rows? ==> OfDesk(out.rows, Text(desk)))
  }

  lemma ReadIsolated(db: Database, t: Table, desk: string, filters: Filters, e: Value)
    requires ReadsEq(db) && Unique(db.key, true, t)
    ensures Isolated(db, t, desk, Fetch(filters), e)
  {
    SelectScoped(db, desk, filters, map[], t);
    OwnOfDesk(t, Text(desk));
    SelectedOfDesk(db, Bare(filters), map[], Own(t, Text(desk)), Text(desk));
  }

  lemma AddIsolated(db: Database, t: Table, desk: string, rows: seq<Row>, target: Option<seq<string>>,
                    resolution: Option<Resolution>, e: Value)
    requires WellKeyed(db) && Unique(db.key, true, t)
    ensures Isolated(db, t, desk, Add(rows, target, resolution), e)
  {
    hide InsertNew, InsertMerged, Unique, Own;
    if rows == [] {
      assert OfDesk([], Text(desk));
    } else {
      var stamped := Stamped(desk, rows);
      assert OfDesk(stamped, Text(desk));
      TargetIsKey(db, target);
      InsertIsolated(db.key, t, stamped, resolution, Text(desk), e);
      InsertIsolated(db.key, t, stamped, resolution, Text(desk), Text(desk));
      OwnOfDesk(t, Text(desk));
      InsertedOfDesk(db.key, Own(t, Text(desk)), stamped, Text(desk));
    }
  }

  lemma PatchIsolated(db: Database, t: Table, desk: string, filters: Filters, body: Row, e: Value)
    requires ReadsEq(db) && Unique(db.key, true, t)
    ensures Isolated(db, t, desk, Patch(filters, body), e)
  {
    hide Patched, Select2, Unique, Own;
    var b, u := body[DESK := Text(desk)], Patched(db, Scoped(desk, filters), body[DESK := Text(desk)], t);
    SelectScoped(db, desk, filters, b, t);
    forall v ensures Own(u, v) == if v == Text(desk) then Patched(db, Bare(filters), b, Own(t, v)) else Own(t, v) {
      PatchScoped(db, desk, filters, b, t, v);
    }
    UniqueAfter(db.key, t, u, Text(desk));
    OwnOfDesk(t, Text(desk));
    SelectedOfDesk(db, Bare(filters), b, Own(t, Text(desk)), Text(desk));
  }

  lemma {:induction false} DeleteUnique(db: Database, params: Params, t: Table)
    requires Unique(db.key, true, t)
    ensures Unique(db.key, true, Delete(db, params, t))
    ensures forall r :: r in Delete(db, params, t) ==> r in t
  {
    if t != [] {
      var init, r := t[..|t|-1], t[|t|-1];
      assert t == init + [r];
      UniqueSnoc(db.key, true, init, r);
      DeleteUnique(db, params, init);
      var d := Delete(db, params, init);
      forall i | 0 <= i < |d| ensures !Clash(db.key, true, d[i], r) {
        assert d[i] in init;
      }
      UniqueSnoc(db.key, true, d, r);
    }
  }

  lemma RemoveIsolated(db: Database, t: Table, desk: string, filters: Filters, e: Value)
    requires ReadsEq(db) && Unique(db.key, true, t)
    ensures Isolated(db, t, desk, Remove(filters), e)
  {
    hide Delete, Select, Unique, Own;
    SelectScoped(db, desk, filters, map[], t);
    DeleteScoped(db, desk, filters, t, e);
    DeleteScoped(db, desk, filters, t, Text(desk));
    DeleteUnique(db, Scoped(desk, filters), t);
    OwnOfDesk(t, Text(desk));
    SelectedOfDesk(db, Bare(filters), map[], Own(t, Text(desk)), Text(desk));
  }

  lemma CallIsolated(db: Database, t: Table, desk: string, call: Call, e: Value)
    requires ReadsEq(db) && WellKeyed(db) && Unique(db.key, true, t)
    ensures Isolated(db, t, desk, call, e)
  {
    hide Isolated;
    match call
    case Fetch(filters) => ReadIsolated(db, t, desk, filters, e);
    case Add(rows, target, resolution) => AddIsolated(db, t, desk, rows, target, resolution, e);
    case Patch(filters, body) => PatchIsolated(db, t, desk, filters, body, e);
    case Remove(filters) => RemoveIsolated(db, t, desk, filters, e);
  }

  // -------------------------------------------------------------------- whole runs

  // A request can be lost on its way there, or its answer on the way back.
  datatype Fate = Answered | NotDelivered | AnswerLost

  datatype Made = Made(desk: string, call: Call, fate: Fate)

  ghost function Outcome(t: Table, fate: Fate, result: (Table, Response)): (Table, Response) {
    match fate
    case Answered => result
    case NotDelivered => (t, Failed)
    case AnswerLost => (result.0, Failed)
  }

  // The table after a run, and what the store of `desk` was answered along the way.
  ghost function Run(db: Database, t: Table, calls: seq<Made>, desk: string): (Table, seq<Response>) {
    if calls == [] then (t, [])
    else
      var (u, answers) := Run(db, t, calls[..|calls|-1], desk);
      var m := calls[|calls|-1];
      var (v, out) := Outcome(u, m.fate, Do(db, u, m.desk, m.call));
      (v, if m.desk == desk then answers + [out] else answers)
  }

  ghost function RunAlone(db: Database, own: Table, calls: seq<Made>, desk: string): (Table, seq<Response>) {
    if calls == [] then (own, [])
    else
      var (u, answers) := RunAlone(db, own, calls[..|calls|-1], desk);
      var m := calls[|calls|-1];
      if m.desk != desk then (u, answers)
      else var (v, out) := Outcome(u, m.fate, Alone(db, u, desk, m.call)); (v, answers + [out])
  }

  // Whatever the other desks do, a desk's rows and its answers are those of a store that
  // has the table to itself.
  lemma {:induction false} DesksDoNotMeet(db: Database, t: Table, calls: seq<Made>, desk: string)
    requires ReadsEq(db) && WellKeyed(db) && Unique(db.key, true, t)
    ensures var (u, answers) := Run(db, t, calls, desk);
      Unique(db.key, true, u) && (Own(u, Text(desk)), answers) == RunAlone(db, Own(t, Text(desk)), calls, desk)
  {
    hide Do, Alone, Unique, Own;
    if calls != [] {
      var init, m := calls[..|calls|-1], calls[|calls|-1];
      DesksDoNotMeet(db, t, init, desk);
      var u := Run(db, t, init, desk).0;
      CallIsolated(db, u, m.desk, m.call, Text(desk));
    }
  }

  // ... and no answer in the run shows it a row of another desk.
  lemma {:induction false} AnswersAreOwn(db: Database, t: Table, calls: seq<Made>, desk: string)
    requires ReadsEq(db) && WellKeyed(db) && Unique(db.key, true, t)
    ensures forall i :: 0 <= i < |Run(db, t, calls, desk).1| && Run(db, t, calls, desk).1[i].Rows? ==>
      OfDesk(Run(db, t, calls, desk).1[i].rows, Text(desk))
  {
    hide Do, Alone, Unique, Own, OfDesk;
    if calls != [] {
      var init, m := calls[..|calls|-1], calls[|calls|-1];
      AnswersAreOwn(db, t, init, desk);
      DesksDoNotMeet(db, t, init, desk);
      CallIsolated(db, Run(db, t, init, desk).0, m.desk, m.call, Text(desk));
    }
  }
}
