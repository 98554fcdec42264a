/**
 What the requests of a desk's store do to the shared table, row by row: which rows are
 read, changed and deleted, and how a filter's value reaches the database.
 */
module TenantRequests {
  import opened TenantModel
  import opened TenantIsolation

  // -------------------------------------------------------------------- filter values

  // The string has a dot among its first twelve characters.
  ghost predicate CarriesOperator(v: Value) {
    v.Text? && exists i :: 0 <= i < |v.text| && i < 12 && v.text[i] == '.'
  }

  // Such a string goes as it is; anything else is a value to be equal to.
  lemma FilterTextIff(v: Value)
    ensures FilterText(v) == if CarriesOperator(v) then v.text else "eq." + Show(v)
  {
    if v.Text? {
      var n := if |v.text| < 12 then |v.text| else 12;
      if i :| 0 <= i < |v.text| && i < 12 && v.text[i] == '.' { assert v.text[..n][i] == '.'; }
      if '.' in v.text[..n] { var i :| 0 <= i < n && v.text[..n][i] == '.'; assert v.text[i] == '.'; }
    }
  }

  // Nothing is a value to be equal to as well, under its own name.
  lemma NothingIsNamed()
    ensures FilterText(Null) == "eq.None"
  {
  }

  function NumberOf(digits: string): nat {
    if digits == "" then 0
    else
      var c := digits[|digits|-1];
      NumberOf(digits[..|digits|-1]) * 10 + (if '0' <= c <= '9' then c as int - '0' as int else 0)
  }

  // The digits of a number read back as it.
  lemma {:induction false} DigitsReadBack(n: nat)
    ensures NumberOf(Digits(n)) == n && Digits(n) != "" && '.' !in Digits(n)
  {
    if n >= 10 {
      DigitsReadBack(n / 10);
      var d := Digits(n);
      assert d[..|d|-1] == Digits(n / 10);
    } else {
      assert Digits(n)[..0] == "";
    }
  }

  lemma {:induction false} OnlyDigits(n: nat, i: nat)
    requires i < |Digits(n)|
    ensures '0' <= Digits(n)[i] <= '9'
  {
    if n >= 10 && i < |Digits(n)| - 1 { OnlyDigits(n / 10, i); }
  }

  function IntegerOf(text: string): int {
    if text != "" && text[0] == '-' then 0 - NumberOf(text[1..]) else NumberOf(text)
  }

  // A number is sent so that it can be read back, whatever its sign.
  lemma NumbersReadBack(n: int)
    ensures IntegerOf(Show(Number(n))) == n && FilterText(Number(n)) == "eq." + Show(Number(n))
  {
    var size := if n < 0 then -n else n;
    DigitsReadBack(size);
    OnlyDigits(size, 0);
    if n < 0 {
      assert Show(Number(n))[1..] == Digits(size);
    }
  }

  ghost predicate DistinctColumns(filters: Filters) {
    forall i, j :: 0 <= i < j < |filters| ==> filters[i].0 != filters[j].0
  }

  // Every filter is sent, under its column.
  lemma {:induction false} TextsAre(filters: Filters)
    requires DistinctColumns(filters)
    ensures forall i :: 0 <= i < |filters| ==>
              filters[i].0 in Texts(filters) && Texts(filters)[filters[i].0] == FilterText(filters[i].1)
    ensures forall c :: c in Texts(filters) ==> exists i :: 0 <= i < |filters| && filters[i].0 == c
  {
    hide FilterText;
    if filters != [] {
      var n, init := |filters| - 1, filters[..|filters|-1];
      assert forall i :: 0 <= i < n ==> init[i] == filters[i];
      TextsAre(init);
      forall c | c in Texts(filters) ensures exists i :: 0 <= i < |filters| && filters[i].0 == c {
        if c == filters[n].0 {
        } else {
          assert c in Texts(init);
          var i :| 0 <= i < |init| && init[i].0 == c;
          assert filters[i].0 == c;
        }
      }
    }
  }

  // The row is the desk's own and every filter on another column holds of it.
  ghost predicate Fits(db: Database, desk: string, filters: Filters, r: Row) {
    && Get(r, DESK) == Text(desk)
    && forall i :: 0 <= i < |filters| && filters[i].0 != "desk_id" ==>
         db.op(filters[i].0, FilterText(filters[i].1), r)
  }

  lemma FitsIff(db: Database, desk: string, filters: Filters, r: Row)
    requires ReadsEq(db) && DistinctColumns(filters)
    ensures Matches(db, Scoped(desk, filters), r) <==> Fits(db, desk, filters, r)
  {
    hide FilterText;
    MatchesScoped(db, desk, filters, r);
    TextsAre(filters);
    var b := Bare(filters);
    if Fits(db, desk, filters, r) {
      forall c | c in b ensures db.op(c, b[c], r) {
        var i :| 0 <= i < |filters| && filters[i].0 == c;
      }
    }
    if Matches(db, Scoped(desk, filters), r) {
      forall i | 0 <= i < |filters| && filters[i].0 != "desk_id"
        ensures db.op(filters[i].0, FilterText(filters[i].1), r)
      {
        assert filters[i].0 in b && b[filters[i].0] == FilterText(filters[i].1);
      }
    }
  }

  // ------------------------------------------------------------------------ each call

  lemma {:induction false} SelectHas(db: Database, params: Params, t: Table, r: Row)
    ensures r in Select(db, params, t) <==> r in t && Matches(db, params, r)
  {
    if t != [] {
      SelectHas(db, params, t[..|t|-1], r);
      assert t == t[..|t|-1] + [t[|t|-1]];
    }
  }

  lemma {:induction false} DeleteHas(db: Database, params: Params, t: Table, r: Row)
    ensures r in Delete(db, params, t) <==> r in t && !Matches(db, params, r)
    ensures |Delete(db, params, t)| + |Select(db, params, t)| == |t|
  {
    if t != [] {
      DeleteHas(db, params, t[..|t|-1], r);
      assert t == t[..|t|-1] + [t[|t|-1]];
    }
  }

  lemma {:induction false} PatchedAt(db: Database, params: Params, body: Row, t: Table)
    ensures var u := Patched(db, params, body, t);
      |u| == |t| && forall i :: 0 <= i < |t| ==> u[i] == if Matches(db, params, t[i]) then t[i] + body else t[i]
  {
    if t != [] { PatchedAt(db, params, body, t[..|t|-1]); }
  }

  lemma {:induction false} ChangedHas(db: Database, params: Params, body: Row, t: Table, i: nat)
    requires i < |t| && Matches(db, params, t[i])
    ensures t[i] + body in Select2(db, params, body, t)
  {
    var n := |t| - 1;
    if i < n {
      ChangedHas(db, params, body, t[..n], i);
    } else {
      var rest := Select2(db, params, body, t[..n]);
      assert Select2(db, params, body, t)[|rest|] == t[i] + body;
    }
  }

  lemma {:induction false} ChangedFrom(db: Database, params: Params, body: Row, t: Table, r: Row) returns (i: nat)
    requires r in Select2(db, params, body, t)
    ensures i < |t| && Matches(db, params, t[i]) && r == t[i] + body
  {
    var n := |t| - 1;
    if r in Select2(db, params, body, t[..n]) { i := ChangedFrom(db, params, body, t[..n], r); } else { i := n; }
  }

  // A fetch reads exactly the desk's own rows that the filters hold of.
  lemma FetchReads(db: Database, t: Table, desk: string, filters: Filters, r: Row)
    requires ReadsEq(db) && DistinctColumns(filters)
    ensures var (after, answer) := Do(db, t, desk, Call.Fetch(filters));
      after == t && answer.Rows? && (r in answer.rows <==> r in t && Fits(db, desk, filters, r))
  {
    SelectHas(db, Scoped(desk, filters), t, r);
    FitsIff(db, desk, filters, r);
  }

  // A removal deletes exactly those, and answers with as many.
  lemma RemoveDeletes(db: Database, t: Table, desk: string, filters: Filters, r: Row)
    requires ReadsEq(db) && DistinctColumns(filters)
    ensures var (after, answer) := Do(db, t, desk, Call.Remove(filters));
      && (r in after <==> r in t && !Fits(db, desk, filters, r))
      && answer.Rows? && |answer.rows| == |t| - |after|
  {
    DeleteHas(db, Scoped(desk, filters), t, r);
    FitsIff(db, desk, filters, r);
  }

  // A patch writes its columns, and the desk, into exactly those, unless the constraint forbids
  // it; it answers with those rows as they became.
  lemma PatchWrites(db: Database, t: Table, desk: string, filters: Filters, body: Row)
    requires ReadsEq(db) && DistinctColumns(filters) && Do(db, t, desk, Call.Patch(filters, body)).1.Rows?
    ensures var (after, answer) := Do(db, t, desk, Call.Patch(filters, body));
      && |after| == |t|
      && (forall i :: 0 <= i < |t| ==>
            after[i] == if Fits(db, desk, filters, t[i]) then t[i] + body[DESK := Text(desk)] else t[i])
      && (forall i :: 0 <= i < |t| && Fits(db, desk, filters, t[i]) ==> after[i] in answer.rows)
      && (forall r :: r in answer.rows ==> exists i :: 0 <= i < |t| && Fits(db, desk, filters, t[i]) && r == after[i])
  {
    hide Fits;
    var params, b := Scoped(desk, filters), body[DESK := Text(desk)];
    PatchedAt(db, params, b, t);
    forall i | 0 <= i < |t| ensures Matches(db, params, t[i]) <==> Fits(db, desk, filters, t[i]) {
      FitsIff(db, desk, filters, t[i]);
    }
    var after := Patched(db, params, b, t);
    forall i | 0 <= i < |t| && Fits(db, desk, filters, t[i]) ensures after[i] in Select2(db, params, b, t) {
      ChangedHas(db, params, b, t, i);
    }
    forall r | r in Select2(db, params, b, t)
      ensures exists i :: 0 <= i < |t| && Fits(db, desk, filters, t[i]) && r == after[i]
    {
      var i := ChangedFrom(db, params, b, t, r);
      assert r == after[i];
    }
  }

  // A plain insert puts the rows after the others, each stamped with the desk, exactly if they
  // all have the same columns and no two rows would then clash; else it changes nothing.
  lemma AddInserts(db: Database, t: Table, desk: string, rows: seq<Row>, target: Option<seq<string>>)
    requires rows != []
    ensures var (after, answer) := Do(db, t, desk, Call.Add(rows, target, None));
      var stamped := seq(|rows|, i requires 0 <= i < |rows| => rows[i][DESK := Text(desk)]);
      if SameColumns(stamped) && Unique(db.key, true, t + stamped) then after == t + stamped && answer == Rows(stamped)
      else after == t && answer == Failed
  {
    var stamped := seq(|rows|, i requires 0 <= i < |rows| => rows[i][DESK := Text(desk)]);
    assert Stamped(desk, rows) == stamped;
  }

  // The row has a value in every column of the business key, and the stored one the same.
  ghost predicate Twin(key: seq<string>, desk: string, stored: Row, r: Row) {
    && Get(stored, "desk_id") == Text(desk)
    && forall c :: c in key && c != "desk_id" ==> c in stored && c in r && stored[c] == r[c] && r[c] != Null
  }

  lemma TwinClashes(key: seq<string>, desk: string, stored: Row, r: Row)
    ensures Clash(key, true, stored, r[DESK := Text(desk)]) <==> Twin(key, desk, stored, r)
  {
    var stamped := r[DESK := Text(desk)];
    forall c | c != DESK ensures Get(stamped, c) == Get(r, c) {}
    if Twin(key, desk, stored, r) {
      forall i | 0 <= i < |key| ensures Get(stored, key[i]) == Get(stamped, key[i]) && Get(stored, key[i]) != Null {
        assert key[i] in key;
      }
    }
    if Clash(key, true, stored, stamped) {
      forall c | c in key && c != DESK ensures c in stored && c in r && stored[c] == r[c] && r[c] != Null {
        var i :| 0 <= i < |key| && key[i] == c;
        assert Get(stored, key[i]) == Get(stamped, key[i]) && Get(stored, key[i]) != Null;
      }
    }
  }

  // One more row is refused exactly if the desk has a row with its business key; an empty key
  // column is never the same as another.
  lemma TwinRefused(db: Database, t: Table, desk: string, r: Row, target: Option<seq<string>>)
    requires Unique(db.key, true, t)
    ensures var (after, answer) := Do(db, t, desk, Call.Add([r], target, None));
      if exists i :: 0 <= i < |t| && Twin(db.key, desk, t[i], r)
      then after == t && answer == Failed
      else after == t + [r[DESK := Text(desk)]] && answer == Rows([r[DESK := Text(desk)]])
  {
    hide Twin, Clash;
    var stamped := r[DESK := Text(desk)];
    assert Stamped(desk, [r]) == [stamped];
    forall i | 0 <= i < |t| ensures Clash(db.key, true, t[i], stamped) <==> Twin(db.key, desk, t[i], r) {
      TwinClashes(db.key, desk, t[i], r);
    }
    var u := t + [stamped];
    if i :| 0 <= i < |t| && Twin(db.key, desk, t[i], r) { assert Clash(db.key, true, u[i], u[|t|]); }
    if forall i :: 0 <= i < |t| ==> !Twin(db.key, desk, t[i], r) {
      forall i, j | 0 <= i < j < |u| ensures !Clash(db.key, true, u[i], u[j]) {
        assert u[i] == t[i] && (j < |t| ==> u[j] == t[j]);
      }
    }
  }

  // An insert that skips what is there adds rows of the payload, in their order and without a
  // clash; each row that it leaves out clashes with one that is in the table.
  lemma {:induction false} SkippedIff(key: seq<string>, byDesk: bool, t: Table, rows: seq<Row>)
    requires Unique(key, byDesk, t)
    ensures var (after, added) := InsertNew(key, byDesk, t, rows);
      && after == t + added && Unique(key, byDesk, after)
      && (forall i :: 0 <= i < |rows| ==> rows[i] in added || !Free(key, byDesk, after, rows[i]))
      && (forall i :: 0 <= i < |rows| && Free(key, byDesk, t + rows[..i], rows[i]) ==> rows[i] in added)
      && (forall r :: r in added ==> r in rows)
  {
    hide Clash;
    if |rows| != 0 {
      var n, r := |rows| - 1, rows[|rows|-1];
      SkippedIff(key, byDesk, t, rows[..n]);
      var (u, news) := InsertNew(key, byDesk, t, rows[..n]);
      var (after, added) := InsertNew(key, byDesk, t, rows);
      assert rows == rows[..n] + [r];
      forall i | 0 <= i < n ensures rows[..n][i] == rows[i] && t + rows[..n][..i] == t + rows[..i] {}
      StillClashing(key, byDesk, u, after, rows, n);
      if Free(key, byDesk, t + rows[..n], r) { FreeOfFewer(key, byDesk, t, rows[..n], news, r); }
    }
  }

  lemma StillClashing(key: seq<string>, byDesk: bool, u: Table, after: Table, rows: seq<Row>, n: nat)
    requires n <= |rows| && |u| <= |after| && after[..|u|] == u
    ensures forall i :: 0 <= i < n && !Free(key, byDesk, u, rows[i]) ==> !Free(key, byDesk, after, rows[i])
  {
    hide Clash;
    forall i | 0 <= i < n && !Free(key, byDesk, u, rows[i]) ensures !Free(key, byDesk, after, rows[i]) {
      var k :| 0 <= k < |u| && Clash(key, byDesk, u[k], rows[i]);
      assert after[..|u|][k] == after[k];
    }
  }

  lemma FreeOfFewer(key: seq<string>, byDesk: bool, t: Table, rows: seq<Row>, news: seq<Row>, r: Row)
    requires Free(key, byDesk, t + rows, r) && forall x :: x in news ==> x in rows
    ensures Free(key, byDesk, t + news, r)
  {
    hide Clash;
    var v, w := t + rows, t + news;
    forall k | 0 <= k < |w| ensures !Clash(key, byDesk, w[k], r) {
      if k < |t| {
        assert w[k] == v[k];
      } else {
        assert w[k] in news;
        var j :| 0 <= j < |rows| && rows[j] == w[k];
        assert v[|t| + j] == w[k];
      }
    }
  }

  // Table `u` begins with table `t`, each row of the payload laid over the row it clashes with,
  ghost predicate LaidOver(key: seq<string>, byDesk: bool, t: Table, rows: seq<Row>, u: Table) {
    && |u| >= |t|
    && (forall i, k :: 0 <= i < |t| && 0 <= k < |rows| && Clash(key, byDesk, t[i], rows[k]) ==> u[i] == t[i] + rows[k])
    && (forall i :: 0 <= i < |t| && Free(key, byDesk, rows, t[i]) ==> u[i] == t[i])
  }

  // ... and after it has the rows of the payload that clash with none.
  ghost predicate PutAtEnd(key: seq<string>, byDesk: bool, t: Table, rows: seq<Row>, u: Table) {
    && |u| >= |t|
    && (forall k :: 0 <= k < |rows| && Free(key, byDesk, t, rows[k]) ==> rows[k] in u[|t|..])
    && (forall i :: |t| <= i < |u| ==> u[i] in rows && Free(key, byDesk, t, u[i]))
  }

  ghost predicate Merged(key: seq<string>, byDesk: bool, t: Table, rows: seq<Row>, u: Table) {
    LaidOver(key, byDesk, t, rows, u) && PutAtEnd(key, byDesk, t, rows, u)
  }

  // That is what merging makes of the table, if no two rows of the payload clash.
  lemma {:induction false} MergedIff(key: seq<string>, byDesk: bool, t: Table, rows: seq<Row>)
    requires Unique(key, byDesk, rows)
    ensures Merged(key, byDesk, t, rows, InsertMerged(key, byDesk, t, rows).0)
  {
    hide Merged, Clash, Free, Overlaid, Hit;
    if |rows| == 0 {
      NothingMerged(key, byDesk, t, rows);
    } else {
      var n := |rows| - 1;
      assert forall i, j :: 0 <= i < j < n ==> rows[..n][i] == rows[i] && rows[..n][j] == rows[j];
      MergedIff(key, byDesk, t, rows[..n]);
      assert rows == rows[..n] + [rows[n]];
      OneMoreMerged(key, byDesk, t, rows[..n], InsertMerged(key, byDesk, t, rows[..n]).0, rows[n]);
    }
  }

  lemma NothingMerged(key: seq<string>, byDesk: bool, t: Table, rows: seq<Row>)
    requires |rows| == 0
    ensures Merged(key, byDesk, t, rows, t)
  {
  }

  // The next row clashes with the rows as they were, and with none laid over or added before it.
  lemma NextClashes(key: seq<string>, byDesk: bool, t: Table, rows: seq<Row>, u: Table, r: Row)
    requires Merged(key, byDesk, t, rows, u) && Unique(key, byDesk, rows + [r])
    ensures forall i :: 0 <= i < |t| ==> (Clash(key, byDesk, u[i], r) <==> Clash(key, byDesk, t[i], r))
    ensures forall i :: 0 <= i < |t| && Clash(key, byDesk, t[i], r) ==> u[i] == t[i]
    ensures forall i :: |t| <= i < |u| ==> !Clash(key, byDesk, u[i], r)
  {
    hide Clash;
    var more := rows + [r];
    forall k | 0 <= k < |rows| ensures !Clash(key, byDesk, rows[k], r) {
      assert more[k] == rows[k] && more[|rows|] == r;
    }
    forall i | 0 <= i < |t|
      ensures Clash(key, byDesk, u[i], r) <==> Clash(key, byDesk, t[i], r)
      ensures Clash(key, byDesk, t[i], r) ==> u[i] == t[i]
    {
      if k :| 0 <= k < |rows| && Clash(key, byDesk, t[i], rows[k]) {
        OverlaidKey(key, byDesk, t[i], rows[k], r);
      } else {
        forall k | 0 <= k < |rows| ensures !Clash(key, byDesk, rows[k], t[i]) {
          ClashBothWays(key, byDesk, rows[k], t[i]);
        }
        assert Free(key, byDesk, rows, t[i]);
      }
    }
  }

  lemma ClashBothWays(key: seq<string>, byDesk: bool, a: Row, b: Row)
    ensures Clash(key, byDesk, a, b) <==> Clash(key, byDesk, b, a)
  {
  }

  // What the next row does to the table as far as it came.
  ghost predicate NextRow(key: seq<string>, byDesk: bool, t: Table, u: Table, r: Row, v: Table) {
    && |v| >= |u| >= |t|
    && (forall i :: 0 <= i < |t| ==> v[i] == if Clash(key, byDesk, t[i], r) then t[i] + r else u[i])
    && (forall i :: |t| <= i < |u| ==> v[i] == u[i])
    && v[|u|..] == if Free(key, byDesk, t, r) then [r] else []
  }

  lemma NextRowIs(key: seq<string>, byDesk: bool, t: Table, rows: seq<Row>, u: Table, r: Row)
    requires Merged(key, byDesk, t, rows, u) && Unique(key, byDesk, rows + [r])
    ensures NextRow(key, byDesk, t, u, r, if Free(key, byDesk, u, r) then u + [r] else Overlaid(key, byDesk, u, r))
  {
    hide Clash, Overlaid;
    NextClashes(key, byDesk, t, rows, u, r);
    OverlaidAt(key, byDesk, u, r);
  }

  lemma OneMoreMerged(key: seq<string>, byDesk: bool, t: Table, rows: seq<Row>, u: Table, r: Row)
    requires Merged(key, byDesk, t, rows, u) && Unique(key, byDesk, rows + [r])
    ensures Merged(key, byDesk, t, rows + [r], if Free(key, byDesk, u, r) then u + [r] else Overlaid(key, byDesk, u, r))
  {
    hide Clash, LaidOver, PutAtEnd, Unique, NextRow, Free, Overlaid;
    var v := if Free(key, byDesk, u, r) then u + [r] else Overlaid(key, byDesk, u, r);
    NextRowIs(key, byDesk, t, rows, u, r);
    MergedFirst(key, byDesk, t, rows, u, r, v);
    MergedLast(key, byDesk, t, rows, u, r, v);
  }

  lemma MergedFirst(key: seq<string>, byDesk: bool, t: Table, rows: seq<Row>, u: Table, r: Row, v: Table)
    requires Merged(key, byDesk, t, rows, u) && Unique(key, byDesk, rows + [r]) && NextRow(key, byDesk, t, u, r, v)
    ensures LaidOver(key, byDesk, t, rows + [r], v)
  {
    hide Clash, Unique;
    var more := rows + [r];
    assert more[|rows|] == r && forall k :: 0 <= k < |rows| ==> more[k] == rows[k];
    forall i | 0 <= i < |t| && Free(key, byDesk, more, t[i]) ensures v[i] == t[i] {
      forall k | 0 <= k < |rows| ensures !Clash(key, byDesk, rows[k], t[i]) {
        assert !Clash(key, byDesk, more[k], t[i]);
      }
      assert !Clash(key, byDesk, more[|rows|], t[i]);
      ClashBothWays(key, byDesk, r, t[i]);
      assert Free(key, byDesk, rows, t[i]);
    }
    forall i, k | 0 <= i < |t| && 0 <= k < |more| && Clash(key, byDesk, t[i], more[k]) ensures v[i] == t[i] + more[k] {
      if k < |rows| { LaidOverOnce(key, byDesk, t[i], rows, r, k); }
    }
  }

  lemma MergedLast(key: seq<string>, byDesk: bool, t: Table, rows: seq<Row>, u: Table, r: Row, v: Table)
    requires Merged(key, byDesk, t, rows, u) && NextRow(key, byDesk, t, u, r, v)
    ensures PutAtEnd(key, byDesk, t, rows + [r], v)
  {
    hide Clash, Free;
    var more := rows + [r];
    assert v[|t|..] == u[|t|..] + v[|u|..];
    forall i | |t| <= i < |v| ensures v[i] in more && Free(key, byDesk, t, v[i]) {
      if i < |u| { assert u[i] in rows; } else { assert v[i] == v[|u|..][i-|u|]; }
    }
  }

  // No row clashes with two of the payload.
  lemma LaidOverOnce(key: seq<string>, byDesk: bool, a: Row, rows: seq<Row>, r: Row, k: nat)
    requires k < |rows| && Unique(key, byDesk, rows + [r]) && Clash(key, byDesk, a, rows[k])
    ensures !Clash(key, byDesk, a, r)
  {
    hide Clash;
    OverlaidKey(key, byDesk, a, rows[k], r);
    var more := rows + [r];
    assert !Clash(key, byDesk, more[k], more[|rows|]);
  }

  lemma {:induction false} OverlaidAt(key: seq<string>, byDesk: bool, t: Table, r: Row)
    ensures var u := Overlaid(key, byDesk, t, r);
      |u| == |t| && forall i :: 0 <= i < |t| ==> u[i] == if Clash(key, byDesk, t[i], r) then t[i] + r else t[i]
  {
    if t != [] { OverlaidAt(key, byDesk, t[..|t|-1], r); }
  }

  // A row keeps its key when another of that key is laid over it.
  lemma OverlaidKey(key: seq<string>, byDesk: bool, a: Row, b: Row, r: Row)
    requires Clash(key, byDesk, a, b)
    ensures Clash(key, byDesk, a + b, r) <==> Clash(key, byDesk, a, r)
    ensures Clash(key, byDesk, a, r) <==> Clash(key, byDesk, b, r)
  {
    forall c | c in key || (byDesk && c == DESK) ensures Get(a + b, c) == Get(a, c) {
      if c in key {
        var i :| 0 <= i < |key| && key[i] == c;
        assert Get(a, key[i]) == Get(b, key[i]);
      }
    }
    forall i | 0 <= i < |key| ensures Get(a, key[i]) == Get(b, key[i]) {}
  }

  // The database takes the payload with a resolution: its rows have the same columns, and the
  // target, as it is sent, is the constraint.
  ghost predicate Resolvable(db: Database, desk: string, rows: seq<Row>, target: Option<seq<string>>) {
    rows != [] && SameColumns(Stamped(desk, rows)) && IsConstraint(ToSet(db.key) + {DESK}, Expanded(target))
  }

  // So an add that skips duplicates answers with what it added, and each row it left out is in
  // the table under its key; ...
  lemma AddSkips(db: Database, t: Table, desk: string, rows: seq<Row>, target: Option<seq<string>>)
    requires Unique(db.key, true, t) && Resolvable(db, desk, rows, target)
    ensures var (after, answer) := Do(db, t, desk, Call.Add(rows, target, Some(IgnoreDuplicates)));
      var sent := Stamped(desk, rows);
      && answer.Rows? && after == t + answer.rows && Unique(db.key, true, after)
      && (forall i :: 0 <= i < |rows| ==> sent[i] in answer.rows || !Free(db.key, true, after, sent[i]))
      && (forall i :: 0 <= i < |rows| && Free(db.key, true, t + sent[..i], sent[i]) ==> sent[i] in answer.rows)
      && (forall r :: r in answer.rows ==> r in sent)
  {
    hide InsertNew, Free, Unique, SameColumns;
    SkippedIff(db.key, true, t, Stamped(desk, rows));
  }

  // ... one that merges them leaves no row of the payload out, unless two of them clash, and then
  // nothing is written.
  lemma AddMerges(db: Database, t: Table, desk: string, rows: seq<Row>, target: Option<seq<string>>)
    requires Resolvable(db, desk, rows, target)
    ensures var (after, answer) := Do(db, t, desk, Call.Add(rows, target, Some(MergeDuplicates)));
      if Unique(db.key, true, Stamped(desk, rows))
      then answer.Rows? && Merged(db.key, true, t, Stamped(desk, rows), after)
      else answer == Failed && after == t
  {
    hide InsertMerged, Merged, Unique, SameColumns;
    if Unique(db.key, true, Stamped(desk, rows)) { MergedIff(db.key, true, t, Stamped(desk, rows)); }
  }
}
