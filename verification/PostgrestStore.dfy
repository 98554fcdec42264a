/**
 The store object of one desk and the requests it makes of the shared table.
 */
module PostgrestStore {
  import opened TenantModel
  import opened TenantIsolation
  import opened Strings

  // The table behind the service, and the service.
  class SharedTable {
    const db: Database
    var rows: Table

    constructor (db: Database)
      ensures this.db == db && rows == []
    {
      this.db := db;
      rows := [];
    }

    method Serve(req: Request, fate: Fate) returns (r: Response)
      modifies this
      ensures (rows, r) == Outcome(old(rows), fate, Handle(db, old(rows), req))
    {
      if fate == NotDelivered {
        return Failed;
      }
      var (after, answer) := Handle(db, rows, req);
      rows := after;
      r := if fate == AnswerLost then Failed else answer;
    }
  }

  class Store {
    const desk: string
    const shared: SharedTable

    constructor (desk: string, shared: SharedTable)
      ensures this.desk == Strip(desk) && this.shared == shared
    {
      this.desk := Strip(desk);
      this.shared := shared;
    }

    // A store is refused without an address, a key and a desk with a name.
    static method Open(url: string, key: string, desk: string, shared: SharedTable) returns (store: Store?)
      ensures store == null <==> url == "" || key == "" || Strip(desk) == ""
      ensures store != null ==> fresh(store) && store.desk == Strip(desk) && store.shared == shared
    {
      if url == "" || key == "" || Strip(desk) == "" {
        return null;
      }
      store := new Store(desk, shared);
    }

    method ScopedParams(filters: Filters) returns (params: Params)
      ensures params == Scoped(desk, filters)
    {
      params := map[];
      for i := 0 to |filters|
        invariant params == Texts(filters[..i])
      {
        assert filters[..i+1][..i] == filters[..i];
        var (column, value) := filters[i];
        params := params[column := FilterText(value)];
      }
      assert filters[..|filters|] == filters;
      params := params[DESK := "eq." + desk];
    }

    method Fetch(filters: Filters, fate: Fate) returns (r: Response)
      modifies shared
      ensures (shared.rows, r) == Outcome(old(shared.rows), fate,
          Do(shared.db, old(shared.rows), desk, Call.Fetch(filters)))
      ensures shared.rows == old(shared.rows)
    {
      var params := ScopedParams(filters);
      r := shared.Serve(GET(params), fate);
    }

    // Without `returning`, success is an empty list.
    method Add(rows: seq<Row>, returning: bool, onConflict: Option<seq<string>>, resolution: Option<Resolution>,
        fate: Fate)
      returns (r: Response)
      modifies shared
      ensures rows == [] ==> shared.rows == old(shared.rows) && r == Rows([])
      ensures rows != [] ==>
        var (after, answer) := Outcome(old(shared.rows), fate,
                                       Do(shared.db, old(shared.rows), desk, Call.Add(rows, onConflict, resolution)));
        shared.rows == after && r == if returning || answer.Failed? then answer else Rows([])
    {
      if rows == [] {
        return Rows([]);
      }
      var payload := [];
      for i := 0 to |rows|
        invariant payload == Stamped(desk, rows[..i])
      {
        assert rows[..i+1][..i] == rows[..i];
        payload := payload + [rows[i][DESK := Text(desk)]];
      }
      assert rows[..|rows|] == rows;
      r := shared.Serve(POST(payload, Expanded(onConflict), resolution), fate);
      if r.Rows? && !returning {
        r := Rows([]);
      }
    }

    // The rows that changed.
    method Patch(filters: Filters, patch: Row, fate: Fate) returns (r: Response)
      modifies shared
      ensures (shared.rows, r) == Outcome(old(shared.rows), fate,
          Do(shared.db, old(shared.rows), desk, Call.Patch(filters, patch)))
    {
      var params := ScopedParams(filters);
      r := shared.Serve(PATCH(params, patch[DESK := Text(desk)]), fate);
    }

    method Count(filters: Filters, fate: Fate) returns (n: Option<nat>)
      modifies shared
      ensures shared.rows == old(shared.rows)
      ensures n == if fate != Answered then None
                   else Some(|Select(shared.db, Scoped(desk, filters), old(shared.rows))|)
    {
      var params := ScopedParams(filters);
      var r := shared.Serve(GET(params), fate);
      n := if r.Rows? then Some(|r.rows|) else None;
    }

    method Remove(filters: Filters, fate: Fate) returns (n: Option<nat>)
      modifies shared
      ensures var (after, answer) := Outcome(old(shared.rows), fate,
          Do(shared.db, old(shared.rows), desk, Call.Remove(filters)));
        shared.rows == after && n == if answer.Rows? then Some(|answer.rows|) else None
    {
      var params := ScopedParams(filters);
      var r := shared.Serve(DELETE(params), fate);
      n := if r.Rows? then Some(|r.rows|) else None;
    }
  }

  // What a count answers is the number of the desk's own rows that match.
  lemma CountsOwn(db: Database, t: Table, desk: string, filters: Filters)
    requires ReadsEq(db)
    ensures |Select(db, Scoped(desk, filters), t)| == |Select(db, Bare(filters), Own(t, Text(desk)))|
  {
    SelectScoped(db, desk, filters, map[], t);
  }

  // ------------------------------------------------------------ compare and swap

  // The body moves the row out of the reach of one of the filters.
  ghost predicate Spends(db: Database, params: Params, body: Row, column: string) {
    column in params && column in body
    && forall r: Row :: column in r && r[column] == body[column] ==> !db.op(column, params[column], r)
  }

  lemma {:induction false} PatchedOut(db: Database, params: Params, body: Row, again: Row, column: string, t: Table)
    requires Spends(db, params, body, column)
    ensures Select2(db, params, again, Patched(db, params, body, t)) == []
    ensures Patched(db, params, again, Patched(db, params, body, t)) == Patched(db, params, body, t)
  {
    if t != [] {
      PatchedOut(db, params, body, again, column, t[..|t|-1]);
      var p := Patched(db, params, body, t);
      assert p[..|p|-1] == Patched(db, params, body, t[..|t|-1]);
      var r := t[|t|-1] + body;
      assert r[column] == body[column];
    }
  }

  // Of all the patches that filter on one version and replace it, one succeeds: whoever
  // comes second with that version finds no row, and changes none.
  lemma SwapsOnce(db: Database, t: Table, desk: string, filters: Filters, body: Row, again: Row, column: string)
    requires Spends(db, Scoped(desk, filters), body[DESK := Text(desk)], column)
    requires Unique(db.key, true, t) && Do(db, t, desk, Call.Patch(filters, body)).1.Rows?
    ensures var u := Do(db, t, desk, Call.Patch(filters, body)).0;
      Do(db, u, desk, Call.Patch(filters, again)) == (u, Rows([]))
  {
    PatchedOut(db, Scoped(desk, filters), body[DESK := Text(desk)], again[DESK := Text(desk)], column, t);
  }
}
