/**
 The row interface over SQLite: the filter grammar it translates, and the patch that
 updates by one filter and, taking the lock anew, reads back by another.
 */
module SqliteRows {
  import opened TenantModel

  datatype Clause = IsNull | NotNull | Compare(op: string, param: Value)

  const OPERATORS: set<string> := {"eq", "neq", "gt", "gte", "lt", "lte"}

  function FirstDot(s: string): nat
    requires '.' in s
    ensures FirstDot(s) < |s| && s[FirstDot(s)] == '.' && '.' !in s[..FirstDot(s)]
  {
    if s[0] == '.' then 0
    else
      assert s == [s[0]] + s[1..];
      var k := FirstDot(s[1..]);
      assert s[..k+1] == [s[0]] + s[1..][..k];
      1 + k
  }

  // A string that is not an operator with its operand is a value to be equal to.
  function ClauseOf(raw: Value): Clause {
    if raw.Text? && '.' in raw.text then
      var k := FirstDot(raw.text);
      var op, operand := raw.text[..k], raw.text[k+1..];
      if op == "is" && operand == "null" then IsNull
      else if op == "is" && operand == "notnull" then NotNull
      else if op in OPERATORS then Compare(op, Text(operand))
      else Compare("eq", raw)
    else Compare("eq", raw)
  }

  // What a filter's value means: a null test, a comparison with what follows the first dot, or,
  // without a dot or with another word before it, equality with the value itself.
  lemma ClauseReads(op: string, operand: string)
    requires '.' !in op
    ensures var clause := ClauseOf(Text(op + "." + operand));
      if op == "is" && operand == "null" then clause == IsNull
      else if op == "is" && operand == "notnull" then clause == NotNull
      else if op in {"eq", "neq", "gt", "gte", "lt", "lte"} then clause == Compare(op, Text(operand))
      else clause == Compare("eq", Text(op + "." + operand))
  {
    var s := op + "." + operand;
    assert s[|op|] == '.';
    FirstDotIs(s, |op|);
    assert s[..|op|] == op && s[|op|+1..] == operand;
  }

  lemma FirstDotIs(s: string, k: nat)
    requires k < |s| && s[k] == '.' && '.' !in s[..k]
    ensures '.' in s && FirstDot(s) == k
  {
    NoDotBefore(s, k);
    NoDotBefore(s, FirstDot(s));
  }

  lemma NoDotBefore(s: string, k: nat)
    requires k <= |s| && '.' !in s[..k]
    ensures forall i :: 0 <= i < k ==> s[i] != '.'
  {
    forall i | 0 <= i < k ensures s[i] != '.' { assert s[..k][i] in s[..k]; }
  }

  lemma PlainClause(v: Value)
    requires v.Text? ==> '.' !in v.text
    ensures ClauseOf(v) == Compare("eq", v)
  {
  }

  // What the engine decides: whether a comparison of a column's cell with a parameter holds,
  // and what a value becomes when it is stored in a column.  Both may depend on the column's
  // declared type.
  datatype Engine = Engine(holds: (string, string, Value, Value) -> bool, store: (string, Value) -> Value)

  predicate Meets(e: Engine, column: string, cell: Value, clause: Clause) {
    match clause
    case IsNull => cell == Null
    case NotNull => cell != Null
    // a comparison with null is never true
    case Compare(op, param) => cell != Null && param != Null && e.holds(op, column, cell, param)
  }

  type Filter = map<string, Value>

  // Which rows a filter on one column lets through: the null tests look at the cell alone, and a
  // comparison is the engine's, but never true of an empty cell.
  lemma FilterReads(e: Engine, column: string, op: string, operand: string, r: Row)
    requires '.' !in op
    ensures var cell := if column in r then r[column] else Null;
      Matches(e, map[column := Text(op + "." + operand)], r) <==>
        if op == "is" && operand == "null" then cell == Null
        else if op == "is" && operand == "notnull" then cell != Null
        else if op in {"eq", "neq", "gt", "gte", "lt", "lte"}
        then cell != Null && e.holds(op, column, cell, Text(operand))
        else cell != Null && e.holds("eq", column, cell, Text(op + "." + operand))
  {
    hide ClauseOf;
    ClauseReads(op, operand);
    var f := map[column := Text(op + "." + operand)];
    assert Matches(e, f, r) <==> Meets(e, column, Get(r, column), ClauseOf(f[column]));
  }

  predicate Matches(e: Engine, filter: Filter, r: Row) {
    forall c :: c in filter ==> Meets(e, c, Get(r, c), ClauseOf(filter[c]))
  }

  function Fetched(e: Engine, filter: Filter, t: Table): Table {
    if t == [] then []
    else
      var rest, r := Fetched(e, filter, t[..|t|-1]), t[|t|-1];
      if Matches(e, filter, r) then rest + [r] else rest
  }

  // The patch as the columns keep it.
  function Stored(e: Engine, patch: Row): Row {
    map c | c in patch :: e.store(c, patch[c])
  }

  // A row after the patch.
  function Patched(e: Engine, patch: Row, r: Row): Row { r + Stored(e, patch) }

  function Updated(e: Engine, filter: Filter, patch: Row, t: Table): Table {
    if t == [] then []
    else
      var r := t[|t|-1];
      Updated(e, filter, patch, t[..|t|-1]) + [if Matches(e, filter, r) then Patched(e, patch, r) else r]
  }

  // The rows the update changed, as it left them.
  function Changed(e: Engine, filter: Filter, patch: Row, t: Table): Table {
    if t == [] then []
    else
      var rest, r := Changed(e, filter, patch, t[..|t|-1]), t[|t|-1];
      if Matches(e, filter, r) then rest + [Patched(e, patch, r)] else rest
  }

  // The filter with the patched columns moved to their new values.
  function After(filter: Filter, patch: Row): Filter {
    map c | c in filter :: if c in patch then patch[c] else filter[c]
  }

  // What a patch of table `t` answers, if the table is `u` when it reads back.
  function ReadBack(e: Engine, filter: Filter, patch: Row, t: Table, u: Table): Table {
    if Fetched(e, filter, t) == [] then [] else Fetched(e, After(filter, patch), u)
  }

  // ... if no one else writes in between.
  function Answer(e: Engine, filter: Filter, patch: Row, t: Table): Table {
    ReadBack(e, filter, patch, t, Updated(e, filter, patch, t))
  }

  class Rows {
    const engine: Engine
    var rows: Table

    constructor (engine: Engine)
      ensures this.engine == engine && rows == []
    {
      this.engine := engine;
      rows := [];
    }

    // `Update` reports how many rows it hit; the answer is read back once the lock has been
    // taken again, after whatever `others` wrote in between.
    method Patch(filter: Filter, patch: Row, others: Table -> Table) returns (answer: Table)
      modifies this
      ensures Fetched(engine, filter, old(rows)) == [] ==> rows == old(rows)
      ensures Fetched(engine, filter, old(rows)) != [] ==> rows == others(Updated(engine, filter, patch, old(rows)))
      ensures answer == ReadBack(engine, filter, patch, old(rows), rows)
    {
      var hit := Update(filter, patch);
      ChangedCount(engine, filter, patch, old(rows));
      if hit == 0 {
        UnmatchedStay(engine, filter, patch, old(rows));
        return [];
      }
      rows := others(rows);
      answer := Fetched(engine, After(filter, patch), rows);
    }

    method Update(filter: Filter, patch: Row) returns (hit: nat)
      modifies this
      ensures rows == Updated(engine, filter, patch, old(rows))
      ensures hit == |Changed(engine, filter, patch, old(rows))|
    {
      hit := |Changed(engine, filter, patch, rows)|;
      rows := Updated(engine, filter, patch, rows);
    }
  }

  lemma {:induction false} ChangedCount(e: Engine, filter: Filter, patch: Row, t: Table)
    ensures Changed(e, filter, patch, t) == [] <==> Fetched(e, filter, t) == []
    ensures |Changed(e, filter, patch, t)| == |Fetched(e, filter, t)|
  {
    if t != [] { ChangedCount(e, filter, patch, t[..|t|-1]); }
  }

  lemma {:induction false} UnmatchedStay(e: Engine, filter: Filter, patch: Row, t: Table)
    requires Changed(e, filter, patch, t) == []
    ensures Updated(e, filter, patch, t) == t
  {
    hide Matches, Patched;
    if t != [] { UnmatchedStay(e, filter, patch, t[..|t|-1]); }
  }

  // ------------------------------------------------------------ when it finds its rows

  // Each filtered column that the patch sets is found, as it is stored, by the value sent.
  ghost predicate FindsItself(e: Engine, filter: Filter, patch: Row) {
    forall c :: c in filter && c in patch ==> Meets(e, c, e.store(c, patch[c]), ClauseOf(patch[c]))
  }

  // A fetch by the moved filter just before the patch gives no row that the patch leaves alone.
  ghost predicate NoLookalike(e: Engine, filter: Filter, patch: Row, t: Table) {
    forall r :: r in Fetched(e, After(filter, patch), t) ==> Matches(e, filter, r)
  }

  // One changed row is found again exactly if every changed row is.
  lemma FoundIff(e: Engine, filter: Filter, patch: Row, r: Row)
    requires Matches(e, filter, r)
    ensures Matches(e, After(filter, patch), Patched(e, patch, r)) <==> FindsItself(e, filter, patch)
  {
    var r' := Patched(e, patch, r);
    forall c | c in filter
      ensures Meets(e, c, Get(r', c), ClauseOf(After(filter, patch)[c]))
         <==> (c in patch ==> Meets(e, c, e.store(c, patch[c]), ClauseOf(patch[c])))
    {
      if c !in patch { assert Get(r', c) == Get(r, c) && Meets(e, c, Get(r, c), ClauseOf(filter[c])); }
    }
    assert After(filter, patch).Keys == filter.Keys;
  }

  lemma {:induction false} FetchedHas(e: Engine, filter: Filter, t: Table, r: Row)
    ensures r in Fetched(e, filter, t) <==> r in t && Matches(e, filter, r)
  {
    if t != [] {
      FetchedHas(e, filter, t[..|t|-1], r);
      assert t == t[..|t|-1] + [t[|t|-1]];
    }
  }

  lemma {:induction false} ChangedHas(e: Engine, filter: Filter, patch: Row, t: Table, i: nat)
    requires i < |t| && Matches(e, filter, t[i])
    ensures Patched(e, patch, t[i]) in Changed(e, filter, patch, t)
  {
    if i < |t| - 1 {
      ChangedHas(e, filter, patch, t[..|t|-1], i);
    } else {
      var rest := Changed(e, filter, patch, t[..|t|-1]);
      assert (rest + [Patched(e, patch, t[i])])[|rest|] == Patched(e, patch, t[i]);
    }
  }

  function Lookalikes(e: Engine, filter: Filter, patch: Row, t: Table): nat {
    if t == [] then 0
    else
      var r := t[|t|-1];
      Lookalikes(e, filter, patch, t[..|t|-1])
      + (if !Matches(e, filter, r) && Matches(e, After(filter, patch), r) then 1 else 0)
  }

  lemma {:induction false} NoLookalikes(e: Engine, filter: Filter, patch: Row, t: Table)
    ensures Lookalikes(e, filter, patch, t) == 0 <==> NoLookalike(e, filter, patch, t)
  {
    hide Matches, After;
    if t != [] {
      var init, r := t[..|t|-1], t[|t|-1];
      NoLookalikes(e, filter, patch, init);
      var all, some := Fetched(e, After(filter, patch), t), Fetched(e, After(filter, patch), init);
      assert all == if Matches(e, After(filter, patch), r) then some + [r] else some;
      if Matches(e, After(filter, patch), r) { assert all[|some|] == r; }
    }
  }

  lemma UpdatedSnoc(e: Engine, filter: Filter, patch: Row, t: Table)
    requires |t| > 0
    ensures var n, r := |t| - 1, t[|t|-1];
      Updated(e, filter, patch, t)
        == Updated(e, filter, patch, t[..n]) + [if Matches(e, filter, r) then Patched(e, patch, r) else r]
  {
  }

  lemma FetchedSnoc(e: Engine, filter: Filter, t: Table, r: Row)
    ensures Fetched(e, filter, t + [r])
         == if Matches(e, filter, r) then Fetched(e, filter, t) + [r] else Fetched(e, filter, t)
  {
    assert (t + [r])[..|t|] == t;
  }

  // A patch that finds itself reads back what it changed, and every lookalike besides.
  lemma {:induction false} ReadBackIs(e: Engine, filter: Filter, patch: Row, t: Table)
    requires FindsItself(e, filter, patch)
    ensures var found, changed := Fetched(e, After(filter, patch), Updated(e, filter, patch, t)),
        Changed(e, filter, patch, t);
      && |found| == |changed| + Lookalikes(e, filter, patch, t)
      && (Lookalikes(e, filter, patch, t) == 0 ==> found == changed)
  {
    hide Matches, After, Updated, Fetched, Patched, FindsItself;
    if |t| == 0 {
      NothingToRead(e, filter, patch, t);
    } else {
      var n, r := |t| - 1, t[|t|-1];
      ReadBackIs(e, filter, patch, t[..n]);
      UpdatedSnoc(e, filter, patch, t);
      if Matches(e, filter, r) { FoundIff(e, filter, patch, r); }
      FetchedSnoc(e, After(filter, patch), Updated(e, filter, patch, t[..n]),
                  if Matches(e, filter, r) then Patched(e, patch, r) else r);
    }
  }

  lemma NothingToRead(e: Engine, filter: Filter, patch: Row, t: Table)
    requires |t| == 0
    ensures Fetched(e, After(filter, patch), Updated(e, filter, patch, t)) == []
  {
  }

  lemma SomeMatch(e: Engine, filter: Filter, t: Table) returns (i: nat)
    requires Fetched(e, filter, t) != []
    ensures i < |t| && Matches(e, filter, t[i])
  {
    var r := Fetched(e, filter, t)[0];
    assert r in Fetched(e, filter, t);
    FetchedHas(e, filter, t, r);
    i :| 0 <= i < |t| && t[i] == r;
  }

  // When a patch answers with the rows it changed, and only those.
  lemma AnswersChangedIff(e: Engine, filter: Filter, patch: Row, t: Table)
    ensures Answer(e, filter, patch, t) == Changed(e, filter, patch, t) <==>
      Fetched(e, filter, t) == [] || (FindsItself(e, filter, patch) && NoLookalike(e, filter, patch, t))
  {
    hide Updated, Matches, FindsItself, NoLookalike;
    ChangedCount(e, filter, patch, t);
    NoLookalikes(e, filter, patch, t);
    if Fetched(e, filter, t) != [] {
      if FindsItself(e, filter, patch) {
        ReadBackIs(e, filter, patch, t);
      } else {
        var i := SomeMatch(e, filter, t);
        ChangedHas(e, filter, patch, t, i);
        FoundIff(e, filter, patch, t[i]);
        FetchedHas(e, After(filter, patch), Updated(e, filter, patch, t), Patched(e, patch, t[i]));
      }
    }
  }

  // ------------------------------------------------------------- patches of one row

  // The filter's clause on this column is met by at most one row, as a primary key's is.
  ghost predicate Identifies(e: Engine, filter: Filter, column: string, t: Table)
    requires column in filter
  {
    forall i, j :: 0 <= i < j < |t| ==>
      !(Meets(e, column, Get(t[i], column), ClauseOf(filter[column]))
        && Meets(e, column, Get(t[j], column), ClauseOf(filter[column])))
  }

  lemma IdentifiesFew(e: Engine, filter: Filter, column: string, t: Table, n: nat)
    requires column in filter && Identifies(e, filter, column, t) && n <= |t|
    ensures Identifies(e, filter, column, t[..n])
  {
    forall i, j | 0 <= i < j < n
      ensures !(Meets(e, column, Get(t[..n][i], column), ClauseOf(filter[column]))
        && Meets(e, column, Get(t[..n][j], column), ClauseOf(filter[column])))
    {
      assert t[..n][i] == t[i] && t[..n][j] == t[j];
    }
  }

  lemma OtherIsNot(e: Engine, filter: Filter, t: Table, id: string, i: nat, j: nat)
    requires id in filter && Identifies(e, filter, id, t) && i < j < |t| && Matches(e, filter, t[i])
    ensures !Matches(e, filter, t[j])
  {
    assert Meets(e, id, Get(t[i], id), ClauseOf(filter[id]));
    assert !Meets(e, id, Get(t[j], id), ClauseOf(filter[id]));
  }

  lemma {:induction false} AtMostOne(e: Engine, filter: Filter, t: Table, id: string)
    requires id in filter && Identifies(e, filter, id, t)
    ensures |Fetched(e, filter, t)| <= 1
  {
    if t != [] {
      var n := |t| - 1;
      IdentifiesFew(e, filter, id, t, n);
      AtMostOne(e, filter, t[..n], id);
      if Fetched(e, filter, t[..n]) != [] {
        var i := SomeMatch(e, filter, t[..n]);
        OtherIsNot(e, filter, t, id, i, n);
      }
    }
  }

  // The filter moved by a patch that leaves the identifying column alone identifies too.
  lemma MovedIdentifies(e: Engine, filter: Filter, patch: Row, u: Table, id: string)
    requires id in filter && id !in patch && Identifies(e, filter, id, u)
    ensures Identifies(e, After(filter, patch), id, u)
  {
    assert After(filter, patch)[id] == filter[id];
    forall i, j | 0 <= i < j < |u|
      ensures !(Meets(e, id, Get(u[i], id), ClauseOf(After(filter, patch)[id]))
        && Meets(e, id, Get(u[j], id), ClauseOf(After(filter, patch)[id])))
    {
      assert !(Meets(e, id, Get(u[i], id), ClauseOf(filter[id])) && Meets(e, id, Get(u[j], id), ClauseOf(filter[id])));
    }
  }

  // A patch that names its row answers with the row it changed exactly if it hit none, or it
  // finds itself and the row still stands as it left it when it reads back.
  lemma VersionedPatchAnswersIff(e: Engine, filter: Filter, patch: Row, t: Table, u: Table, id: string)
    requires id in filter && id !in patch && Identifies(e, filter, id, t) && Identifies(e, filter, id, u)
    ensures var changed := Changed(e, filter, patch, t);
      && |changed| <= 1
      && (ReadBack(e, filter, patch, t, u) == changed <==>
            changed == [] || (changed[0] in u && FindsItself(e, filter, patch)))
  {
    hide Changed, Matches, Identifies, FindsItself;
    var changed := Changed(e, filter, patch, t);
    ChangedCount(e, filter, patch, t);
    AtMostOne(e, filter, t, id);
    MovedIdentifies(e, filter, patch, u, id);
    AtMostOne(e, After(filter, patch), u, id);
    if Fetched(e, filter, t) != [] {
      var i := SomeMatch(e, filter, t);
      ChangedHas(e, filter, patch, t, i);
      FoundIff(e, filter, patch, t[i]);
      FetchedHas(e, After(filter, patch), u, changed[0]);
      var found := Fetched(e, After(filter, patch), u);
      assert changed == [Patched(e, patch, t[i])];
      if changed[0] in found { assert found == [found[0]]; }
    }
  }

  // With no one writing in between, it is for the filter and the patch alone to say.
  lemma VersionedPatchAnswersAlone(e: Engine, filter: Filter, patch: Row, t: Table, id: string)
    requires id in filter && id !in patch && Identifies(e, filter, id, t)
    ensures Answer(e, filter, patch, t) == Changed(e, filter, patch, t)
       <==> Fetched(e, filter, t) == [] || FindsItself(e, filter, patch)
  {
    hide Changed, Matches, Identifies, FindsItself, Updated;
    var changed, u := Changed(e, filter, patch, t), Updated(e, filter, patch, t);
    ChangedCount(e, filter, patch, t);
    UpdatedIdentifies(e, filter, patch, t, id);
    VersionedPatchAnswersIff(e, filter, patch, t, u, id);
    if changed != [] { ChangedStands(e, filter, patch, t, changed[0]); }
  }

  lemma {:induction false} UpdatedAt(e: Engine, filter: Filter, patch: Row, t: Table)
    ensures var u := Updated(e, filter, patch, t);
      && |u| == |t|
      && forall i :: 0 <= i < |t| ==> u[i] == if Matches(e, filter, t[i]) then Patched(e, patch, t[i]) else t[i]
  {
    if t != [] { UpdatedAt(e, filter, patch, t[..|t|-1]); }
  }

  lemma UpdatedIdentifies(e: Engine, filter: Filter, patch: Row, t: Table, id: string)
    requires id in filter && id !in patch && Identifies(e, filter, id, t)
    ensures Identifies(e, filter, id, Updated(e, filter, patch, t))
  {
    UpdatedAt(e, filter, patch, t);
    var u := Updated(e, filter, patch, t);
    forall i | 0 <= i < |t| ensures Get(u[i], id) == Get(t[i], id) {
    }
  }

  lemma {:induction false} ChangedStands(e: Engine, filter: Filter, patch: Row, t: Table, r: Row)
    requires r in Changed(e, filter, patch, t)
    ensures r in Updated(e, filter, patch, t)
  {
    var init, x := t[..|t|-1], t[|t|-1];
    var rest := Updated(e, filter, patch, init);
    if Matches(e, filter, x) && r == Patched(e, patch, x) {
      assert Updated(e, filter, patch, t)[|rest|] == r;
    } else {
      ChangedStands(e, filter, patch, init, r);
    }
  }

  // ------------------------------------------------------------- a held version lost

  // A patch that sets one of the columns it filters on to null answers with nothing,
  // whatever it changed and whatever others wrote.
  lemma NulledColumnLooksLost(e: Engine, filter: Filter, patch: Row, t: Table, u: Table, c: string)
    requires c in filter && c in patch && patch[c] == Null
    ensures ReadBack(e, filter, patch, t, u) == []
  {
    var after := After(filter, patch);
    forall i | 0 <= i < |u| ensures !Matches(e, after, u[i]) {
      assert !Meets(e, c, Get(u[i], c), ClauseOf(after[c]));
    }
    if Fetched(e, after, u) != [] { var i := SomeMatch(e, after, u); }
  }

  // A claim on a row that is freed again: the row is changed and the answer is empty.
  lemma FreedClaimLooksLost(e: Engine)
    requires forall c, v :: v != Null ==> e.holds("eq", c, v, v)
    ensures var filter := map["id" := Text("a"), "owner" := Text("me")];
      var patch := map["owner" := Null];
      var t := [map["id" := Text("a"), "owner" := Text("me")]];
      && Changed(e, filter, patch, t) != [] && Answer(e, filter, patch, t) == []
  {
    var filter := map["id" := Text("a"), "owner" := Text("me")];
    var patch := map["owner" := Null];
    var r := map["id" := Text("a"), "owner" := Text("me")];
    forall c | c in filter ensures Meets(e, c, Get(r, c), ClauseOf(filter[c])) {
      assert e.holds("eq", c, Get(r, c), filter[c]);
    }
    assert Matches(e, filter, [r][0]);
    ChangedHas(e, filter, patch, [r], 0);
    NulledColumnLooksLost(e, filter, patch, [r], Updated(e, filter, patch, [r]), "owner");
  }
}
