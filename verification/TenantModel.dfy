/**
 A table shared by many desks, the requests a desk's store sends to it, and the store
 the desk would see if the table were its own.
 */
module TenantModel {

  datatype Option<T> = None | Some(value: T)

  datatype Value = Null | Text(text: string) | Number(n: int)

  type Row = map<string, Value>
  type Table = seq<Row>
  type Params = map<string, string>

  const DESK := "desk_id"

  function Get(r: Row, column: string): Value {
    if column in r then r[column] else Null
  }

  // The database: how it reads `column=text` against a row, and the columns that are
  // unique together with the desk.
  datatype Database = Database(op: (string, string, Row) -> bool, key: seq<string>)

  // All the store relies on: `eq.` on the desk column is equality.
  ghost predicate ReadsEq(db: Database) {
    forall d: string, r: Row :: db.op(DESK, "eq." + d, r) <==> Get(r, DESK) == Text(d)
  }

  // ------------------------------------------------------------------- filters

  function Digits(n: nat): string {
    if n < 10 then [('0' as int + n) as char] else Digits(n / 10) + [('0' as int + n % 10) as char]
  }

  function Show(v: Value): string {
    match v
    case Null => "None"
    case Text(s) => s
    case Number(n) => if n < 0 then "-" + Digits(-n) else Digits(n)
  }

  // A string with a dot in its first twelve characters carries its own operator.
  function FilterText(v: Value): string {
    if v.Text? && '.' in v.text[..if |v.text| < 12 then |v.text| else 12] then v.text else "eq." + Show(v)
  }

  type Filters = seq<(string, Value)>

  function Texts(filters: Filters): Params {
    if filters == [] then map[]
    else
      var (column, value) := filters[|filters|-1];
      Texts(filters[..|filters|-1])[column := FilterText(value)]
  }

  // The desk is set last, over any desk the caller named.
  function Scoped(desk: string, filters: Filters): Params {
    Texts(filters)[DESK := "eq." + desk]
  }

  // ------------------------------------------------------------------- requests

  datatype Resolution = IgnoreDuplicates | MergeDuplicates

  datatype Request =
    | GET(params: Params)
    | POST(rows: seq<Row>, onConflict: Option<seq<string>>, resolution: Option<Resolution>)
    | PATCH(params: Params, body: Row)
    | DELETE(params: Params)

  datatype Response = Failed | Rows(rows: seq<Row>)

  predicate Matches(db: Database, params: Params, r: Row) {
    forall c :: c in params ==> db.op(c, params[c], r)
  }

  function Select(db: Database, params: Params, t: Table): Table {
    if t == [] then []
    else
      var rest, r := Select(db, params, t[..|t|-1]), t[|t|-1];
      if Matches(db, params, r) then rest + [r] else rest
  }

  function Delete(db: Database, params: Params, t: Table): Table {
    if t == [] then []
    else
      var rest, r := Delete(db, params, t[..|t|-1]), t[|t|-1];
      if Matches(db, params, r) then rest else rest + [r]
  }

  function Patched(db: Database, params: Params, body: Row, t: Table): Table {
    if t == [] then []
    else
      var r := t[|t|-1];
      Patched(db, params, body, t[..|t|-1]) + [if Matches(db, params, r) then r + body else r]
  }

  // The same key: nulls are never equal to one another.
  predicate SameKey(key: seq<string>, a: Row, b: Row) {
    forall i :: 0 <= i < |key| ==> Get(a, key[i]) == Get(b, key[i]) && Get(a, key[i]) != Null
  }

  // `byDesk` says whether the desk is part of the constraint.
  predicate Clash(key: seq<string>, byDesk: bool, a: Row, b: Row) {
    SameKey(key, a, b) && (byDesk ==> Get(a, DESK) == Get(b, DESK))
  }

  predicate Free(key: seq<string>, byDesk: bool, t: Table, r: Row) {
    forall i :: 0 <= i < |t| ==> !Clash(key, byDesk, t[i], r)
  }

  predicate Unique(key: seq<string>, byDesk: bool, t: Table) {
    forall i, j :: 0 <= i < j < |t| ==> !Clash(key, byDesk, t[i], t[j])
  }

  // Inserts that skip what is there; the second component is what got in.
  function InsertNew(key: seq<string>, byDesk: bool, t: Table, rows: seq<Row>): (Table, seq<Row>) {
    if rows == [] then (t, [])
    else
      var (u, news) := InsertNew(key, byDesk, t, rows[..|rows|-1]);
      var r := rows[|rows|-1];
      if Free(key, byDesk, u, r) then (u + [r], news + [r]) else (u, news)
  }

  // The row laid over the ones it clashes with.
  function Overlaid(key: seq<string>, byDesk: bool, t: Table, r: Row): Table {
    if t == [] then []
    else
      var last := t[|t|-1];
      Overlaid(key, byDesk, t[..|t|-1], r) + [if Clash(key, byDesk, last, r) then last + r else last]
  }

  function Hit(key: seq<string>, byDesk: bool, t: Table, r: Row): seq<Row> {
    if t == [] then []
    else
      var rest, last := Hit(key, byDesk, t[..|t|-1], r), t[|t|-1];
      if Clash(key, byDesk, last, r) then rest + [last + r] else rest
  }

  function InsertMerged(key: seq<string>, byDesk: bool, t: Table, rows: seq<Row>): (Table, seq<Row>) {
    if rows == [] then (t, [])
    else
      var (u, out) := InsertMerged(key, byDesk, t, rows[..|rows|-1]);
      var r := rows[|rows|-1];
      if Free(key, byDesk, u, r) then (u + [r], out + [r])
      else (Overlaid(key, byDesk, u, r), out + Hit(key, byDesk, u, r))
  }

  function Insert(key: seq<string>, byDesk: bool, t: Table, rows: seq<Row>, resolution: Option<Resolution>)
    : (Table, Response)
  {
    match resolution
    case None =>
      if Unique(key, byDesk, t + rows) then (t + rows, Rows(rows)) else (t, Failed)
    case Some(IgnoreDuplicates) =>
      var (u, news) := InsertNew(key, byDesk, t, rows); (u, Rows(news))
    case Some(MergeDuplicates) =>
      // One statement does not touch a row twice.
      if !Unique(key, byDesk, rows) then (t, Failed)
      else var (u, out) := InsertMerged(key, byDesk, t, rows); (u, Rows(out))
  }

  predicate SameColumns(rows: seq<Row>) {
    forall i :: 0 <= i < |rows| ==> rows[i].Keys == rows[0].Keys
  }

  function ToSet(columns: seq<string>): set<string> {
    set c | c in columns
  }

  // The columns named as the target of a resolution are those of a constraint.
  predicate IsConstraint(columns: set<string>, target: Option<seq<string>>) {
    target.Some? ==> ToSet(target.value) == columns
  }

  // What the shared table does with a request; a failed one changes nothing.
  function Handle(db: Database, t: Table, req: Request): (Table, Response) {
    match req
    case GET(params) => (t, Rows(Select(db, params, t)))
    case POST(rows, target, resolution) =>
      if !SameColumns(rows) || (resolution.Some? && !IsConstraint(ToSet(db.key) + {DESK}, target)) then (t, Failed)
      else Insert(db.key, true, t, rows, resolution)
    case PATCH(params, body) =>
      var u := Patched(db, params, body, t);
      if Unique(db.key, true, u) then (u, Rows(Select2(db, params, body, t))) else (t, Failed)
    case DELETE(params) => (Delete(db, params, t), Rows(Select(db, params, t)))
  }

  // The matching rows as a patch leaves them.
  function Select2(db: Database, params: Params, body: Row, t: Table): seq<Row> {
    if t == [] then []
    else
      var rest, r := Select2(db, params, body, t[..|t|-1]), t[|t|-1];
      if Matches(db, params, r) then rest + [r + body] else rest
  }
}
