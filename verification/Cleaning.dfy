/**
 The cleaning pipeline of the notebook: a frame goes through eight stages, each of which
 logs what it changed.  Counts are whole, costs are in cents, a blank is None.
 */
module Cleaning {
  import opened Labels
  import Sorting
  import Stats

  datatype Option<T> = None | Some(value: T)

  datatype Result<T> = Ok(value: T) | Stopped(error: Error)

  datatype Error = BadDate | BadNumber | Conflict | NotFinite

  // ------------------------------------------------------------------- raw cells

  // A date in the first format, or the two readings of anything else.
  datatype DateCell = Iso(date: int) | Other(dayFirst: Option<int>, monthFirst: Option<int>)

  datatype NumberCell = Blank | Number(n: int) | Garbage

  datatype RawRow = RawRow(date: DateCell, team: string, service: string, model: string,
                           requests: NumberCell, tokens: NumberCell, cost: NumberCell)

  // `source` is the row of the workbook.
  datatype Row = Row(source: nat, date: int, team: string, service: string, model: string,
                     requests: Option<int>, tokens: Option<int>, cost: Option<int>)

  type Frame = seq<Row>

  datatype RateBy = ByService | ByModel | ByTeam

  datatype Switches = Switches(dayFirst: bool, dedupe: bool, keyDupes: string, missing: string, neg: string,
                               anomaly: string, factor: real, rateBy: RateBy)

  // ---------------------------------------------------------------------- totals

  datatype Totals = Totals(requests: int, tokens: int, cost: int)

  const ZERO: Totals := Totals(0, 0, 0)

  function Plus(a: Totals, b: Totals): Totals { Totals(a.requests + b.requests, a.tokens + b.tokens, a.cost + b.cost) }

  function Minus(a: Totals, b: Totals): Totals { Totals(a.requests - b.requests, a.tokens - b.tokens, a.cost - b.cost) }

  // A blank adds nothing to a sum.
  function Val(o: Option<int>): int { if o.Some? then o.value else 0 }

  function Requests(): Row -> int { (r: Row) => Val(r.requests) }

  function Tokens(): Row -> int { (r: Row) => Val(r.tokens) }

  function Cost(): Row -> int { (r: Row) => Val(r.cost) }

  function Sums(d: Frame): Totals {
    Totals(Sorting.Sum(Requests(), d), Sorting.Sum(Tokens(), d), Sorting.Sum(Cost(), d))
  }

  // One line of the register.
  datatype Entry = Entry(rows: nat, delta: Totals, dropped: nat)

  function TotalDelta(log: seq<Entry>): Totals {
    if |log| == 0 then ZERO else Plus(TotalDelta(log[..|log|-1]), log[|log|-1].delta)
  }

  function TotalDropped(log: seq<Entry>): nat {
    if |log| == 0 then 0 else TotalDropped(log[..|log|-1]) + log[|log|-1].dropped
  }

  // ----------------------------------------------------------------------- masks

  type Mask = seq<bool>

  function Pick(d: Frame, m: Mask): Frame
    requires |m| == |d|
  {
    if |d| == 0 then []
    else Pick(d[..|d|-1], m[..|d|-1]) + (if m[|d|-1] then [d[|d|-1]] else [])
  }

  function Drop(d: Frame, m: Mask): Frame
    requires |m| == |d|
  {
    if |d| == 0 then []
    else Drop(d[..|d|-1], m[..|d|-1]) + (if m[|d|-1] then [] else [d[|d|-1]])
  }

  function Any(m: Mask): bool { true in m }

  // ------------------------------------------------------------- stages 1, 2 and 3

  function DateOf(c: DateCell, dayFirst: bool): Option<int> {
    match c
    case Iso(d) => Some(d)
    case Other(df, mf) => if dayFirst then df else mf
  }

  function NumberOf(c: NumberCell): Option<int> {
    if c.Number? then Some(c.n) else None
  }

  function Parsed(source: nat, r: RawRow, dayFirst: bool): Result<Row> {
    var date := DateOf(r.date, dayFirst);
    if date.None? then Stopped(BadDate)
    else if r.requests.Garbage? || r.tokens.Garbage? || r.cost.Garbage? then Stopped(BadNumber)
    else Ok(Row(source, date.value, CanonTeam(r.team), CanonService(r.service), CanonModel(r.model),
                NumberOf(r.requests), NumberOf(r.tokens), NumberOf(r.cost)))
  }

  function ParsedAll(src: seq<RawRow>, dayFirst: bool): Result<Frame> {
    if |src| == 0 then Ok([])
    else
      var rest := ParsedAll(src[..|src|-1], dayFirst);
      var row := Parsed(|src| - 1, src[|src|-1], dayFirst);
      if rest.Stopped? then Stopped(rest.error)
      else if row.Stopped? then Stopped(row.error)
      else Ok(rest.value + [row.value])
  }

  // What the raw cells add up to.
  function RawTotals(src: seq<RawRow>): Totals {
    if |src| == 0 then ZERO
    else
      var r := src[|src|-1];
      Plus(RawTotals(src[..|src|-1]), Totals(Val(NumberOf(r.requests)), Val(NumberOf(r.tokens)), Val(NumberOf(r.cost))))
  }

  function Count(src: seq<RawRow>, p: RawRow -> bool): nat {
    if |src| == 0 then 0 else Count(src[..|src|-1], p) + (if p(src[|src|-1]) then 1 else 0)
  }

  function Relabelled(src: seq<RawRow>): seq<Entry> {
    var teams := Count(src, (r: RawRow) => CanonTeam(r.team) != r.team);
    var services := Count(src, (r: RawRow) => CanonService(r.service) != r.service);
    var models := Count(src, (r: RawRow) => CanonModel(r.model) != r.model);
    var dates := Count(src, (r: RawRow) => !r.date.Iso?);
    [Entry(teams, ZERO, 0), Entry(services, ZERO, 0)]
    + (if models > 0 then [Entry(models, ZERO, 0)] else [])
    + [Entry(dates, ZERO, 0)]
  }

  // --------------------------------------------------------------------- stage 4

  predicate SameRow(a: Row, b: Row) { a == b.(source := a.source) }

  predicate SameKey(a: Row, b: Row) {
    a.date == b.date && a.team == b.team && a.service == b.service && a.model == b.model
  }

  // There is an equal row before it.
  function Repeats(d: Frame): Mask {
    seq(|d|, i requires 0 <= i < |d| => exists j :: 0 <= j < i && SameRow(d[j], d[i]))
  }

  // A row with its key and other measures, and none equal to it.
  function Conflicts(d: Frame): Mask {
    seq(|d|, i requires 0 <= i < |d| =>
      (exists j :: 0 <= j < |d| && j != i && SameKey(d[j], d[i]))
      && !(exists j :: 0 <= j < |d| && j != i && SameRow(d[j], d[i])))
  }

  function NotFirst(d: Frame): Mask {
    seq(|d|, i requires 0 <= i < |d| => exists j :: 0 <= j < i && SameKey(d[j], d[i]))
  }

  function NotLast(d: Frame): Mask {
    seq(|d|, i requires 0 <= i < |d| => exists j :: i < j < |d| && SameKey(d[j], d[i]))
  }

  datatype Stage = Stage(frame: Frame, log: seq<Entry>)

  function Dropped(d: Frame, m: Mask): Stage
    requires |m| == |d|
  {
    var gone := Pick(d, m);
    Stage(Drop(d, m), [Entry(|gone|, Minus(ZERO, Sums(gone)), |gone|)])
  }

  function Dedupe(d: Frame, sw: Switches): Stage {
    if sw.dedupe then Dropped(d, Repeats(d)) else Stage(d, [])
  }

  function Restatements(d: Frame, sw: Switches): Result<Stage> {
    if !Any(Conflicts(d)) then Ok(Stage(d, []))
    else if sw.keyDupes == "raise" then Stopped(Conflict)
    else Ok(Dropped(d, if sw.keyDupes == "keep_first" then NotFirst(d) else NotLast(d)))
  }

  // --------------------------------------------------------------------- stage 5

  function KeyOf(r: Row, rateBy: RateBy): string {
    match rateBy
    case ByService => r.service
    case ByModel => r.model
    case ByTeam => r.team
  }

  // A cost for no tokens is an infinite price, and no cost for no tokens is none.
  datatype Prices = Prices(low: nat, finite: seq<real>, high: nat)

  function WithPrice(p: Prices, cost: int, tokens: int): Prices {
    if tokens != 0 then p.(finite := p.finite + [cost as real / 100.0 / tokens as real * 1000.0])
    else if cost > 0 then p.(high := p.high + 1)
    else if cost < 0 then p.(low := p.low + 1)
    else p
  }

  // Dollars per thousand tokens, from the rows that have both measures.
  function UnitPrices(d: Frame, rateBy: RateBy, k: string): Prices {
    if |d| == 0 then Prices(0, [], 0)
    else
      var rest, r := UnitPrices(d[..|d|-1], rateBy, k), d[|d|-1];
      if KeyOf(r, rateBy) == k && r.cost.Some? && r.tokens.Some?
      then WithPrice(rest, r.cost.value, r.tokens.value)
      else rest
  }

  function MiddlePrice(d: Frame, rateBy: RateBy, k: string): Stats.Middle {
    var p := UnitPrices(d, rateBy, k);
    Stats.MedianOf(p.low, p.finite, p.high)
  }

  // The median price, to three places.
  function RateFor(d: Frame, rateBy: RateBy, k: string): Option<real> {
    var m := MiddlePrice(d, rateBy, k);
    if m.At? then Some(Stats.Round(m.value * 1000.0) as real / 1000.0) else None
  }

  // No row is to be imputed from an infinite rate.
  predicate NoneUnbounded(d: Frame, rateBy: RateBy) {
    forall i :: 0 <= i < |d| && d[i].cost.Some? != d[i].tokens.Some? ==>
      !MiddlePrice(d, rateBy, KeyOf(d[i], rateBy)).Unbounded?
  }

  // Dollars that a number of tokens costs at a rate, and the tokens a cost in cents buys.
  function Price(tokens: int, rate: real): real { tokens as real * rate / 1000.0 }

  function Bought(cost: int, rate: real): real
    requires rate != 0.0
  {
    cost as real / 100.0 / rate * 1000.0
  }

  function WithCost(r: Row, rate: Option<real>): Row {
    r.(cost := if r.tokens.Some? && rate.Some? then Some(Stats.Round(Price(r.tokens.value, rate.value) * 100.0))
               else None)
  }

  predicate TokensFinite(r: Row, rate: Option<real>) { r.cost.Some? && rate.Some? ==> rate.value != 0.0 }

  function WithTokens(r: Row, rate: Option<real>): Row
    requires TokensFinite(r, rate)
  {
    r.(tokens := if r.cost.Some? && rate.Some? then Some(Stats.Round(Bought(r.cost.value, rate.value)))
                 else None)
  }

  function NoCost(d: Frame): Mask { seq(|d|, i requires 0 <= i < |d| => d[i].cost.None?) }

  function NoTokens(d: Frame): Mask { seq(|d|, i requires 0 <= i < |d| => d[i].tokens.None?) }

  function Either(a: Mask, b: Mask): Mask
    requires |a| == |b|
  {
    seq(|a|, i requires 0 <= i < |a| => a[i] || b[i])
  }

  // `m` rows take their cost from the rate of their key.
  function Costed(d: Frame, priced: Frame, rateBy: RateBy, m: Mask): Frame
    requires |m| == |d|
  {
    seq(|d|, i requires 0 <= i < |d| => if m[i] then WithCost(d[i], RateFor(priced, rateBy, KeyOf(d[i], rateBy)))
        else d[i])
  }

  predicate AllFinite(d: Frame, priced: Frame, rateBy: RateBy, m: Mask)
    requires |m| == |d|
  {
    forall i :: 0 <= i < |d| && m[i] ==> TokensFinite(d[i], RateFor(priced, rateBy, KeyOf(d[i], rateBy)))
  }

  function Tokened(d: Frame, priced: Frame, rateBy: RateBy, m: Mask): Frame
    requires |m| == |d| && AllFinite(d, priced, rateBy, m)
  {
    seq(|d|, i requires 0 <= i < |d| => if m[i] then WithTokens(d[i], RateFor(priced, rateBy, KeyOf(d[i], rateBy)))
        else d[i])
  }

  function Missing(d: Frame, sw: Switches): Result<Stage> {
    var mc, mt := NoCost(d), NoTokens(d);
    if sw.missing == "impute" then
      var e := Costed(d, d, sw.rateBy, mc);
      if !NoneUnbounded(d, sw.rateBy) || !AllFinite(e, d, sw.rateBy, mt) then Stopped(NotFinite)
      else
        var f := Tokened(e, d, sw.rateBy, mt);
        Ok(Stage(f, [Entry(|Pick(d, mc)|, Totals(0, 0, Sums(Pick(f, mc)).cost), 0),
                     Entry(|Pick(d, mt)|, Totals(0, Sums(Pick(f, mt)).tokens, 0), 0)]))
    else Ok(Dropped(d, Either(mc, mt)))
  }

  // --------------------------------------------------------------------- stage 6

  function Impossible(d: Frame): Mask {
    seq(|d|, i requires 0 <= i < |d| => d[i].requests.Some? && d[i].requests.value <= 0)
  }

  function TokensPerRequest(d: Frame, service: string): seq<real> {
    if |d| == 0 then []
    else
      var rest, r := TokensPerRequest(d[..|d|-1], service), d[|d|-1];
      if r.service == service && r.tokens.Some? && r.requests.Some? && r.requests.value > 0
      then rest + [r.tokens.value as real / r.requests.value as real]
      else rest
  }

  function TypicalFor(d: Frame, service: string): Option<real> {
    var rs := TokensPerRequest(d, service);
    if rs == [] then None else Some(Stats.Median(rs))
  }

  predicate RequestsFinite(r: Row, typical: Option<real>) { r.tokens.Some? && typical.Some? ==> typical.value != 0.0 }

  function WithRequests(r: Row, typical: Option<real>): Row
    requires RequestsFinite(r, typical)
  {
    r.(requests := if r.tokens.Some? && typical.Some? then Some(Stats.Round(r.tokens.value as real / typical.value))
        else None)
  }

  predicate AllCountable(d: Frame, sound: Frame, m: Mask)
    requires |m| == |d|
  {
    forall i :: 0 <= i < |d| && m[i] ==> RequestsFinite(d[i], TypicalFor(sound, d[i].service))
  }

  function Counted(d: Frame, sound: Frame, m: Mask): Frame
    requires |m| == |d| && AllCountable(d, sound, m)
  {
    seq(|d|, i requires 0 <= i < |d| => if m[i] then WithRequests(d[i], TypicalFor(sound, d[i].service)) else d[i])
  }

  function Abs(n: int): int { if n < 0 then -n else n }

  function Flipped(d: Frame, m: Mask): Frame
    requires |m| == |d|
  {
    seq(|d|, i requires 0 <= i < |d| => if m[i] then d[i].(requests := Some(Abs(Val(d[i].requests)))) else d[i])
  }

  function RequestsChange(d: Frame, e: Frame, m: Mask): Entry
    requires |m| == |d| == |e|
  {
    Entry(|Pick(d, m)|, Totals(Sums(Pick(e, m)).requests - Sums(Pick(d, m)).requests, 0, 0), 0)
  }

  // Any policy but the first two logs the rows as gone; only "drop" lets them go.
  function Negative(d: Frame, sw: Switches): Result<Stage> {
    var m := Impossible(d);
    if !Any(m) then Ok(Stage(d, []))
    else if sw.neg == "impute" then
      if !AllCountable(d, Drop(d, m), m) then Stopped(NotFinite)
      else
        var e := Counted(d, Drop(d, m), m);
        if Pick(e, m) != [] && Pick(e, m)[0].requests.None? then Stopped(NotFinite)
        else Ok(Stage(e, [RequestsChange(d, e, m)]))
    else if sw.neg == "abs" then
      var e := Flipped(d, m);
      Ok(Stage(e, [RequestsChange(d, e, m)]))
    else if sw.neg == "drop" then Ok(Dropped(d, m))
    else Ok(Stage(d, [Entry(|Pick(d, m)|, Minus(ZERO, Sums(Pick(d, m))), 0)]))
  }

  // --------------------------------------------------------------------- stage 7

  function Expected(r: Row, rate: Option<real>): Option<real> {
    if r.tokens.Some? && rate.Some? then Some(Price(r.tokens.value, rate.value)) else None
  }

  // Billed more than `factor` times what the rule implies; a rule that implies nothing is
  // exceeded by any charge.
  predicate Anomalous(r: Row, rate: Option<real>, factor: real) {
    var expected := Expected(r, rate);
    && r.cost.Some? && expected.Some?
    && if expected.value == 0.0 then r.cost.value > 0 else r.cost.value as real / 100.0 / expected.value > factor
  }

  function Anomalies(d: Frame, priced: Frame, sw: Switches): Mask {
    seq(|d|, i requires 0 <= i < |d| => Anomalous(d[i], RateFor(priced, sw.rateBy, KeyOf(d[i], sw.rateBy)), sw.factor))
  }

  function Restated(d: Frame, priced: Frame, rateBy: RateBy, m: Mask): Frame
    requires |m| == |d|
  {
    seq(|d|, i requires 0 <= i < |d| =>
      var expected := Expected(d[i], RateFor(priced, rateBy, KeyOf(d[i], rateBy)));
      if m[i] && expected.Some? then d[i].(cost := Some(Stats.Round(expected.value * 100.0))) else d[i])
  }

  function Anomaly(d: Frame, priced: Frame, sw: Switches): Stage {
    var m := Anomalies(d, priced, sw);
    if !Any(m) then Stage(d, [])
    else if sw.anomaly == "restate" then
      var e := Restated(d, priced, sw.rateBy, m);
      Stage(e, [Entry(|Pick(d, m)|, Totals(0, 0, Sums(Pick(e, m)).cost - Sums(Pick(d, m)).cost), 0)])
    else if sw.anomaly == "drop" then Dropped(d, m)
    else Stage(d, [Entry(|Pick(d, m)|, ZERO, 0)])
  }

  // --------------------------------------------------------------------- stage 8

  function ByDate(): (Row, Row) -> bool { (a: Row, b: Row) => a.date <= b.date }

  // Counts become integers, which a blank cannot; rows are put in order of date.
  function Finished(d: Frame): Result<Frame> {
    if forall i :: 0 <= i < |d| ==> d[i].requests.Some? && d[i].tokens.Some? then Ok(Sorting.Sort(ByDate(), d))
    else Stopped(NotFinite)
  }

  // ----------------------------------------------------------------- the pipeline

  // The frame as the price rule sees it, and the register so far.
  function Unpriced(src: seq<RawRow>, sw: Switches): Result<Stage> {
    var parsed := ParsedAll(src, sw.dayFirst);
    if parsed.Stopped? then Stopped(parsed.error)
    else
      var deduped := Dedupe(parsed.value, sw);
      var settled := Restatements(deduped.frame, sw);
      if settled.Stopped? then settled
      else Ok(Stage(settled.value.frame, Relabelled(src) + deduped.log + settled.value.log))
  }

  // ... and as it is when the request counts are looked at.
  function Measured(src: seq<RawRow>, sw: Switches): Result<Stage> {
    var unpriced := Unpriced(src, sw);
    if unpriced.Stopped? then unpriced
    else
      var filled := Missing(unpriced.value.frame, sw);
      if filled.Stopped? then filled else Ok(Stage(filled.value.frame, unpriced.value.log + filled.value.log))
  }

  function Clean(src: seq<RawRow>, sw: Switches): Result<Stage> {
    var measured := Measured(src, sw);
    if measured.Stopped? then measured
    else
      var counted := Negative(measured.value.frame, sw);
      if counted.Stopped? then counted
      else
        var billed := Anomaly(counted.value.frame, Unpriced(src, sw).value.frame, sw);
        var finished := Finished(billed.frame);
        if finished.Stopped? then Stopped(finished.error)
        else Ok(Stage(finished.value, measured.value.log + counted.value.log + billed.log))
  }
}
