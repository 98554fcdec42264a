/**
 The rewrite that makes a concatenation of migrations re-runnable: what it does to each
 kind of statement, and what running the result means for a catalogue.
 */
module MigrationBundle {

  datatype Option<T> = None | Some(value: T)

  datatype Kind = Enum | Table | Index | Policy | Trigger | Function | Column | EnumValue

  // `on` is the table of a policy, a trigger or a column, the type of an enum value.
  datatype Key = Key(kind: Kind, on: string, name: string)

  // `needs` is what must exist for the statement to run.
  datatype Stmt =
    | Create(key: Key, def: string, needs: set<Key>)          // create ...
    | CreateIfAbsent(key: Key, def: string, needs: set<Key>)  // ... if not exists, or duplicates swallowed
    | Replace(key: Key, def: string, needs: set<Key>)         // create or replace ...
    | DropIfExists(key: Key)                                  // drop ... if exists

  // A statement and where its text starts in the file it came from, as that file reads
  // when the policies are guarded.
  datatype Placed = Placed(stmt: Stmt, file: nat, at: int)

  type Program = seq<Stmt>
  type Source = seq<Placed>

  const LOOK_BACK := 400

  // ------------------------------------------------------------------ execution

  type Catalogue = map<Key, string>

  datatype Outcome = Done(catalogue: Catalogue) | AlreadyExists(key: Key) | Missing

  function Step(c: Catalogue, s: Stmt): Outcome {
    if !s.DropIfExists? && !(s.needs <= c.Keys) then Missing
    else
      match s
      case Create(key, def, _) => if key in c then AlreadyExists(key) else Done(c[key := def])
      case CreateIfAbsent(key, def, _) => if key in c then Done(c) else Done(c[key := def])
      case Replace(key, def, _) => Done(c[key := def])
      case DropIfExists(key) => Done(c - {key})
  }

  // Statements in order, up to the first that fails.
  function Exec(c: Catalogue, p: Program): Outcome {
    if p == [] then Done(c)
    else
      var before := Exec(c, p[..|p|-1]);
      if before.Done? then Step(before.catalogue, p[|p|-1]) else before
  }

  // ---------------------------------------------------------------- the rewrite

  // The text before the create, as far as the look-back goes, drops a policy of that
  // name; the table is not looked at, and neither is the case of the name.
  ghost predicate Mentioned(fold: string -> string, p: Source, i: nat)
    requires i < |p|
  {
    exists j :: 0 <= j < i && DropsAlike(fold, p[j], p[i])
  }

  ghost predicate DropsAlike(fold: string -> string, d: Placed, c: Placed) {
    && d.stmt.DropIfExists? && d.stmt.key.kind == Policy
    && d.file == c.file && d.at >= c.at - LOOK_BACK
    && fold(d.stmt.key.name) == fold(c.stmt.key.name)
  }

  // Statement `i` of the source as it appears in the bundle.
  ghost function Rewritten(fold: string -> string, p: Source, i: nat): Program
    requires i < |p|
  {
    var s := p[i].stmt;
    if !s.Create? then [s]
    else
      match s.key.kind
      case Enum => [CreateIfAbsent(s.key, s.def, s.needs)]
      case Table => [CreateIfAbsent(s.key, s.def, s.needs)]
      case Index => [CreateIfAbsent(s.key, s.def, s.needs)]
      case Policy => if Mentioned(fold, p, i) then [s] else [DropIfExists(s.key), s]
      case Trigger => [DropIfExists(s.key), s]
      case _ => [s]
  }

  // A policy create the rewrite leaves alone, because the look-back was satisfied.
  ghost predicate LeftAlone(fold: string -> string, p: Source, i: nat)
    requires i < |p|
  {
    p[i].stmt.Create? && p[i].stmt.key.kind == Policy && Mentioned(fold, p, i)
  }

  // It is left alone exactly if a drop of a policy starts at most 400 characters before it in
  // the file and names it, up to case.
  lemma LeftAloneIff(fold: string -> string, p: Source, i: nat)
    requires i < |p| && p[i].stmt.Create? && p[i].stmt.key.kind == Policy
    ensures LeftAlone(fold, p, i) <==>
      (exists j :: 0 <= j < i && p[j].stmt.DropIfExists? && p[j].stmt.key.kind == Policy
        && p[j].file == p[i].file && p[i].at - p[j].at <= 400
        && fold(p[j].stmt.key.name) == fold(p[i].stmt.key.name))
    ensures Rewritten(fold, p, i) == (if LeftAlone(fold, p, i) then [p[i].stmt]
                                      else [DropIfExists(p[i].stmt.key), p[i].stmt])
  {
    if j :| 0 <= j < i && p[j].stmt.DropIfExists? && p[j].stmt.key.kind == Policy && p[j].file == p[i].file
            && p[i].at - p[j].at <= 400 && fold(p[j].stmt.key.name) == fold(p[i].stmt.key.name) {
      assert DropsAlike(fold, p[j], p[i]);
    }
    if Mentioned(fold, p, i) { var j :| 0 <= j < i && DropsAlike(fold, p[j], p[i]); }
  }

  // The statements that come out as they went in: all that are not bare creates, the creates of
  // kinds the rewrite does not know, and the policies it leaves alone.
  lemma UnchangedIff(fold: string -> string, p: Source, i: nat)
    requires i < |p|
    ensures Rewritten(fold, p, i) == [p[i].stmt] <==>
      || !p[i].stmt.Create?
      || p[i].stmt.key.kind in {Function, Column, EnumValue}
      || LeftAlone(fold, p, i)
  {
  }

  // One statement that can no longer trip over its object, or a drop and then the create.
  ghost predicate Guarded(s: Stmt, r: Program) {
    || (r == [DropIfExists(s.key), s] && s.Create?)
    || (|r| == 1 && SameAim(s, r[0]))
  }

  predicate SameAim(s: Stmt, t: Stmt) {
    t == s || (s.Create? && t == CreateIfAbsent(s.key, s.def, s.needs))
  }

  lemma RewrittenForms(fold: string -> string, p: Source, i: nat)
    requires i < |p|
    ensures Guarded(p[i].stmt, Rewritten(fold, p, i))
    ensures InCorpus(p[i].stmt) ==> forall k :: 0 <= k < |Rewritten(fold, p, i)| ==> InCorpus(Rewritten(fold, p, i)[k])
    ensures InCorpus(p[i].stmt) && |Rewritten(fold, p, i)| == 1 && Rewritten(fold, p, i)[0].Create? ==>
        LeftAlone(fold, p, i)
    ensures LeftAlone(fold, p, i) ==> Rewritten(fold, p, i) == [p[i].stmt]
  {
  }

  ghost function Bundle(fold: string -> string, p: Source, n: nat): Program
    requires n <= |p|
  {
    if n == 0 then [] else Bundle(fold, p, n - 1) + Rewritten(fold, p, n - 1)
  }

  function Statements(p: Source): Program {
    if p == [] then [] else Statements(p[..|p|-1]) + [p[|p|-1].stmt]
  }

  // The statements the corpus is made of: bare creates are of the five rewritten kinds,
  // only policies and triggers are dropped, and nothing needs one of those.
  predicate InCorpus(s: Stmt) {
    match s
    case DropIfExists(key) => key.kind in {Policy, Trigger}
    case Create(key, _, needs) =>
      key.kind in {Enum, Table, Index, Policy, Trigger} && Lasting(needs)
    case CreateIfAbsent(key, _, needs) => Lasting(needs)
    case Replace(key, _, needs) => Lasting(needs)
  }

  predicate Lasting(needs: set<Key>) {
    forall k :: k in needs ==> k.kind !in {Policy, Trigger}
  }

  predicate Corpus(p: Source) {
    forall i :: 0 <= i < |p| ==> InCorpus(p[i].stmt)
  }

  lemma ExecOne(c: Catalogue, p: Program, s: Stmt)
    ensures Exec(c, p + [s]) == var b := Exec(c, p); if b.Done? then Step(b.catalogue, s) else b
  {
    assert (p + [s])[..|p|] == p;
  }

  lemma ExecTwo(c: Catalogue, p: Program, s: Stmt, t: Stmt)
    ensures Exec(c, p + [s, t]) == var b := Exec(c, p + [s]); if b.Done? then Step(b.catalogue, t) else b
  {
    assert p + [s, t] == (p + [s]) + [t];
    ExecOne(c, p + [s], t);
  }

  // --------------------------------------------- the rewrite preserves success

  lemma {:induction false} StatementsInOrder(p: Source, n: nat)
    requires n < |p|
    ensures Statements(p[..n+1]) == Statements(p[..n]) + [p[n].stmt]
  {
    assert p[..n+1][..n] == p[..n];
  }

  lemma GuardedPreservesSuccess(c: Catalogue, q: Program, s: Stmt, r: Program)
    requires Guarded(s, r) && Exec(c, q).Done? && Step(Exec(c, q).catalogue, s).Done?
    ensures Exec(c, q + r) == Step(Exec(c, q).catalogue, s)
  {
    var mid := Exec(c, q).catalogue;
    ExecOne(c, q, r[0]);
    if |r| == 2 {
      ExecTwo(c, q, r[0], r[1]);
      assert mid - {s.key} == mid;
    } else {
      assert r == [r[0]];
    }
  }

  lemma NothingToRun(p: Source)
    ensures Statements(p[..0]) == []
  {
  }

  // Wherever the migrations run as written, the bundle reaches the same catalogue.
  lemma {:induction false} BundlePreservesSuccess(fold: string -> string, p: Source, c: Catalogue, n: nat)
    requires n <= |p| && Exec(c, Statements(p[..n])).Done?
    ensures Exec(c, Bundle(fold, p, n)) == Exec(c, Statements(p[..n]))
  {
    hide Rewritten, Guarded, Step, Statements;
    if n == 0 {
      NothingToRun(p);
    } else {
      StatementsInOrder(p, n - 1);
      ExecOne(c, Statements(p[..n-1]), p[n-1].stmt);
      BundlePreservesSuccess(fold, p, c, n - 1);
      RewrittenForms(fold, p, n - 1);
      GuardedPreservesSuccess(c, Bundle(fold, p, n - 1), p[n-1].stmt, Rewritten(fold, p, n - 1));
    }
  }

  // ------------------------------------------------- what a key is left holding

  datatype Status = Untouched | Absent | Present

  predicate Touches(s: Stmt, key: Key) { s.key == key }

  // What a program that runs to the end says about a key, whatever it started from.
  function StatusOf(p: Program, key: Key): Status {
    if p == [] then Untouched
    else if !Touches(p[|p|-1], key) then StatusOf(p[..|p|-1], key)
    else if p[|p|-1].DropIfExists? then Absent else Present
  }

  lemma {:induction false} StatusIsTrue(c: Catalogue, p: Program, key: Key)
    requires Exec(c, p).Done?
    ensures StatusOf(p, key) == Absent ==> key !in Exec(c, p).catalogue
    ensures StatusOf(p, key) == Present ==> key in Exec(c, p).catalogue
    ensures StatusOf(p, key) == Untouched ==> (key in Exec(c, p).catalogue <==> key in c)
  {
    if p != [] { StatusIsTrue(c, p[..|p|-1], key); }
  }

  lemma StatusOfMore(p: Program, s: Stmt, key: Key)
    ensures StatusOf(p + [s], key) ==
      if !Touches(s, key) then StatusOf(p, key) else if s.DropIfExists? then Absent else Present
  {
    assert (p + [s])[..|p|] == p;
  }

  lemma {:induction false} BundleKeepsStatus(fold: string -> string, p: Source, n: nat, key: Key)
    requires n <= |p|
    ensures StatusOf(Bundle(fold, p, n), key) == StatusOf(Statements(p[..n]), key)
  {
    hide Rewritten, Guarded, StatusOf;
    if n == 0 {
    } else {
      BundleKeepsStatus(fold, p, n - 1, key);
      StatementsInOrder(p, n - 1);
      StatusOfMore(Statements(p[..n-1]), p[n-1].stmt, key);
      RewrittenForms(fold, p, n - 1);
      StatusOfGuarded(Bundle(fold, p, n - 1), p[n-1].stmt, Rewritten(fold, p, n - 1), key);
    }
  }

  lemma StatusOfGuarded(p: Program, s: Stmt, r: Program, key: Key)
    requires Guarded(s, r)
    ensures StatusOf(p + r, key) ==
      if !Touches(s, key) then StatusOf(p, key) else if s.DropIfExists? then Absent else Present
  {
    StatusOfMore(p, r[0], key);
    if |r| == 2 {
      StatusOfMore(p + [r[0]], r[1], key);
      assert p + r == (p + [r[0]]) + [r[1]];
    } else {
      assert r == [r[0]];
    }
  }

  // ------------------------------------------------ when it never trips on itself

  // ... and what was last done to that very policy, on that very table, was a drop.
  ghost predicate OwnDropFirst(fold: string -> string, p: Source, i: nat)
    requires i < |p|
  {
    LeftAlone(fold, p, i) ==> StatusOf(Statements(p[..i]), p[i].stmt.key) == Absent
  }

  // Run after a program that does not trip, one rewritten statement does not either.
  lemma GuardedDoesNotTrip(c: Catalogue, q: Program, s: Stmt, r: Program)
    requires Guarded(s, r) && !Exec(c, q).AlreadyExists?
    requires |r| == 1 && r[0].Create? ==> StatusOf(q, s.key) == Absent
    ensures !Exec(c, q + r).AlreadyExists?
  {
    ExecOne(c, q, r[0]);
    if |r| == 2 {
      ExecTwo(c, q, r[0], r[1]);
    } else {
      assert r == [r[0]];
      if Exec(c, q).Done? { StatusIsTrue(c, q, s.key); }
    }
  }

  lemma {:induction false} NeverTrips(fold: string -> string, p: Source, c: Catalogue, n: nat)
    requires n <= |p| && Corpus(p) && forall i :: 0 <= i < n ==> OwnDropFirst(fold, p, i)
    ensures !Exec(c, Bundle(fold, p, n)).AlreadyExists?
  {
    hide Rewritten, Guarded, LeftAlone, StatusOf;
    if n > 0 {
      NeverTrips(fold, p, c, n - 1);
      assert InCorpus(p[n-1].stmt) && OwnDropFirst(fold, p, n - 1);
      RewrittenForms(fold, p, n - 1);
      BundleKeepsStatus(fold, p, n - 1, p[n-1].stmt.key);
      GuardedDoesNotTrip(c, Bundle(fold, p, n - 1), p[n-1].stmt, Rewritten(fold, p, n - 1));
    }
  }

  // Everything any statement needs, each key being of a kind that is never dropped.
  function AllNeeds(p: Source): set<Key> {
    if p == [] then {}
    else AllNeeds(p[..|p|-1]) + (if p[|p|-1].stmt.DropIfExists? then {} else p[|p|-1].stmt.needs)
  }

  lemma {:induction false} NeedsAreAll(p: Source, i: nat)
    requires i < |p|
    ensures !p[i].stmt.DropIfExists? ==> p[i].stmt.needs <= AllNeeds(p)
  {
    if i < |p| - 1 { NeedsAreAll(p[..|p|-1], i); }
  }

  lemma {:induction false} NeedsLast(p: Source)
    requires Corpus(p)
    ensures Lasting(AllNeeds(p))
  {
    if p != [] {
      NeedsLast(p[..|p|-1]);
      assert InCorpus(p[|p|-1].stmt);
    }
  }

  predicate Holds(needs: set<Key>, c: Catalogue) { needs <= c.Keys }

  lemma StepKeepsNeeds(c: Catalogue, s: Stmt, needs: set<Key>)
    requires InCorpus(s) && Lasting(needs) && Holds(needs, c) && Step(c, s).Done?
    ensures Holds(needs, Step(c, s).catalogue)
  {
  }

  // With everything it needs in place from the start, a bundle never finds it missing.
  lemma {:induction false} NothingMissing(fold: string -> string, p: Source, c: Catalogue, n: nat)
    requires n <= |p| && Corpus(p) && Holds(AllNeeds(p), c)
    ensures !Exec(c, Bundle(fold, p, n)).Missing?
    ensures Exec(c, Bundle(fold, p, n)).Done? ==> Holds(AllNeeds(p), Exec(c, Bundle(fold, p, n)).catalogue)
  {
    hide Rewritten, AllNeeds;
    if n > 0 {
      NothingMissing(fold, p, c, n - 1);
      NeedsLast(p);
      NeedsAreAll(p, n - 1);
      RewrittenForms(fold, p, n - 1);
      assert InCorpus(p[n-1].stmt);
      GuardedMissesNothing(AllNeeds(p), c, Bundle(fold, p, n - 1), p[n-1].stmt, Rewritten(fold, p, n - 1));
    }
  }

  ghost predicate Fed(needs: set<Key>, o: Outcome) {
    !o.Missing? && (o.Done? ==> Holds(needs, o.catalogue))
  }

  lemma GuardedMissesNothing(needs: set<Key>, c: Catalogue, q: Program, s: Stmt, r: Program)
    requires Guarded(s, r) && Lasting(needs) && (!s.DropIfExists? ==> s.needs <= needs) && Fed(needs, Exec(c, q))
    requires forall k :: 0 <= k < |r| ==> InCorpus(r[k])
    ensures Fed(needs, Exec(c, q + r))
  {
    OneMissesNothing(needs, c, q, r[0]);
    if |r| == 2 {
      OneMissesNothing(needs, c, q + [r[0]], r[1]);
      assert q + r == (q + [r[0]]) + [r[1]];
    } else {
      assert r == [r[0]];
    }
  }

  lemma OneMissesNothing(needs: set<Key>, c: Catalogue, q: Program, s: Stmt)
    requires InCorpus(s) && Lasting(needs) && (!s.DropIfExists? ==> s.needs <= needs) && Fed(needs, Exec(c, q))
    ensures Fed(needs, Exec(c, q + [s]))
  {
    ExecOne(c, q, s);
    if Exec(c, q + [s]).Done? { StepKeepsNeeds(Exec(c, q).catalogue, s, needs); }
  }

  lemma {:induction false} FailureSticks(fold: string -> string, p: Source, c: Catalogue, n: nat, m: nat)
    requires n <= m <= |p| && !Exec(c, Bundle(fold, p, n)).Done?
    ensures Exec(c, Bundle(fold, p, m)) == Exec(c, Bundle(fold, p, n))
  {
    hide Rewritten, Step;
    if n < m {
      FailureSticks(fold, p, c, n, m - 1);
      RewrittenForms(fold, p, m - 1);
      var q, r := Bundle(fold, p, m - 1), Rewritten(fold, p, m - 1);
      ExecOne(c, q, r[0]);
      if |r| == 2 { ExecTwo(c, q, r[0], r[1]); } else { assert r == [r[0]]; }
    }
  }

  // A catalogue with everything the bundle needs, and the policy it forgot to drop.
  lemma TripsOver(fold: string -> string, p: Source, i: nat) returns (c: Catalogue)
    requires i < |p| && Corpus(p) && !OwnDropFirst(fold, p, i)
    ensures Exec(c, Bundle(fold, p, |p|)).AlreadyExists?
  {
    hide Rewritten, AllNeeds, Guarded;
    var s, q := p[i].stmt, Bundle(fold, p, i);
    c := map k | k in AllNeeds(p) + {s.key} :: "";
    NothingMissing(fold, p, c, i);
    NeedsAreAll(p, i);
    if Exec(c, q).Done? {
      BundleKeepsStatus(fold, p, i, s.key);
      StatusIsTrue(c, q, s.key);
      RewrittenForms(fold, p, i);
      ExecOne(c, q, s);
      FailureSticks(fold, p, c, i + 1, |p|);
    } else {
      FailureSticks(fold, p, c, i, |p|);
    }
  }

  // Whatever it is run against, the bundle never fails on an object that is already there.
  ghost predicate Rerunnable(fold: string -> string, p: Source) {
    forall c :: !Exec(c, Bundle(fold, p, |p|)).AlreadyExists?
  }

  // Every policy create the rewrite leaves alone follows its own drop.
  ghost predicate OwnDropsFirst(fold: string -> string, p: Source) {
    forall i :: 0 <= i < |p| ==> OwnDropFirst(fold, p, i)
  }

  // Exactly which sources give a bundle that can be run again.
  lemma RerunnableIff(fold: string -> string, p: Source)
    requires Corpus(p)
    ensures Rerunnable(fold, p) <==> OwnDropsFirst(fold, p)
  {
    if i :| 0 <= i < |p| && !OwnDropFirst(fold, p, i) {
      var c := TripsOver(fold, p, i);
    } else {
      forall c ensures !Exec(c, Bundle(fold, p, |p|)).AlreadyExists? {
        NeverTrips(fold, p, c, |p|);
      }
    }
  }

  // The look-back takes the drop of a policy of the same name on another table for its
  // own; a project that has the policy then refuses the bundle.
  lemma OtherTablesDropMisleads(fold: string -> string)
    ensures var p := [Placed(DropIfExists(Key(Policy, "a", "read")), 0, 0),
                      Placed(Create(Key(Policy, "b", "read"), "", {}), 0, 40)];
      Corpus(p) && exists c :: Exec(c, Bundle(fold, p, |p|)).AlreadyExists?
  {
    var p := [Placed(DropIfExists(Key(Policy, "a", "read")), 0, 0),
              Placed(Create(Key(Policy, "b", "read"), "", {}), 0, 40)];
    assert Corpus(p);
    assert DropsAlike(fold, p[0], p[1]);
    assert !OwnDropFirst(fold, p, 1) by {
      assert Statements(p[..1]) == [p[0].stmt] by { StatementsInOrder(p, 0); }
      StatusOfMore([], p[0].stmt, p[1].stmt.key);
      assert [] + [p[0].stmt] == [p[0].stmt];
    }
    var c := TripsOver(fold, p, 1);
  }

  // -------------------------------------------------------- running it twice

  function Lookup(c: Catalogue, key: Key): Option<string> {
    if key in c then Some(c[key]) else None
  }

  // What a program that runs to the end makes of one key's definition.
  function Effect(p: Program, key: Key, was: Option<string>): Option<string> {
    if p == [] then was
    else
      var before, s := Effect(p[..|p|-1], key, was), p[|p|-1];
      if !Touches(s, key) then before
      else
        match s
        case DropIfExists(_) => None
        case CreateIfAbsent(_, def, _) => if before.Some? then before else Some(def)
        case Create(_, def, _) => Some(def)
        case Replace(_, def, _) => Some(def)
  }

  lemma {:induction false} EffectIsTrue(c: Catalogue, p: Program, key: Key)
    requires Exec(c, p).Done?
    ensures Lookup(Exec(c, p).catalogue, key) == Effect(p, key, Lookup(c, key))
  {
    if p != [] { EffectIsTrue(c, p[..|p|-1], key); }
  }

  // Either something overwrites the key whatever it held, or nothing touches a key that
  // is there.
  lemma {:induction false} EffectShape(p: Program, key: Key, v: Option<string>, w: Option<string>)
    ensures Effect(p, key, v) == Effect(p, key, w)
         || ((v.Some? ==> Effect(p, key, v) == v) && (w.Some? ==> Effect(p, key, w) == w))
  {
    if p != [] { EffectShape(p[..|p|-1], key, v, w); }
  }

  lemma EffectTwice(p: Program, key: Key, v: Option<string>)
    ensures Effect(p, key, Effect(p, key, v)) == Effect(p, key, v)
  {
    EffectShape(p, key, v, Effect(p, key, v));
  }

  lemma NoNeeds(p: Source)
    ensures AllNeeds(p[..0]) == {}
  {
  }

  lemma ExecNone(c: Catalogue)
    ensures Exec(c, []) == Done(c)
  {
  }

  lemma AllNeedsMore(p: Source, n: nat)
    requires n < |p|
    ensures AllNeeds(p[..n+1]) == AllNeeds(p[..n]) + (if p[n].stmt.DropIfExists? then {} else p[n].stmt.needs)
  {
    assert p[..n+1][..n] == p[..n];
  }

  lemma {:induction false} NeedsMet(fold: string -> string, p: Source, c: Catalogue, n: nat)
    requires n <= |p| && Corpus(p) && Exec(c, Bundle(fold, p, n)).Done?
    ensures Holds(AllNeeds(p[..n]), Exec(c, Bundle(fold, p, n)).catalogue)
  {
    hide Rewritten, AllNeeds, Guarded, Exec;
    if n == 0 {
      assert Holds(AllNeeds(p[..0]), c) by { NoNeeds(p); }
      assert Exec(c, []) == Done(c) by { ExecNone(c); }
    } else {
      var q, s, r := Bundle(fold, p, n - 1), p[n-1].stmt, Rewritten(fold, p, n - 1);
      if !Exec(c, q).Done? { FailureSticks(fold, p, c, n - 1, n); }
      NeedsMet(fold, p, c, n - 1);
      AllNeedsMore(p, n - 1);
      NeedsLast(p[..n-1]);
      RewrittenForms(fold, p, n - 1);
      assert InCorpus(s);
      GuardedMeetsNeeds(AllNeeds(p[..n-1]), c, q, s, r);
    }
  }

  lemma GuardedMeetsNeeds(needs: set<Key>, c: Catalogue, q: Program, s: Stmt, r: Program)
    requires Guarded(s, r) && Lasting(needs) && InCorpus(s) && forall k :: 0 <= k < |r| ==> InCorpus(r[k])
    requires Exec(c, q).Done? && Holds(needs, Exec(c, q).catalogue) && Exec(c, q + r).Done?
    ensures Holds(needs + (if s.DropIfExists? then {} else s.needs), Exec(c, q + r).catalogue)
  {
    ExecOne(c, q, r[0]);
    if |r| == 2 { ExecTwo(c, q, r[0], r[1]); } else { assert r == [r[0]]; }
  }

  // Run again on what it left, the bundle leaves it as it is.
  lemma TwiceIsOnce(fold: string -> string, p: Source, c: Catalogue)
    requires Corpus(p) && OwnDropsFirst(fold, p)
    requires Exec(c, Bundle(fold, p, |p|)).Done?
    ensures Exec(Exec(c, Bundle(fold, p, |p|)).catalogue, Bundle(fold, p, |p|)) == Exec(c, Bundle(fold, p, |p|))
  {
    hide Rewritten, OwnDropFirst, AllNeeds;
    var q := Bundle(fold, p, |p|);
    var once := Exec(c, q).catalogue;
    NeedsMet(fold, p, c, |p|);
    assert p[..|p|] == p;
    NothingMissing(fold, p, once, |p|);
    NeverTrips(fold, p, once, |p|);
    var twice := Exec(once, q).catalogue;
    forall key ensures Lookup(twice, key) == Lookup(once, key) {
      EffectIsTrue(c, q, key);
      EffectIsTrue(once, q, key);
      EffectTwice(q, key, Lookup(c, key));
    }
    SameLookup(twice, once);
  }

  lemma SameLookup(a: Catalogue, b: Catalogue)
    requires forall key :: Lookup(a, key) == Lookup(b, key)
    ensures a == b
  {
    forall key ensures (key in a <==> key in b) && (key in a && key in b ==> a[key] == b[key]) {
      assert Lookup(a, key) == Lookup(b, key);
    }
    assert a.Keys == b.Keys;
  }

  // A project that was migrated file by file is left as it is by the bundle.
  lemma BundleAfterMigrations(fold: string -> string, p: Source, c: Catalogue)
    requires Corpus(p) && OwnDropsFirst(fold, p)
    requires Exec(c, Statements(p)).Done?
    ensures Exec(Exec(c, Statements(p)).catalogue, Bundle(fold, p, |p|)) == Exec(c, Statements(p))
  {
    assert p[..|p|] == p;
    BundlePreservesSuccess(fold, p, c, |p|);
    TwiceIsOnce(fold, p, c);
  }

  // ------------------------------------------------------------ what it leaves undone

  // Dropping a policy or a trigger first takes away nothing its create needs.
  lemma GuardedMissesToo(c: Catalogue, q: Program, s: Stmt, r: Program)
    requires Guarded(s, r) && InCorpus(s) && (|r| == 2 ==> s.key.kind in {Policy, Trigger})
    requires Exec(c, q).Done? && Step(Exec(c, q).catalogue, s).Missing?
    ensures Exec(c, q + r).Missing?
  {
    ExecOne(c, q, r[0]);
    if |r| == 2 { ExecTwo(c, q, r[0], r[1]); } else { assert r == [r[0]]; }
  }

  lemma {:induction false} MissesWhatIsMissing(fold: string -> string, p: Source, c: Catalogue, n: nat)
    requires n <= |p| && Corpus(p) && Exec(c, Statements(p[..n])).Missing?
    ensures Exec(c, Bundle(fold, p, n)).Missing?
  {
    hide Rewritten, Guarded, Statements, Step;
    if n == 0 {
      NothingToRun(p);
      ExecNone(c);
    } else {
      var s, q, r := p[n-1].stmt, Bundle(fold, p, n - 1), Rewritten(fold, p, n - 1);
      StatementsInOrder(p, n - 1);
      ExecOne(c, Statements(p[..n-1]), s);
      if Exec(c, Statements(p[..n-1])).Done? {
        BundlePreservesSuccess(fold, p, c, n - 1);
        RewrittenForms(fold, p, n - 1);
        TwoAreDropped(fold, p, n - 1);
        assert InCorpus(s);
        GuardedMissesToo(c, q, s, r);
      } else {
        MissesWhatIsMissing(fold, p, c, n - 1);
        FailureSticks(fold, p, c, n - 1, n);
      }
    }
  }

  lemma TwoAreDropped(fold: string -> string, p: Source, i: nat)
    requires i < |p|
    ensures |Rewritten(fold, p, i)| == 2 ==> p[i].stmt.key.kind in {Policy, Trigger}
  {
  }

  // The rewrite hides no missing object and invents none: whatever the source finds missing
  // the bundle finds missing, and where the bundle does the source fails as well.
  lemma MissingIsMissing(fold: string -> string, p: Source, c: Catalogue)
    requires Corpus(p)
    ensures Exec(c, Statements(p)).Missing? ==> Exec(c, Bundle(fold, p, |p|)).Missing?
    ensures Exec(c, Bundle(fold, p, |p|)).Missing? ==> !Exec(c, Statements(p)).Done?
  {
    assert p[..|p|] == p;
    if Exec(c, Statements(p)).Missing? { MissesWhatIsMissing(fold, p, c, |p|); }
    if Exec(c, Statements(p)).Done? { BundlePreservesSuccess(fold, p, c, |p|); }
  }

  // Only ever created, and by a statement that the bundle does not let trip.
  predicate OnlyCreated(p: Source, key: Key) {
    forall i :: 0 <= i < |p| && p[i].stmt.key == key ==>
      p[i].stmt.CreateIfAbsent? || (p[i].stmt.Create? && key.kind in {Enum, Table, Index})
  }

  // The same of the bundle.
  predicate NeverRedefined(p: Program, key: Key) {
    forall i :: 0 <= i < |p| && p[i].key == key ==> p[i].CreateIfAbsent?
  }

  lemma {:induction false} BundleNeverRedefines(fold: string -> string, p: Source, key: Key, n: nat)
    requires n <= |p| && OnlyCreated(p, key)
    ensures NeverRedefined(Bundle(fold, p, n), key)
  {
    if n > 0 { BundleNeverRedefines(fold, p, key, n - 1); }
  }

  lemma {:induction false} StaysDefined(p: Program, key: Key, was: Option<string>)
    requires was.Some? && NeverRedefined(p, key)
    ensures Effect(p, key, was) == was
  {
    if p != [] {
      var init := p[..|p|-1];
      assert forall i :: 0 <= i < |init| ==> init[i] == p[i];
      StaysDefined(init, key, was);
    }
  }

  // What the rewrite does not repair: an object that is there under another definition stays
  // as it was if the source only ever creates it.
  lemma {:induction false} DriftedStays(fold: string -> string, p: Source, c: Catalogue, key: Key)
    requires key in c && OnlyCreated(p, key) && Exec(c, Bundle(fold, p, |p|)).Done?
    ensures Lookup(Exec(c, Bundle(fold, p, |p|)).catalogue, key) == Some(c[key])
  {
    BundleNeverRedefines(fold, p, key, |p|);
    StaysDefined(Bundle(fold, p, |p|), key, Some(c[key]));
    EffectIsTrue(c, Bundle(fold, p, |p|), key);
  }
}
