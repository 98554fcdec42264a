/**
 The rota: entries of a small grammar, and which of them owns a moment of the week.
 Moments are microseconds of the day, as fine as the clock that is asked.
 */
module OnCall {
  import opened Strings

  datatype Option<T> = None | Some(value: T)

  const MINUTE_US := 60_000_000
  const DAY_US := 86_400_000_000
  const WEEK_US := 604_800_000_000

  datatype Error = MissingName | MissingWindow | OpenWindow | UnknownDay | NoDays | NotATime

  // Times are minutes of the day.
  datatype Entry = Entry(raw: string, who: string, days: set<int>, start: int, end: int, valid: bool,
      error: Option<Error>)

  predicate TimeOfDay(t: int) { 0 <= t < 1440 }

  predicate DaySet(days: set<int>) { forall d :: d in days ==> 0 <= d < 7 }

  // ------------------------------------------------------------------------ covers

  // The tail of a night shift is looked up under the day the shift began.
  predicate Covers(e: Entry, day: int, moment: int) {
    var start, end := e.start * MINUTE_US, e.end * MINUTE_US;
    if !e.valid then false
    else if start <= end then day in e.days && start <= moment <= end
    else if moment >= start then day in e.days
    else if moment <= end then (day - 1) % 7 in e.days
    else false
  }

  // How long a window lasts, past midnight if it ends before it starts.
  function Duration(e: Entry): int {
    if e.start <= e.end then (e.end - e.start) * MINUTE_US else (e.end - e.start) * MINUTE_US + DAY_US
  }

  // How long after the start of the shift of day `d` a moment comes, around the week.
  function Since(e: Entry, d: int, day: int, moment: int): int {
    (day * DAY_US + moment - (d * DAY_US + e.start * MINUTE_US)) % WEEK_US
  }

  ghost predicate InShift(e: Entry, day: int, moment: int) {
    exists d :: d in e.days && Since(e, d, day, moment) <= Duration(e)
  }

  lemma ModWeek(x: int)
    requires -WEEK_US <= x < 2 * WEEK_US
    ensures x % WEEK_US == if x < 0 then x + WEEK_US else if x < WEEK_US then x else x - WEEK_US
  {
  }

  // The shift of which day, if any, the moment is in.
  lemma SinceShift(e: Entry, d: int, day: int, moment: int)
    requires 0 <= d < 7 && 0 <= day < 7 && 0 <= moment < DAY_US && TimeOfDay(e.start) && TimeOfDay(e.end)
    ensures Since(e, d, day, moment) <= Duration(e) <==>
      if e.start <= e.end then d == day && e.start * MINUTE_US <= moment <= e.end * MINUTE_US
      else (d == day && moment >= e.start * MINUTE_US) || (d == (day - 1) % 7 && moment <= e.end * MINUTE_US)
  {
    var x := day * DAY_US + moment - (d * DAY_US + e.start * MINUTE_US);
    ModWeek(x);
    assert x == (day - d) * DAY_US + (moment - e.start * MINUTE_US);
    assert (day - 1) % 7 == if day == 0 then 6 else day - 1;
  }

  // An entry covers a moment exactly when, around the circular week, the moment comes no
  // later than the window is long after the window's start on one of its days.
  lemma CoversIffInShift(e: Entry, day: int, moment: int)
    requires e.valid && DaySet(e.days) && TimeOfDay(e.start) && TimeOfDay(e.end)
    requires 0 <= day < 7 && 0 <= moment < DAY_US
    ensures Covers(e, day, moment) <==> InShift(e, day, moment)
  {
    SinceShift(e, day, day, moment);
    SinceShift(e, (day - 1) % 7, day, moment);
    if InShift(e, day, moment) {
      var d :| d in e.days && Since(e, d, day, moment) <= Duration(e);
      SinceShift(e, d, day, moment);
    }
  }

  // ... written out, in microseconds of a week of seven days.
  lemma CoversAroundTheWeek(e: Entry, day: int, moment: int)
    requires e.valid && DaySet(e.days) && TimeOfDay(e.start) && TimeOfDay(e.end)
    requires 0 <= day < 7 && 0 <= moment < 86_400_000_000
    ensures Covers(e, day, moment) <==>
      (exists d :: d in e.days
        && (((day - d) * 1440 - e.start) * 60_000_000 + moment) % 604_800_000_000
           <= (e.end - e.start) % 1440 * 60_000_000)
  {
    CoversIffInShift(e, day, moment);
    forall d ensures Since(e, d, day, moment)
      == (((day - d) * 1440 - e.start) * 60_000_000 + moment) % 604_800_000_000
    {
      SameTime(day, d, e.start, moment);
    }
    DurationIs(e.start, e.end);
  }

  lemma SameTime(day: int, d: int, start: int, moment: int)
    ensures day * DAY_US + moment - (d * DAY_US + start * MINUTE_US)
         == ((day - d) * 1440 - start) * 60_000_000 + moment
  {
  }

  lemma DurationIs(start: int, end: int)
    requires TimeOfDay(start) && TimeOfDay(end)
    ensures (end - start) % 1440 * 60_000_000
         == if start <= end then (end - start) * MINUTE_US else (end - start) * MINUTE_US + DAY_US
  {
  }

  // An entry that could not be read covers nothing.
  lemma InvalidCoversNothing(e: Entry, day: int, moment: int)
    requires !e.valid
    ensures !Covers(e, day, moment)
  {
  }

  // ----------------------------------------------------------------------- resolving

  ghost predicate FirstToCover(rota: seq<Entry>, i: nat, day: int, moment: int)
    requires i < |rota|
  {
    Covers(rota[i], day, moment) && forall j :: 0 <= j < i ==> !Covers(rota[j], day, moment)
  }

  // The first entry that covers the moment is on call.
  method OnCallAt(rota: seq<Entry>, day: int, moment: int) returns (who: Option<string>)
    ensures who.None? <==> forall i :: 0 <= i < |rota| ==> !Covers(rota[i], day, moment)
    ensures who.Some? ==> exists i :: 0 <= i < |rota| && FirstToCover(rota, i, day, moment) && rota[i].who == who.value
  {
    for i := 0 to |rota|
      invariant forall j :: 0 <= j < i ==> !Covers(rota[j], day, moment)
    {
      if Covers(rota[i], day, moment) {
        assert FirstToCover(rota, i, day, moment);
        return Some(rota[i].who);
      }
    }
    who := None;
  }

  // ------------------------------------------------------------------------- splitting

  function FirstIndex(s: string, c: char): (k: nat)
    requires c in s
    ensures k < |s| && s[k] == c && c !in s[..k]
  {
    if s[0] == c then 0
    else
      assert s == [s[0]] + s[1..];
      var k := FirstIndex(s[1..], c);
      assert s[..k+1] == [s[0]] + s[1..][..k];
      k + 1
  }

  // Before and after the first occurrence; all of it and nothing if there is none.
  function Partition(s: string, c: char): (string, string) {
    if c in s then var k := FirstIndex(s, c); (s[..k], s[k+1..]) else (s, "")
  }

  lemma {:induction false} FirstIndexAt(a: string, c: char, b: string)
    requires c !in a
    ensures c in a + [c] + b && FirstIndex(a + [c] + b, c) == |a|
  {
    var s := a + [c] + b;
    assert s[|a|] == c;
    if a != [] {
      assert s[0] == a[0] && s[1..] == a[1..] + [c] + b;
      FirstIndexAt(a[1..], c, b);
    }
  }

  lemma PartitionAt(a: string, c: char, b: string)
    requires c !in a
    ensures Partition(a + [c] + b, c) == (a, b)
  {
    var s := a + [c] + b;
    FirstIndexAt(a, c, b);
    assert s[..|a|] == a && s[|a|+1..] == b;
  }

  // One more character at the end of the last part.
  function Extended(parts: seq<string>, x: char): (r: seq<string>)
    requires |parts| >= 1
    ensures |r| == |parts|
  {
    parts[..|parts|-1] + [parts[|parts|-1] + [x]]
  }

  function Split(s: string, c: char): (r: seq<string>)
    ensures |r| >= 1
  {
    if |s| == 0 then [""]
    else if s[|s|-1] == c then Split(s[..|s|-1], c) + [""]
    else Extended(Split(s[..|s|-1], c), s[|s|-1])
  }

  lemma ExtendedLast(a: seq<string>, p: string, x: char)
    ensures Extended(a + [p], x) == a + [p + [x]]
  {
    assert (a + [p])[..|a|] == a;
  }

  lemma {:induction false} SplitOne(s: string, c: char)
    requires c !in s
    ensures Split(s, c) == [s]
  {
    hide Extended;
    if |s| == 0 {
      assert s == "";
    } else {
      var init, x := s[..|s|-1], s[|s|-1];
      SplitOne(init, c);
      assert x in s && s == init + [x];
      ExtendedLast([], init, x);
      assert [] + [init] == [init] && [] + [s] == [s];
    }
  }

  lemma {:induction false} SplitMore(s: string, c: char, t: string)
    requires c !in t
    ensures Split(s + [c] + t, c) == Split(s, c) + [t]
  {
    hide Extended;
    var u := s + [c] + t;
    if |t| == 0 {
      assert u[..|u|-1] == s && t == "";
    } else {
      var init, x := t[..|t|-1], t[|t|-1];
      assert u[..|u|-1] == s + [c] + init && u[|u|-1] == x;
      SplitMore(s, c, init);
      ExtendedLast(Split(s, c), init, x);
      assert x in t && t == init + [x];
    }
  }

  // ------------------------------------------------------------------------------ days

  function DayName(d: int): string {
    if d == 0 then "mon" else if d == 1 then "tue" else if d == 2 then "wed" else if d == 3 then "thu"
    else if d == 4 then "fri" else if d == 5 then "sat" else "sun"
  }

  function DayIndex(s: string): (r: Option<int>)
    ensures r.Some? ==> 0 <= r.value < 7
  {
    if s == "mon" then Some(0) else if s == "tue" then Some(1) else if s == "wed" then Some(2)
    else if s == "thu" then Some(3) else if s == "fri" then Some(4) else if s == "sat" then Some(5)
    else if s == "sun" then Some(6) else None
  }

  const WEEK: set<int> := {0, 1, 2, 3, 4, 5, 6}

  // A range goes forward from its first day, around the end of the week if need be.
  function RangeDays(a: int, b: int): set<int> {
    if a <= b then set d | d in WEEK && a <= d <= b else (set d | d in WEEK && a <= d) + (set d | d in WEEK && d <= b)
  }

  lemma RangeGoesForward(a: int, b: int, d: int)
    requires 0 <= a < 7 && 0 <= b < 7 && 0 <= d < 7
    ensures d in RangeDays(a, b) <==> (d - a) % 7 <= (b - a) % 7
  {
  }

  function ChunkDays(chunk: string): (r: Option<set<int>>)
    ensures r.Some? ==> DaySet(r.value)
  {
    var c := Lower(Strip(chunk));
    if '-' in c then
      var (first, last) := Partition(c, '-');
      if DayIndex(first).None? || DayIndex(last).None? then None
      else Some(RangeDays(DayIndex(first).value, DayIndex(last).value))
    else if DayIndex(c).Some? then Some({DayIndex(c).value})
    else None
  }

  function AllDays(chunks: seq<string>): (r: Option<set<int>>)
    ensures r.Some? ==> DaySet(r.value)
  {
    if |chunks| == 0 then Some({})
    else
      var rest, more := AllDays(chunks[..|chunks|-1]), ChunkDays(chunks[|chunks|-1]);
      if rest.None? || more.None? then None else Some(rest.value + more.value)
  }

  lemma {:induction false} OneBadChunk(chunks: seq<string>, i: nat)
    requires i < |chunks| && AllDays(chunks[..i]).None?
    ensures AllDays(chunks).None?
  {
    if i < |chunks| - 1 {
      assert chunks[..|chunks|-1][..i] == chunks[..i];
      OneBadChunk(chunks[..|chunks|-1], i);
    }
  }

  method ParseDays(text: string) returns (days: Option<set<int>>)
    ensures days == AllDays(Split(text, ','))
    ensures days.Some? ==> DaySet(days.value)
  {
    var chunks := Split(text, ',');
    var wanted: set<int> := {};
    for i := 0 to |chunks|
      invariant AllDays(chunks[..i]) == Some(wanted)
    {
      assert chunks[..i+1][..i] == chunks[..i];
      var more := ChunkDays(chunks[i]);
      if more.None? {
        if i + 1 < |chunks| { OneBadChunk(chunks, i + 1); } else { assert chunks[..i+1] == chunks; }
        return None;
      }
      wanted := wanted + more.value;
    }
    assert chunks[..|chunks|] == chunks;
    days := Some(wanted);
  }

  // ----------------------------------------------------------------------------- times

  predicate Digit(c: char) { '0' <= c <= '9' }

  function DigitOf(c: char): int { c as int - '0' as int }

  function MinutesOf(tens: char, ones: char): Option<int> {
    if '0' <= tens <= '5' && Digit(ones) then Some(DigitOf(tens) * 10 + DigitOf(ones)) else None
  }

  // H:MM or HH:MM on a 24-hour clock.
  function ParseTime(text: string): (r: Option<int>)
    ensures r.Some? ==> TimeOfDay(r.value)
  {
    var t := Strip(text);
    if |t| == 4 && Digit(t[0]) && t[1] == ':' && MinutesOf(t[2], t[3]).Some? then
      Some(DigitOf(t[0]) * 60 + MinutesOf(t[2], t[3]).value)
    else if |t| == 5 && t[2] == ':' && MinutesOf(t[3], t[4]).Some?
         && ((t[0] in "01" && Digit(t[1])) || (t[0] == '2' && '0' <= t[1] <= '3')) then
      Some((DigitOf(t[0]) * 10 + DigitOf(t[1])) * 60 + MinutesOf(t[3], t[4]).value)
    else None
  }

  // --------------------------------------------------------------------------- entries

  function Blanked(raw: string): Entry {
    Entry(raw, "", {}, 0, 1439, false, None)
  }

  // Fields are filled in as they are read; the first that cannot be is the error.
  function ParseEntry(expression: string): (e: Entry)
    ensures e.valid <==> e.error.None?
    ensures e.valid ==> TimeOfDay(e.start) && TimeOfDay(e.end) && DaySet(e.days)
  {
    var raw := Strip(expression);
    var e := Blanked(raw);
    var (who, rest) := Partition(raw, '@');
    var (days, window) := Partition(rest, '=');
    var (start, end) := Partition(window, '-');
    if Strip(who) == "" then e.(error := Some(MissingName))
    else if window == "" then e.(error := Some(MissingWindow))
    else if end == "" then e.(error := Some(OpenWindow))
    else
      var named := e.(who := Strip(who));
      var wanted := AllDays(Split(days, ','));
      if wanted.None? then named.(error := Some(UnknownDay))
      else if wanted.value == {} then named.(error := Some(NoDays))
      else
        var dayed := named.(days := wanted.value);
        if ParseTime(start).None? then dayed.(error := Some(NotATime))
        else if ParseTime(end).None? then dayed.(start := ParseTime(start).value, error := Some(NotATime))
        else dayed.(start := ParseTime(start).value, end := ParseTime(end).value, valid := true)
  }

  // --------------------------------------------------------------------------- writing

  function DigitChar(n: int): char
    requires 0 <= n < 10
  {
    ('0' as int + n) as char
  }

  function TimeText(t: int): string
    requires TimeOfDay(t)
  {
    [DigitChar(t / 600), DigitChar(t / 60 % 10), ':', DigitChar(t % 60 / 10), DigitChar(t % 60 % 10)]
  }

  // The days below `n`, in order.
  function Listed(days: set<int>, n: nat): seq<string> {
    if n == 0 then [] else Listed(days, n - 1) + (if n - 1 in days then [DayName(n - 1)] else [])
  }

  function Joined(names: seq<string>): string {
    if |names| == 0 then ""
    else if |names| == 1 then names[0]
    else Joined(names[..|names|-1]) + "," + names[|names|-1]
  }

  function DaysText(days: set<int>): string { Joined(Listed(days, 7)) }

  function EntryText(who: string, days: set<int>, start: int, end: int): string
    requires TimeOfDay(start) && TimeOfDay(end)
  {
    who + "@" + (DaysText(days) + "=" + (TimeText(start) + "-" + TimeText(end)))
  }

  // ------------------------------------------------------------------------ round trip

  lemma TimeRoundTrip(t: int)
    requires TimeOfDay(t)
    ensures ParseTime(TimeText(t)) == Some(t)
    ensures '-' !in TimeText(t) && Trimmed(TimeText(t)) && |TimeText(t)| == 5
  {
    var s := TimeText(t);
    StripKeeps(s);
    assert t / 60 < 24 && t == t / 60 * 60 + t % 60;
    assert t / 600 == t / 60 / 10;
  }

  lemma DayNames(d: int)
    requires 0 <= d < 7
    ensures ChunkDays(DayName(d)) == Some({d})
    ensures ',' !in DayName(d) && '=' !in DayName(d)
  {
    var n := DayName(d);
    StripKeeps(n);
    assert Lower(n) == n;
  }

  // Two names and a hyphen are the days from the first forward to the second.
  lemma RangeIsRead(a: int, b: int)
    requires 0 <= a < 7 && 0 <= b < 7
    ensures ChunkDays(DayName(a) + "-" + DayName(b)) == Some(set d | d in WEEK && (d - a) % 7 <= (b - a) % 7)
  {
    hide RangeDays, DayName, DayIndex, Lower, Strip, Trimmed;
    var text := DayName(a) + "-" + DayName(b);
    RangeText(a, b);
    StripKeeps(text);
    PartitionAt(DayName(a), '-', DayName(b));
    assert text == DayName(a) + ['-'] + DayName(b) && text[|DayName(a)|] == '-';
    RangesAgree(a, b);
  }

  lemma RangesAgree(a: int, b: int)
    requires 0 <= a < 7 && 0 <= b < 7
    ensures RangeDays(a, b) == set d | d in WEEK && (d - a) % 7 <= (b - a) % 7
  {
    forall d | d in WEEK ensures d in RangeDays(a, b) <==> (d - a) % 7 <= (b - a) % 7 { RangeGoesForward(a, b, d); }
    forall d | d in RangeDays(a, b) ensures d in WEEK { RangeInWeek(a, b, d); }
  }

  lemma RangeText(a: int, b: int)
    requires 0 <= a < 7 && 0 <= b < 7
    ensures var text := DayName(a) + "-" + DayName(b); Trimmed(text) && Lower(text) == text
    ensures '-' !in DayName(a) && DayIndex(DayName(a)) == Some(a) && DayIndex(DayName(b)) == Some(b)
  {
    NameText(a);
    NameText(b);
  }

  lemma NameText(d: int)
    requires 0 <= d < 7
    ensures var n := DayName(d); |n| == 3 && '-' !in n && DayIndex(n) == Some(d)
    ensures forall i :: 0 <= i < 3 ==> 'a' <= DayName(d)[i] <= 'z'
  {
  }

  lemma RangeInWeek(a: int, b: int, d: int)
    ensures d in RangeDays(a, b) ==> 0 <= d < 7
  {
  }

  // A time is read exactly if it is written as hours and minutes of a 24-hour clock, the hours
  // below ten with or without a leading zero.
  lemma TimeReadIff(text: string, t: int)
    requires TimeOfDay(t)
    ensures ParseTime(text) == Some(t) <==>
      Strip(text) == TimeText(t) || (t < 600 && Strip(text) == TimeText(t)[1..])
  {
    hide Strip;
    var s := Strip(text);
    assert t / 60 < 24 && t == t / 60 * 60 + t % 60;
    assert t / 600 == t / 60 / 10;
    if ParseTime(text) == Some(t) {
      if |s| == 5 {
        ReadDigits(s[0], s[1], s[3], s[4]);
        assert s == [s[0], s[1], ':', s[3], s[4]];
      } else {
        ReadDigits('0', s[0], s[2], s[3]);
        assert s == [s[0], ':', s[2], s[3]];
      }
    }
    if t < 600 && s == TimeText(t)[1..] { assert |s| == 4 && s[0] == DigitChar(t / 60); }
  }

  // Four digits of a time of day are the digits of its minutes.
  lemma ReadDigits(a: char, b: char, c: char, d: char)
    requires Digit(a) && Digit(b) && Digit(c) && Digit(d) && DigitOf(c) < 6 && DigitOf(a) * 10 + DigitOf(b) < 24
    ensures var t := (DigitOf(a) * 10 + DigitOf(b)) * 60 + DigitOf(c) * 10 + DigitOf(d);
      TimeOfDay(t) && TimeText(t) == [a, b, ':', c, d]
  {
    var h, m := DigitOf(a) * 10 + DigitOf(b), DigitOf(c) * 10 + DigitOf(d);
    var t := h * 60 + m;
    assert t / 60 == h && t % 60 == m;
    assert t / 600 == h / 10;
  }

  ghost predicate IsDayName(s: string) {
    exists d :: 0 <= d < 7 && s == DayName(d)
  }

  ghost predicate AreDayNames(names: seq<string>) {
    forall i :: 0 <= i < |names| ==> IsDayName(names[i])
  }

  lemma AllDaysSnoc(names: seq<string>, d: int)
    requires 0 <= d < 7 && AllDays(names).Some?
    ensures AllDays(names + [DayName(d)]) == Some(AllDays(names).value + {d})
  {
    hide ChunkDays, DayName;
    DayNames(d);
    assert (names + [DayName(d)])[..|names|] == names;
  }

  function Upto(days: set<int>, n: int): set<int> { set d | d in days && 0 <= d < n }

  lemma {:induction false} ListedDays(days: set<int>, n: nat)
    requires n <= 7
    ensures AllDays(Listed(days, n)) == Some(Upto(days, n))
  {
    hide DayName, AllDays;
    if n == 0 {
      assert Upto(days, 0) == {};
      NoNames(Listed(days, 0));
    } else {
      ListedDays(days, n - 1);
      if n - 1 in days {
        AllDaysSnoc(Listed(days, n - 1), n - 1);
        assert Upto(days, n) == Upto(days, n - 1) + {n - 1};
      } else {
        assert Upto(days, n) == Upto(days, n - 1);
        assert Listed(days, n) == Listed(days, n - 1);
      }
    }
  }

  lemma NoNames(names: seq<string>)
    ensures |names| == 0 ==> AllDays(names) == Some({})
  {
  }

  lemma {:induction false} ListedNames(days: set<int>, n: nat)
    requires n <= 7
    ensures AreDayNames(Listed(days, n))
  {
    hide DayName;
    if n > 0 {
      ListedNames(days, n - 1);
      assert IsDayName(DayName(n - 1));
    }
  }

  lemma {:induction false} JoinedSplits(names: seq<string>)
    requires |names| >= 1 && AreDayNames(names)
    ensures Split(Joined(names), ',') == names && '=' !in Joined(names)
  {
    hide DayName, Split, IsDayName;
    var n := |names| - 1;
    DayNameParts(names[n]);
    if n == 0 {
      SplitOne(names[0], ',');
      assert names == [names[0]];
    } else {
      JoinedSplits(names[..n]);
      SplitMore(Joined(names[..n]), ',', names[n]);
      assert names == names[..n] + [names[n]];
      assert Joined(names) == Joined(names[..n]) + [','] + names[n];
    }
  }

  lemma DayNameParts(s: string)
    requires IsDayName(s)
    ensures ',' !in s && '=' !in s
  {
    var d :| 0 <= d < 7 && s == DayName(d);
    DayNames(d);
  }

  lemma DaysRoundTrip(days: set<int>)
    requires DaySet(days) && days != {}
    ensures AllDays(Split(DaysText(days), ',')) == Some(days) && '=' !in DaysText(days)
  {
    hide Listed, AllDays;
    ListedNames(days, 7);
    ListedDays(days, 7);
    assert Upto(days, 7) == days;
    NoNames(Listed(days, 7));
    JoinedSplits(Listed(days, 7));
  }

  // A name the grammar can carry.
  predicate Nameable(who: string) { who != "" && Trimmed(who) && '@' !in who }

  // What is written is read back, for every set of days and every window.
  lemma ReadsWhatIsWritten(who: string, days: set<int>, start: int, end: int)
    requires DaySet(days) && days != {} && TimeOfDay(start) && TimeOfDay(end) && Nameable(who)
    ensures var text := EntryText(who, days, start, end);
      ParseEntry(text) == Entry(text, who, days, start, end, true, None)
  {
    hide DaysText, TimeText, AllDays, ParseTime;
    var text := EntryText(who, days, start, end);
    var window := TimeText(start) + "-" + TimeText(end);
    var rest := DaysText(days) + "=" + window;
    TimeRoundTrip(start);
    TimeRoundTrip(end);
    DaysRoundTrip(days);
    assert Trimmed(text) by { TextTrimmed(who, rest, TimeText(end)); }
    StripKeeps(text);
    StripKeeps(who);
    PartitionAt(who, '@', rest);
    PartitionAt(DaysText(days), '=', window);
    PartitionAt(TimeText(start), '-', TimeText(end));
    assert text == who + ['@'] + rest && rest == DaysText(days) + ['='] + window;
    assert window == TimeText(start) + ['-'] + TimeText(end);
  }

  lemma TextTrimmed(who: string, rest: string, tail: string)
    requires who != "" && Trimmed(who) && tail != "" && Trimmed(tail)
    requires |tail| <= |rest| && rest[|rest|-|tail|..] == tail
    ensures Trimmed(who + "@" + rest)
  {
    var s := who + "@" + rest;
    assert s[0] == who[0] && s[|s|-1] == rest[|rest|-1] == tail[|tail|-1];
  }

  lemma {:induction false} StripKeepsOut(s: string, c: char)
    requires c !in s
    ensures c !in Strip(s)
    decreases |s|
  {
    if s != [] {
      if Blank(s[0]) {
        assert forall i :: 0 <= i < |s[1..]| ==> s[1..][i] == s[i+1];
        StripKeepsOut(s[1..], c);
      } else if Blank(s[|s|-1]) {
        StripKeepsOut(s[..|s|-1], c);
      }
    }
  }

  // A name that was read is one the grammar can carry.
  lemma NamesRead(expression: string)
    requires ParseEntry(expression).valid
    ensures Nameable(ParseEntry(expression).who)
  {
    hide AllDays, ParseTime, Split, Strip;
    var raw := Strip(expression);
    var who := Partition(raw, '@').0;
    assert '@' !in who;
    StripTrims(who);
    StripKeepsOut(who, '@');
  }

  // Exactly which names survive the round trip.
  lemma RoundTripIff(who: string, days: set<int>, start: int, end: int)
    requires DaySet(days) && days != {} && TimeOfDay(start) && TimeOfDay(end)
    ensures var text := EntryText(who, days, start, end);
      var e := ParseEntry(text);
      e.valid && e.who == who && e.days == days && e.start == start && e.end == end <==> Nameable(who)
  {
    hide ParseEntry, EntryText, Nameable;
    var text := EntryText(who, days, start, end);
    if Nameable(who) { ReadsWhatIsWritten(who, days, start, end); }
    if ParseEntry(text).valid { NamesRead(text); }
  }

  // ------------------------------------------------------- what is read, and what is not

  // Neither case nor the blanks around it matter to a day or a range of days.
  lemma ChunkForgives(chunk: string)
    ensures ChunkDays(chunk) == ChunkDays(Lower(Strip(chunk)))
  {
    StripTrims(chunk);
    var c := Lower(Strip(chunk));
    StripKeeps(c);
    assert Lower(c) == c;
  }

  // A chunk is read exactly if it is a day, or two days with a hyphen between them.
  lemma ChunkReadIff(chunk: string)
    requires Lower(chunk) == chunk && Trimmed(chunk)
    ensures ChunkDays(chunk).Some? <==>
      IsDayName(chunk) || exists a, b :: 0 <= a < 7 && 0 <= b < 7 && chunk == DayName(a) + "-" + DayName(b)
  {
    hide Lower, Trimmed, DayName, RangeDays, Strip;
    StripKeeps(chunk);
    if a, b :| 0 <= a < 7 && 0 <= b < 7 && chunk == DayName(a) + "-" + DayName(b) {
      assert chunk[|DayName(a)|] == '-';
    }
    if '-' in chunk {
      var (first, last) := Partition(chunk, '-');
      var k := FirstIndex(chunk, '-');
      assert chunk == first + "-" + last;
      DayIndexIff(first);
      DayIndexIff(last);
      if IsDayName(chunk) {
        var d :| 0 <= d < 7 && chunk == DayName(d);
        NameText(d);
      }
      if a, b :| 0 <= a < 7 && 0 <= b < 7 && chunk == DayName(a) + "-" + DayName(b) {
        NameText(a);
        NameText(b);
        assert chunk == DayName(a) + ['-'] + DayName(b);
        PartitionAt(DayName(a), '-', DayName(b));
      }
    } else {
      DayIndexIff(chunk);
    }
  }

  lemma DayIndexIff(s: string)
    ensures DayIndex(s).Some? <==> IsDayName(s)
    ensures DayIndex(s).Some? ==> s == DayName(DayIndex(s).value)
  {
    forall d | 0 <= d < 7 ensures DayIndex(DayName(d)) == Some(d) { NameText(d); }
    if DayIndex(s).Some? { assert s == DayName(DayIndex(s).value); }
  }

  // A list of days that is read names some: "no days" is never the reason.
  lemma {:induction false} DaysAreSome(chunks: seq<string>)
    requires |chunks| > 0 && AllDays(chunks).Some?
    ensures AllDays(chunks).value != {}
  {
    hide Strip, Lower;
    var c := Lower(Strip(chunks[|chunks|-1]));
    if '-' in c {
      var (first, last) := Partition(c, '-');
      RangeGoesForward(DayIndex(first).value, DayIndex(last).value, DayIndex(first).value);
    }
    assert ChunkDays(chunks[|chunks|-1]).value != {};
  }

  // An entry that has its four parts is valid exactly if there is a name and each part can be
  // read; the first that cannot is the reason it is not.
  lemma PartsRead(expression: string, who: string, days: string, start: string, end: string)
    requires Strip(expression) == who + "@" + days + "=" + start + "-" + end
    requires '@' !in who && '=' !in days && '-' !in start
    ensures var e, wanted := ParseEntry(expression), AllDays(Split(days, ','));
      && e.raw == Strip(expression)
      && (e.valid <==> Strip(who) != "" && end != "" && wanted.Some?
                       && ParseTime(start).Some? && ParseTime(end).Some?)
      && (e.valid ==> e.who == Strip(who) && e.days == wanted.value
                      && e.start == ParseTime(start).value && e.end == ParseTime(end).value)
      && e.error == (if Strip(who) == "" then Some(MissingName)
                     else if end == "" then Some(OpenWindow)
                     else if wanted.None? then Some(UnknownDay)
                     else if ParseTime(start).None? || ParseTime(end).None? then Some(NotATime)
                     else None)
  {
    hide AllDays, ParseTime, Strip, Split;
    var window := start + "-" + end;
    var rest := days + "=" + window;
    assert Strip(expression) == who + ['@'] + rest;
    assert rest == days + ['='] + window && window == start + ['-'] + end;
    PartitionAt(who, '@', rest);
    PartitionAt(days, '=', window);
    PartitionAt(start, '-', end);
    if AllDays(Split(days, ',')).Some? { DaysAreSome(Split(days, ',')); }
  }

  lemma NoPartition(s: string, c: char)
    requires c !in s
    ensures Partition(s, c) == (s, "")
  {
  }

  // Without a part, the entry is a blank one with the reason: no name, no window, or a window
  // with one end.
  lemma PartsMissing(expression: string, who: string, days: string, window: string)
    requires '@' !in who && '=' !in days && '-' !in window
    requires var raw := Strip(expression);
      raw == who || raw == who + "@" + days || raw == who + "@" + days + "=" + window
    ensures ParseEntry(expression) == Entry(Strip(expression), "", {}, 0, 23 * 60 + 59, false,
      Some(if Strip(who) == "" then MissingName
           else if Strip(expression) == who + "@" + days + "=" + window && window != "" then OpenWindow
           else MissingWindow))
  {
    hide AllDays, ParseTime, Strip, Split, Partition;
    var raw := Strip(expression);
    NoPartition("", '=');
    NoPartition("", '-');
    if raw == who {
      NoPartition(who, '@');
    } else if raw == who + "@" + days {
      assert raw == who + ['@'] + days;
      PartitionAt(who, '@', days);
      NoPartition(days, '=');
    } else {
      NoPartition(window, '-');
      var rest := days + "=" + window;
      assert raw == who + ['@'] + rest && rest == days + ['='] + window;
      PartitionAt(who, '@', rest);
      PartitionAt(days, '=', window);
    }
  }
}
