/**
 Strings in the order the source sorts them in, by code point and a proper prefix
 first; and the trimming and case mapping of the ASCII letters.
 */
module Strings {

  predicate Less(a: string, b: string) {
    b != [] && (a == [] || a[0] < b[0] || (a[0] == b[0] && Less(a[1..], b[1..])))
  }

  lemma {:induction false} LessTotal(a: string, b: string)
    ensures Less(a, b) || a == b || Less(b, a)
  {
    if a != [] && b != [] && a[0] == b[0] {
      LessTotal(a[1..], b[1..]);
      assert a == [a[0]] + a[1..] && b == [b[0]] + b[1..];
    }
  }

  lemma {:induction false} LessAsymmetric(a: string, b: string)
    requires Less(a, b)
    ensures !Less(b, a) && a != b
  {
    if a != [] && a[0] == b[0] {
      LessAsymmetric(a[1..], b[1..]);
    }
  }

  lemma {:induction false} LessTransitive(a: string, b: string, c: string)
    requires Less(a, b) && Less(b, c)
    ensures Less(a, c)
  {
    if a != [] && a[0] == b[0] && b[0] == c[0] {
      LessTransitive(a[1..], b[1..], c[1..]);
    }
  }

  predicate Ascending(xs: seq<string>) {
    forall i, j :: 0 <= i < j < |xs| ==> Less(xs[i], xs[j])
  }

  // A sorted list of distinct strings with one more in it.
  function Insert(x: string, xs: seq<string>): (r: seq<string>)
    requires Ascending(xs)
    ensures Ascending(r)
    ensures forall y :: y in r <==> y == x || y in xs
  {
    if xs == [] then [x]
    else if xs[0] == x then xs
    else if Less(x, xs[0]) then
      assert forall i :: 0 <= i < |xs| ==> Less(x, xs[i]) by {
        forall i | 0 <= i < |xs| ensures Less(x, xs[i]) {
          if i > 0 { LessTransitive(x, xs[0], xs[i]); }
        }
      }
      [x] + xs
    else
      assert Less(xs[0], x) by { LessTotal(x, xs[0]); }
      var rest := Insert(x, xs[1..]);
      assert forall y :: y in rest ==> Less(xs[0], y) by {
        forall y | y in rest ensures Less(xs[0], y) {
          if y != x {
            var k :| 0 <= k < |xs[1..]| && xs[1..][k] == y;
            assert xs[k+1] == y;
          }
        }
      }
      assert xs == [xs[0]] + xs[1..];
      [xs[0]] + rest
  }

  // -------------------------------------------------------------------- trimming

  predicate Blank(c: char) { c in " \t\n\r" }

  function Strip(s: string): (r: string)
    ensures |r| <= |s|
  {
    if s == [] then s
    else if Blank(s[0]) then Strip(s[1..])
    else if Blank(s[|s|-1]) then Strip(s[..|s|-1])
    else s
  }

  predicate Trimmed(s: string) {
    s == [] || (!Blank(s[0]) && !Blank(s[|s|-1]))
  }

  lemma {:induction false} StripTrims(s: string)
    ensures Trimmed(Strip(s))
    decreases |s|
  {
    if s != [] {
      if Blank(s[0]) { StripTrims(s[1..]); } else if Blank(s[|s|-1]) { StripTrims(s[..|s|-1]); }
    }
  }

  lemma StripKeeps(s: string)
    requires Trimmed(s)
    ensures Strip(s) == s
  {
  }

  // ------------------------------------------------------------------------ case

  predicate UpperLetter(c: char) { 'A' <= c <= 'Z' }

  predicate LowerLetter(c: char) { 'a' <= c <= 'z' }

  predicate Letter(c: char) { UpperLetter(c) || LowerLetter(c) }

  function LowerChar(c: char): char { if UpperLetter(c) then (c as int + 32) as char else c }

  function UpperChar(c: char): char { if LowerLetter(c) then (c as int - 32) as char else c }

  function Lower(s: string): (r: string)
    ensures |r| == |s| && forall i :: 0 <= i < |s| ==> r[i] == LowerChar(s[i])
  {
    seq(|s|, i requires 0 <= i < |s| => LowerChar(s[i]))
  }

  // Trimming takes off blanks at both ends and nothing else.
  lemma {:induction false} StripCuts(s: string) returns (i: nat, j: nat)
    ensures i <= j <= |s| && Strip(s) == s[i..j]
    ensures forall k :: 0 <= k < |s| && (k < i || k >= j) ==> Blank(s[k])
    decreases |s|
  {
    if s == [] {
      i, j := 0, 0;
    } else if Blank(s[0]) {
      i, j := StripCuts(s[1..]);
      assert forall k :: 0 < k < |s| ==> s[1..][k-1] == s[k];
      assert s[1..][i..j] == s[i+1..j+1];
      i, j := i + 1, j + 1;
    } else if Blank(s[|s|-1]) {
      i, j := StripCuts(s[..|s|-1]);
      assert forall k :: 0 <= k < |s| - 1 ==> s[..|s|-1][k] == s[k];
      assert s[..|s|-1][i..j] == s[i..j];
    } else {
      i, j := 0, |s|;
    }
  }
}
