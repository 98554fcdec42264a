/**
 The canonical spelling of a team, a service and a model.
 */
module Labels {
  import opened Strings

  // Each run of letters starts with a capital and goes on in lower case.
  function Title(s: string): (r: string)
    ensures |r| == |s|
    ensures forall i :: 0 <= i < |s| ==>
      r[i] == if i > 0 && Letter(s[i-1]) then LowerChar(s[i]) else UpperChar(s[i])
  {
    seq(|s|, i requires 0 <= i < |s| => if i > 0 && Letter(s[i-1]) then LowerChar(s[i]) else UpperChar(s[i]))
  }

  predicate Gap(c: char) { Blank(c) || c == '_' }

  // Each run of blanks and underscores becomes one hyphen.
  function Hyphenate(s: string): string {
    if s == [] then []
    else
      var init, c := s[..|s|-1], s[|s|-1];
      if !Gap(c) then Hyphenate(init) + [c]
      else if init != [] && Gap(init[|init|-1]) then Hyphenate(init)
      else Hyphenate(init) + ['-']
  }

  function CanonTeam(s: string): string { Title(Strip(s)) }

  function CanonService(s: string): string { Hyphenate(Lower(Strip(s))) }

  function CanonModel(s: string): string { Lower(Strip(s)) }

  predicate NoGaps(s: string) { forall i :: 0 <= i < |s| ==> !Gap(s[i]) }

  predicate AllLower(s: string) { forall i :: 0 <= i < |s| ==> !UpperLetter(s[i]) }

  lemma {:induction false} HyphenateRemovesGaps(s: string)
    ensures NoGaps(Hyphenate(s)) && (AllLower(s) ==> AllLower(Hyphenate(s)))
  {
    if s != [] {
      HyphenateRemovesGaps(s[..|s|-1]);
      assert AllLower(s) ==> AllLower(s[..|s|-1]);
    }
  }

  lemma {:induction false} HyphenateKeeps(s: string)
    requires NoGaps(s)
    ensures Hyphenate(s) == s
  {
    if s != [] {
      HyphenateKeeps(s[..|s|-1]);
      assert s == s[..|s|-1] + [s[|s|-1]];
    }
  }

  lemma TitleTwice(s: string)
    requires Trimmed(s)
    ensures Trimmed(Title(s)) && Title(Title(s)) == Title(s)
  {
    hide Letter, LowerChar, UpperChar, Blank;
    var t := Title(s);
    forall i | 0 <= i < |s| ensures Letter(t[i]) == Letter(s[i]) && Blank(t[i]) == Blank(s[i]) {
      CaseKeepsKind(s[i]);
    }
    forall i | 0 <= i < |s| ensures Title(t)[i] == t[i] {
      CaseKeepsKind(s[i]);
      assert i > 0 ==> Letter(t[i-1]) == Letter(s[i-1]);
    }
  }

  lemma CaseKeepsKind(c: char)
    ensures Letter(LowerChar(c)) == Letter(UpperChar(c)) == Letter(c)
    ensures Blank(LowerChar(c)) == Blank(UpperChar(c)) == Blank(c)
    ensures LowerChar(LowerChar(c)) == LowerChar(c) && UpperChar(UpperChar(c)) == UpperChar(c)
  {
  }

  lemma LowerTwice(s: string)
    requires Trimmed(s)
    ensures Trimmed(Lower(s)) && AllLower(Lower(s)) && Lower(Lower(s)) == Lower(s)
  {
  }

  lemma LowerKeeps(s: string)
    requires AllLower(s)
    ensures Lower(s) == s
  {
  }

  lemma NoGapsIsTrimmed(s: string)
    requires NoGaps(s)
    ensures Trimmed(s)
  {
  }

  // A canonical label is its own canonical form.
  lemma CanonTwice(s: string)
    ensures CanonTeam(CanonTeam(s)) == CanonTeam(s)
    ensures CanonService(CanonService(s)) == CanonService(s)
    ensures CanonModel(CanonModel(s)) == CanonModel(s)
  {
    hide Strip, Trimmed, Title, Hyphenate, Lower, AllLower, NoGaps;
    StripTrims(s);
    var t, l := Title(Strip(s)), Lower(Strip(s));
    TitleTwice(Strip(s));
    StripKeeps(t);
    LowerTwice(Strip(s));
    StripKeeps(l);
    var h := Hyphenate(l);
    HyphenateRemovesGaps(l);
    NoGapsIsTrimmed(h);
    StripKeeps(h);
    LowerKeeps(h);
    HyphenateKeeps(h);
  }

  // --------------------------------------------------------- spellings of one label

  // The same but for the case of its letters.
  predicate SameLetters(a: string, b: string) {
    |a| == |b| && forall i :: 0 <= i < |a| ==> LowerChar(a[i]) == LowerChar(b[i])
  }

  lemma SameKind(c: char, d: char)
    requires LowerChar(c) == LowerChar(d)
    ensures UpperChar(c) == UpperChar(d) && Letter(c) == Letter(d) && Blank(c) == Blank(d)
  {
  }

  lemma {:induction false} StripSameLetters(a: string, b: string)
    requires SameLetters(a, b)
    ensures SameLetters(Strip(a), Strip(b))
    decreases |a|
  {
    if a != [] {
      SameKind(a[0], b[0]);
      SameKind(a[|a|-1], b[|b|-1]);
      if Blank(a[0]) {
        StripSameLetters(a[1..], b[1..]);
      } else if Blank(a[|a|-1]) {
        StripSameLetters(a[..|a|-1], b[..|b|-1]);
      }
    }
  }

  // Labels that differ in case alone have one canonical form.
  lemma CaseDoesNotMatter(a: string, b: string)
    requires SameLetters(a, b)
    ensures CanonTeam(a) == CanonTeam(b) && CanonService(a) == CanonService(b) && CanonModel(a) == CanonModel(b)
  {
    StripSameLetters(a, b);
    var s, t := Strip(a), Strip(b);
    assert Lower(s) == Lower(t);
    forall i | 0 <= i < |s| ensures Title(s)[i] == Title(t)[i] {
      SameKind(s[i], t[i]);
      if i > 0 { SameKind(s[i-1], t[i-1]); }
    }
    assert Title(s) == Title(t);
  }

  predicate Word(s: string) { s != "" && NoGaps(s) }

  predicate AllGaps(s: string) { s != "" && forall i :: 0 <= i < |s| ==> Gap(s[i]) }

  lemma {:induction false} HyphenateRun(a: string, g: string)
    requires Word(a) && AllGaps(g)
    ensures Hyphenate(a + g) == a + "-"
  {
    var s, n := a + g, |g| - 1;
    assert s[|s|-1] == g[n] && s[..|s|-1] == a + g[..n];
    if n == 0 {
      assert a + g[..0] == a;
      HyphenateKeeps(a);
    } else {
      assert AllGaps(g[..n]) by { forall i | 0 <= i < n ensures Gap(g[..n][i]) { assert g[..n][i] == g[i]; } }
      HyphenateRun(a, g[..n]);
      assert (a + g[..n])[|a| + n - 1] == g[n-1];
    }
  }

  lemma {:induction false} HyphenateAfter(a: string, b: string)
    requires NoGaps(b)
    ensures Hyphenate(a + b) == Hyphenate(a) + b
  {
    if b == "" {
      assert a + b == a;
    } else {
      var n, s := |b| - 1, a + b;
      assert s[|s|-1] == b[n] && s[..|s|-1] == a + b[..n];
      HyphenateAfter(a, b[..n]);
      assert b == b[..n] + [b[n]];
    }
  }

  lemma LowerWords(a: string, g: string, b: string)
    requires Word(a) && AllGaps(g) && Word(b)
    ensures Lower(a + g + b) == Lower(a) + Lower(g) + Lower(b)
    ensures Word(Lower(a)) && AllGaps(Lower(g)) && Word(Lower(b)) && Trimmed(a + g + b)
  {
    var s := a + g + b;
    assert s[0] == a[0] && s[|s|-1] == b[|b|-1];
    forall c: char ensures Gap(LowerChar(c)) == Gap(c) { CaseKeepsKind(c); }
  }

  // Whatever stands between the words of a service, blanks or underscores and however many, it
  // becomes one hyphen between the words in lower case.
  lemma WordsAreHyphenated(a: string, g: string, b: string)
    requires Word(a) && AllGaps(g) && Word(b)
    ensures CanonService(a + g + b) == Lower(a) + "-" + Lower(b)
  {
    hide Lower, Word, AllGaps, Trimmed;
    LowerWords(a, g, b);
    StripKeeps(a + g + b);
    HyphenateRun(Lower(a), Lower(g));
    WordHasNoGaps(Lower(b));
    HyphenateAfter(Lower(a) + Lower(g), Lower(b));
  }

  lemma WordHasNoGaps(s: string)
    requires Word(s)
    ensures NoGaps(s)
  {
  }

  // A canonical team starts every run of letters with its only capital; a canonical service or
  // model has none.
  lemma CanonicalForms(s: string)
    ensures AllLower(CanonModel(s)) && AllLower(CanonService(s)) && NoGaps(CanonService(s))
    ensures Titled(CanonTeam(s))
  {
    hide Strip, Lower, Hyphenate, Title, Titled;
    StripTrims(s);
    LowerTwice(Strip(s));
    HyphenateRemovesGaps(Lower(Strip(s)));
    TitleForm(Strip(s));
  }

  // Every run of letters starts with its only capital.
  predicate Titled(t: string) {
    forall i :: 0 <= i < |t| && Letter(t[i]) ==> (UpperLetter(t[i]) <==> i == 0 || !Letter(t[i-1]))
  }

  lemma TitleForm(u: string)
    ensures Titled(Title(u))
  {
    var t := Title(u);
    forall i | 0 <= i < |t| ensures Letter(t[i]) == Letter(u[i]) { CaseKeepsKind(u[i]); }
  }
}
