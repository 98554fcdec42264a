/**
 How text becomes the tokens that are counted.
 */
module Bm25Tokens {

  // Case folding by character, what a token is made of, and the words that are dropped.
  datatype Lexer = Lexer(fold: char -> string, word: char -> bool, stop: set<string>)

  function Folded(fold: char -> string, s: string): string {
    if s == [] then [] else Folded(fold, s[..|s|-1]) + fold(s[|s|-1])
  }

  // One more character: it lengthens the last word, starts one, or is no part of any.
  function Longer(word: char -> bool, before: seq<string>, joins: bool, c: char): seq<string>
    requires joins ==> before != []
  {
    if !word(c) then before
    else if joins then before[..|before|-1] + [before[|before|-1] + [c]]
    else before + [[c]]
  }

  predicate EndsInWord(word: char -> bool, s: string) { s != [] && word(s[|s|-1]) }

  // The maximal runs of word characters, in order.
  function Words(word: char -> bool, s: string): (r: seq<string>)
    ensures EndsInWord(word, s) ==> r != []
  {
    if s == [] then [] else Longer(word, Words(word, s[..|s|-1]), EndsInWord(word, s[..|s|-1]), s[|s|-1])
  }

  function Kept(stop: set<string>, tokens: seq<string>): seq<string> {
    if tokens == [] then []
    else
      var rest, t := Kept(stop, tokens[..|tokens|-1]), tokens[|tokens|-1];
      if t in stop then rest else rest + [t]
  }

  function Tokenise(lexer: Lexer, text: string): seq<string> {
    Kept(lexer.stop, Words(lexer.word, Folded(lexer.fold, text)))
  }

  predicate IsToken(lexer: Lexer, t: string) {
    t != [] && t !in lexer.stop && forall i :: 0 <= i < |t| ==> lexer.word(t[i])
  }

  predicate IsWord(word: char -> bool, w: string) {
    w != [] && forall i :: 0 <= i < |w| ==> word(w[i])
  }

  ghost predicate AllWords(word: char -> bool, ws: seq<string>) {
    forall i :: 0 <= i < |ws| ==> IsWord(word, ws[i])
  }

  lemma LongerAreWords(word: char -> bool, before: seq<string>, joins: bool, c: char)
    requires AllWords(word, before) && (joins ==> before != [])
    ensures AllWords(word, Longer(word, before, joins, c))
  {
    if word(c) && joins {
      var last := before[|before|-1];
      assert IsWord(word, last);
      assert IsWord(word, last + [c]);
    }
  }

  lemma {:induction false} WordsAreWords(word: char -> bool, s: string)
    ensures AllWords(word, Words(word, s))
  {
    if s != [] {
      WordsAreWords(word, s[..|s|-1]);
      LongerAreWords(word, Words(word, s[..|s|-1]), EndsInWord(word, s[..|s|-1]), s[|s|-1]);
    }
  }

  lemma {:induction false} KeptAre(stop: set<string>, tokens: seq<string>)
    ensures forall t :: t in Kept(stop, tokens) <==> t in tokens && t !in stop
  {
    if tokens != [] {
      KeptAre(stop, tokens[..|tokens|-1]);
      assert tokens == tokens[..|tokens|-1] + [tokens[|tokens|-1]];
    }
  }

  // A token is a non-empty run of word characters that is not a stop word.
  lemma TokensAreTokens(lexer: Lexer, text: string)
    ensures forall t :: t in Tokenise(lexer, text) ==> IsToken(lexer, t)
  {
    var ws := Words(lexer.word, Folded(lexer.fold, text));
    WordsAreWords(lexer.word, Folded(lexer.fold, text));
    KeptAre(lexer.stop, ws);
    forall t | t in Tokenise(lexer, text) ensures IsToken(lexer, t) {
      var i :| 0 <= i < |ws| && ws[i] == t;
      assert IsWord(lexer.word, ws[i]);
    }
  }

  lemma LongerAfter(word: char -> bool, a: seq<string>, before: seq<string>, joins: bool, c: char)
    requires joins ==> before != []
    ensures Longer(word, a + before, joins, c) == a + Longer(word, before, joins, c)
  {
    if word(c) && joins {
      assert (a + before)[..|a + before| - 1] == a + before[..|before|-1];
    }
  }

  lemma {:induction false} WordsApart(word: char -> bool, a: string, gap: char, b: string)
    requires !word(gap)
    ensures Words(word, a + [gap] + b) == Words(word, a) + Words(word, b)
  {
    hide Longer;
    var s := a + [gap] + b;
    if b == [] {
      assert s[..|s|-1] == a && s[|s|-1] == gap;
      assert Longer(word, Words(word, a), EndsInWord(word, a), gap) == Words(word, a)
          by { GapAddsNothing(word, a, gap); }
    } else {
      assert s[..|s|-1] == a + [gap] + b[..|b|-1] && s[|s|-1] == b[|b|-1];
      WordsApart(word, a, gap, b[..|b|-1]);
      LongerAfter(word, Words(word, a), Words(word, b[..|b|-1]), EndsInWord(word, b[..|b|-1]), b[|b|-1]);
      assert EndsInWord(word, s[..|s|-1]) == EndsInWord(word, b[..|b|-1]);
    }
  }

  lemma GapAddsNothing(word: char -> bool, a: string, gap: char)
    requires !word(gap)
    ensures Longer(word, Words(word, a), EndsInWord(word, a), gap) == Words(word, a)
  {
  }

  lemma {:induction false} FoldedConcat(fold: char -> string, a: string, b: string)
    ensures Folded(fold, a + b) == Folded(fold, a) + Folded(fold, b)
  {
    if b == [] {
      assert a + b == a;
    } else {
      assert (a + b)[..|a + b| - 1] == a + b[..|b|-1];
      FoldedConcat(fold, a, b[..|b|-1]);
    }
  }

  lemma {:induction false} KeptConcat(stop: set<string>, a: seq<string>, b: seq<string>)
    ensures Kept(stop, a + b) == Kept(stop, a) + Kept(stop, b)
  {
    if b == [] {
      assert a + b == a;
    } else {
      assert (a + b)[..|a + b| - 1] == a + b[..|b|-1];
      KeptConcat(stop, a, b[..|b|-1]);
    }
  }

  // Two texts joined by a space have the tokens of the one and then of the other: no token
  // straddles two fields of a document.
  lemma TokensApart(lexer: Lexer, a: string, b: string)
    requires lexer.fold(' ') == " " && !lexer.word(' ')
    ensures Tokenise(lexer, a + " " + b) == Tokenise(lexer, a) + Tokenise(lexer, b)
  {
    var fa, fb := Folded(lexer.fold, a), Folded(lexer.fold, b);
    FoldedConcat(lexer.fold, a + " ", b);
    FoldedConcat(lexer.fold, a, " ");
    assert Folded(lexer.fold, " ") == " " by { assert " "[..0] == ""; }
    WordsApart(lexer.word, fa, ' ', fb);
    KeptConcat(lexer.stop, Words(lexer.word, fa), Words(lexer.word, fb));
  }

  lemma {:induction false} OneWord(word: char -> bool, w: string)
    requires IsWord(word, w)
    ensures Words(word, w) == [w]
  {
    var n := |w| - 1;
    if n == 0 {
      assert w[..0] == "" && w == [w[0]];
      assert Words(word, w[..0]) == [];
    } else {
      assert IsWord(word, w[..n]) by { forall i | 0 <= i < n ensures word(w[..n][i]) { assert w[..n][i] == w[i]; } }
      OneWord(word, w[..n]);
      assert w == w[..n] + [w[n]];
    }
  }

  // A word is one token, as it is folded, unless it is a stop word.
  lemma WordIsOneToken(lexer: Lexer, text: string)
    requires IsWord(lexer.word, Folded(lexer.fold, text))
    ensures var w := Folded(lexer.fold, text);
      Tokenise(lexer, text) == if w in lexer.stop then [] else [w]
  {
    var w := Folded(lexer.fold, text);
    OneWord(lexer.word, w);
    assert [w][..0] == [] && [] + [w] == [w];
    assert Kept(lexer.stop, [w][..0]) == [];
  }

  lemma NoText(lexer: Lexer)
    ensures Tokenise(lexer, "") == []
  {
  }
}
