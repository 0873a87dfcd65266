/** What stripping a text and its lookup form are, said without recursion. */
module TextMeaning {
  import opened Text

  predicate Blank(s: string) { forall i :: 0 <= i < |s| ==> IsSpace(s[i]) }

  predicate Word(s: string) { s != [] && forall i :: 0 <= i < |s| ==> !IsSpace(s[i]) }

  /** No white space at either end. */
  predicate Bare(s: string) { s == [] || (!IsSpace(s[0]) && !IsSpace(s[|s| - 1])) }

  lemma {:induction false} LStripBlanks(a: string, s: string)
    requires Blank(a) && (s == [] || !IsSpace(s[0]))
    ensures LStrip(a + s) == s
  {
    if a == [] {
      assert a + s == s;
    } else {
      assert (a + s)[1..] == a[1..] + s;
      LStripBlanks(a[1..], s);
    }
  }

  lemma {:induction false} RStripBlanks(s: string, b: string)
    requires Blank(b) && (s == [] || !IsSpace(s[|s| - 1]))
    ensures RStrip(s + b) == s
  {
    if b == [] {
      assert s + b == s;
    } else {
      assert (s + b)[..|s + b| - 1] == s + b[..|b| - 1];
      RStripBlanks(s, b[..|b| - 1]);
    }
  }

  lemma {:induction false} LStripCuts(s: string) returns (a: string)
    ensures Blank(a) && s == a + LStrip(s) && (LStrip(s) == [] || !IsSpace(LStrip(s)[0]))
  {
    a := [];
    if s != [] && IsSpace(s[0]) {
      a := LStripCuts(s[1..]);
      a := [s[0]] + a;
    }
  }

  lemma {:induction false} RStripCuts(s: string) returns (b: string)
    ensures Blank(b) && s == RStrip(s) + b && (RStrip(s) == [] || !IsSpace(RStrip(s)[|RStrip(s)| - 1]))
  {
    b := [];
    if s != [] && IsSpace(s[|s| - 1]) {
      b := RStripCuts(s[..|s| - 1]);
      b := b + [s[|s| - 1]];
    }
  }

  /** Stripping gives exactly what is left when all white space at both ends is cut off. */
  lemma StripIff(s: string, t: string)
    ensures Strip(s) == t <==> Bare(t) && exists a, b :: Blank(a) && Blank(b) && s == a + t + b
  {
    if Strip(s) == t {
      var a := LStripCuts(s);
      var b := RStripCuts(LStrip(s));
      assert s == a + t + b;
      assert t != [] ==> t[0] == LStrip(s)[0];
    }
    if a, b :| Bare(t) && Blank(a) && Blank(b) && s == a + t + b {
      if t == [] {
        assert s == (a + b) + [];
        LStripBlanks(a + b, []);
      } else {
        assert s == a + (t + b);
        LStripBlanks(a, t + b);
        RStripBlanks(t, b);
      }
    }
  }

  lemma {:induction false} WordsOfWord(u: string, rest: string)
    requires Word(u) && Ends(rest)
    ensures WordLength(u + rest) == |u|
    ensures Words(u + rest) == [u] + Words(rest)
  {
    WordLengthOf(u, rest);
    assert (u + rest)[0] == u[0];
    assert (u + rest)[..|u|] == u && (u + rest)[|u|..] == rest;
  }

  lemma {:induction false} WordLengthOf(u: string, rest: string)
    requires (forall i :: 0 <= i < |u| ==> !IsSpace(u[i])) && Ends(rest)
    ensures WordLength(u + rest) == |u|
  {
    if u == [] {
      assert u + rest == rest;
    } else {
      assert (u + rest)[1..] == u[1..] + rest;
      WordLengthOf(u[1..], rest);
    }
  }

  lemma {:induction false} WordsAfterBlank(a: string, s: string)
    requires Blank(a)
    ensures Words(a + s) == Words(s)
  {
    if a == [] {
      assert a + s == s;
    } else {
      assert (a + s)[1..] == a[1..] + s;
      WordsAfterBlank(a[1..], s);
    }
  }

  lemma {:induction false} FoldConcat(fold: char -> string, a: string, b: string)
    ensures Fold(fold, a + b) == Fold(fold, a) + Fold(fold, b)
  {
    if a == [] {
      assert a + b == b;
    } else {
      assert (a + b)[1..] == a[1..] + b;
      FoldConcat(fold, a[1..], b);
    }
  }

  /** Nothing, or something that begins with white space. */
  predicate Ends(s: string) { s == [] || IsSpace(s[0]) }

  lemma NormalizeBlank(fold: char -> string, a: string)
    requires Blank(a)
    ensures Normalize(fold, a) == []
  {
    WordsAfterBlank(a, []);
    assert a + [] == a;
  }

  /** Word by word: the folded words with one folded blank between them, whatever white
      space there was. */
  lemma NormalizeWord(fold: char -> string, a: string, u: string, rest: string)
    requires Blank(a) && Word(u) && Ends(rest)
    ensures Normalize(fold, a + u + rest)
         == if Blank(rest) then Fold(fold, u) else Fold(fold, u) + Fold(fold, " ") + Normalize(fold, rest)
  {
    assert a + u + rest == a + (u + rest);
    WordsAfterBlank(a, u + rest);
    WordsOfWord(u, rest);
    if Blank(rest) {
      WordsAfterBlank(rest, []);
      assert rest + [] == rest;
    } else {
      WordsNonEmpty(rest);
      FoldConcat(fold, u + " ", JoinWords(Words(rest)));
      FoldConcat(fold, u, " ");
      assert ([u] + Words(rest))[1..] == Words(rest);
    }
  }
}
