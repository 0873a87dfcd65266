/** The importers' text handling: `strip`, `split` on white space and the lookup
    form of a name. Case folding maps each character to a string and is a
    parameter, since the folding table belongs to Python. */
module Text {
  predicate IsSpace(c: char) {
    var n := c as int;
    || 9 <= n <= 13 || 28 <= n <= 32 || n == 0x85 || n == 0xA0 || n == 0x1680
    || 0x2000 <= n <= 0x200A || n == 0x2028 || n == 0x2029 || n == 0x202F || n == 0x205F || n == 0x3000
  }

  function LStrip(s: string): string {
    if s != [] && IsSpace(s[0]) then LStrip(s[1..]) else s
  }

  function RStrip(s: string): string {
    if s != [] && IsSpace(s[|s| - 1]) then RStrip(s[..|s| - 1]) else s
  }

  function Strip(s: string): string { RStrip(LStrip(s)) }

  /** Length of the word `s` starts with. */
  function WordLength(s: string): (n: nat)
    ensures n <= |s|
  {
    if s == [] || IsSpace(s[0]) then 0 else 1 + WordLength(s[1..])
  }

  function Words(s: string): seq<string> {
    if s == [] then []
    else if IsSpace(s[0]) then Words(s[1..])
    else [s[..WordLength(s)]] + Words(s[WordLength(s)..])
  }

  function JoinWords(words: seq<string>): string {
    if words == [] then []
    else if |words| == 1 then words[0]
    else words[0] + " " + JoinWords(words[1..])
  }

  function Fold(fold: char -> string, s: string): string {
    if s == [] then [] else fold(s[0]) + Fold(fold, s[1..])
  }

  /** The form under which names are compared. */
  function Normalize(fold: char -> string, s: string): string {
    Fold(fold, JoinWords(Words(s)))
  }

  lemma {:induction false} WordsOfLStrip(s: string)
    ensures Words(LStrip(s)) == Words(s)
  {
    if s != [] && IsSpace(s[0]) {
      WordsOfLStrip(s[1..]);
    }
  }

  lemma {:induction false} WordLengthPrefix(s: string, c: char)
    requires IsSpace(c)
    ensures WordLength(s + [c]) == WordLength(s)
  {
    if s != [] {
      assert (s + [c])[1..] == s[1..] + [c];
      WordLengthPrefix(s[1..], c);
    }
  }

  lemma {:induction false} TrailingSpace(s: string, c: char)
    requires IsSpace(c)
    ensures Words(s + [c]) == Words(s)
    decreases |s|
  {
    if s == [] {
      assert ([] + [c])[1..] == [];
    } else if IsSpace(s[0]) {
      assert (s + [c])[1..] == s[1..] + [c];
      TrailingSpace(s[1..], c);
    } else {
      var n := WordLength(s);
      WordLengthPrefix(s, c);
      assert (s + [c])[..n] == s[..n] && (s + [c])[n..] == s[n..] + [c];
      TrailingSpace(s[n..], c);
    }
  }

  lemma {:induction false} WordsOfRStrip(s: string)
    ensures Words(RStrip(s)) == Words(s)
    decreases |s|
  {
    if s != [] && IsSpace(s[|s| - 1]) {
      var t := s[..|s| - 1];
      assert s == t + [s[|s| - 1]];
      TrailingSpace(t, s[|s| - 1]);
      WordsOfRStrip(t);
    }
  }

  /** Stripping first does not change the form a name is compared under. */
  lemma NormalizeStrip(fold: char -> string, s: string)
    ensures Normalize(fold, Strip(s)) == Normalize(fold, s)
  {
    WordsOfLStrip(s);
    WordsOfRStrip(LStrip(s));
  }

  lemma {:induction false} WordsNonEmpty(s: string)
    requires exists i :: 0 <= i < |s| && !IsSpace(s[i])
    ensures Words(s) != [] && Words(s)[0] != []
    decreases |s|
  {
    if IsSpace(s[0]) {
      var i :| 0 <= i < |s| && !IsSpace(s[i]);
      assert s[1..][i - 1] == s[i];
      WordsNonEmpty(s[1..]);
    }
  }

  lemma {:induction false} StripBlank(s: string)
    requires forall i :: 0 <= i < |s| ==> IsSpace(s[i])
    ensures LStrip(s) == []
  {
    if s != [] {
      StripBlank(s[1..]);
    }
  }

  /** A name that is not blank has a non-empty lookup form, if folding never erases a character. */
  lemma NormalizeNonEmpty(fold: char -> string, s: string)
    requires Strip(s) != [] && forall c :: fold(c) != []
    ensures Normalize(fold, s) != []
  {
    if forall i :: 0 <= i < |s| ==> IsSpace(s[i]) {
      StripBlank(s);
    } else {
      WordsNonEmpty(s);
      var joined := JoinWords(Words(s));
      assert joined != [];
    }
  }
}
