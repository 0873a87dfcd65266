/** Byte strings as the LRC crate sees them: search, decimal numbers and the
    trimming of Unicode white space, all on UTF-8 encoded text. */
module Bytes {
  import opened Options

  newtype byte = b: int | 0 <= b < 256
  type Bytes = seq<byte>

  const NEWLINE: byte := 10
  const SPACE: byte := 32
  const HASH: byte := 35
  const DOT: byte := 46
  const COLON: byte := 58
  const LBRACKET: byte := 91
  const RBRACKET: byte := 93

  /** Position of the first occurrence of `c`. */
  function FindByte(c: byte, s: Bytes): (r: Option<nat>)
    ensures r.Some? ==> r.value < |s| && s[r.value] == c && forall i :: 0 <= i < r.value ==> s[i] != c
    ensures r.None? ==> forall i :: 0 <= i < |s| ==> s[i] != c
  {
    FindFrom(c, s, 0)
  }

  function FindFrom(c: byte, s: Bytes, k: nat): (r: Option<nat>)
    requires k <= |s|
    ensures r.Some? ==> k <= r.value < |s| && s[r.value] == c && forall i :: k <= i < r.value ==> s[i] != c
    ensures r.None? ==> forall i :: k <= i < |s| ==> s[i] != c
    decreases |s| - k
  {
    if k == |s| then None else if s[k] == c then Some(k) else FindFrom(c, s, k + 1)
  }

  /** The first occurrence is known once everything before it is known. */
  lemma FindByteAt(c: byte, s: Bytes, k: nat)
    requires k < |s| && s[k] == c && forall i :: 0 <= i < k ==> s[i] != c
    ensures FindByte(c, s) == Some(k)
  {
    var r := FindByte(c, s);
  }

  // ---------- decimal numbers ----------

  predicate IsDigit(b: byte) { 48 <= b <= 57 }

  predicate AllDigits(s: Bytes) { forall i :: 0 <= i < |s| ==> IsDigit(s[i]) }

  function Value(s: Bytes): nat
    requires AllDigits(s)
  {
    if s == [] then 0 else Value(s[..|s| - 1]) * 10 + (s[|s| - 1] as int - 48)
  }

  /** A strict decimal parser: no sign, no blanks, at least one digit. */
  function ParseNat(s: Bytes): Option<nat> {
    if s != [] && AllDigits(s) then Some(Value(s)) else None
  }

  function Digit(n: nat): byte
    requires n < 10
  {
    (48 + n) as byte
  }

  function Digits(n: nat): (s: Bytes)
    ensures AllDigits(s) && s != []
  {
    if n < 10 then [Digit(n)] else Digits(n / 10) + [Digit(n % 10)]
  }

  function Zeros(n: nat): (s: Bytes)
    ensures AllDigits(s) && |s| == n
  {
    if n == 0 then [] else [48] + Zeros(n - 1)
  }

  /** The number `n` with leading zeros up to `width` digits. */
  function Padded(n: nat, width: nat): (s: Bytes)
    ensures AllDigits(s) && s != [] && |s| >= width
  {
    var d := Digits(n);
    Zeros(if |d| < width then width - |d| else 0) + d
  }

  function Pow10(k: nat): (p: nat)
    ensures p > 0
  {
    if k == 0 then 1 else 10 * Pow10(k - 1)
  }

  lemma {:induction false} ValueBound(s: Bytes)
    requires AllDigits(s)
    ensures Value(s) < Pow10(|s|)
  {
    if s != [] {
      ValueBound(s[..|s| - 1]);
    }
  }

  lemma {:induction false} ValueZeros(k: nat, s: Bytes)
    requires AllDigits(s)
    ensures AllDigits(Zeros(k) + s) && Value(Zeros(k) + s) == Value(s)
    decreases |s|, k
  {
    if s == [] {
      assert Zeros(k) + s == Zeros(k);
      if k > 0 {
        ZerosEndInZero(k);
        assert Zeros(k - 1) + [] == Zeros(k - 1);
        ValueZeros(k - 1, []);
      }
    } else {
      assert (Zeros(k) + s)[..|Zeros(k) + s| - 1] == Zeros(k) + s[..|s| - 1];
      ValueZeros(k, s[..|s| - 1]);
    }
  }

  lemma {:induction false} ZerosEndInZero(k: nat)
    requires k > 0
    ensures Zeros(k)[..k - 1] == Zeros(k - 1) && Zeros(k)[k - 1] == 48
  {
    if k > 1 {
      ZerosEndInZero(k - 1);
    }
  }

  lemma {:induction false} ValueOfDigits(n: nat)
    ensures Value(Digits(n)) == n
  {
    if n >= 10 {
      ValueOfDigits(n / 10);
      var s := Digits(n);
      assert s[..|s| - 1] == Digits(n / 10);
    } else {
      assert Digits(n)[..0] == [];
    }
  }

  lemma ParsePadded(n: nat, width: nat)
    ensures ParseNat(Padded(n, width)) == Some(n)
  {
    hide Digits, Value, Zeros, AllDigits;
    var d := Digits(n);
    ValueOfDigits(n);
    ValueZeros(if |d| < width then width - |d| else 0, d);
  }

  lemma {:induction false} DigitsLength(n: nat, k: nat)
    requires k > 0
    ensures |Digits(n)| <= k <==> n < Pow10(k)
    decreases k
  {
    if n < 10 {
      Pow10Grows(k);
    } else if k == 1 {
      assert Pow10(1) == 10;
    } else {
      DigitsLength(n / 10, k - 1);
    }
  }

  lemma {:induction false} Pow10Grows(k: nat)
    requires k > 0
    ensures Pow10(k) >= 10
  {
    if k > 1 {
      Pow10Grows(k - 1);
    }
  }

  // ---------- white space, as `str::trim` removes it ----------

  predicate Blank1(a: byte) { a == 32 || 9 <= a <= 13 }

  // U+0085 and U+00A0
  predicate Blank2(a: byte, b: byte) { a == 0xC2 && (b == 0x85 || b == 0xA0) }

  // U+1680, U+2000..U+200A, U+2028, U+2029, U+202F, U+205F, U+3000
  predicate Blank3(a: byte, b: byte, c: byte) {
    || (a == 0xE1 && b == 0x9A && c == 0x80)
    || (a == 0xE2 && b == 0x80 && (0x80 <= c <= 0x8A || c == 0xA8 || c == 0xA9 || c == 0xAF))
    || (a == 0xE2 && b == 0x81 && c == 0x9F)
    || (a == 0xE3 && b == 0x80 && c == 0x80)
  }

  /** Length of the white-space character `s` starts with, 0 if there is none. */
  function BlankHead(s: Bytes): (n: nat)
    ensures n <= |s|
  {
    if |s| >= 1 && Blank1(s[0]) then 1
    else if |s| >= 2 && Blank2(s[0], s[1]) then 2
    else if |s| >= 3 && Blank3(s[0], s[1], s[2]) then 3
    else 0
  }

  /** Length of the white-space character `s` ends with, 0 if there is none. */
  function BlankTail(s: Bytes): (n: nat)
    ensures n <= |s|
  {
    var n := |s|;
    if n >= 1 && Blank1(s[n - 1]) then 1
    else if n >= 2 && Blank2(s[n - 2], s[n - 1]) then 2
    else if n >= 3 && Blank3(s[n - 3], s[n - 2], s[n - 1]) then 3
    else 0
  }

  function TrimStart(s: Bytes): Bytes {
    if BlankHead(s) == 0 then s else TrimStart(s[BlankHead(s)..])
  }

  function TrimEnd(s: Bytes): Bytes {
    if BlankTail(s) == 0 then s else TrimEnd(s[..|s| - BlankTail(s)])
  }

  function Trim(s: Bytes): Bytes {
    TrimEnd(TrimStart(s))
  }

  /** `s` is white space through and through. */
  predicate Blanks(s: Bytes) {
    s == [] || (BlankHead(s) > 0 && Blanks(s[BlankHead(s)..]))
  }

  lemma {:induction false} BlanksConcat(a: Bytes, b: Bytes)
    requires Blanks(a) && Blanks(b)
    ensures Blanks(a + b)
  {
    if a == [] {
      assert a + b == b;
    } else {
      var k := BlankHead(a);
      assert (a + b)[k..] == a[k..] + b;
      BlanksConcat(a[k..], b);
    }
  }

  lemma {:induction false} TrimStartIsSuffix(s: Bytes)
    ensures var t := TrimStart(s);
            |t| <= |s| && t == s[|s| - |t|..] && Blanks(s[..|s| - |t|]) && BlankHead(t) == 0
  {
    hide BlankHead, Blanks;
    var k := BlankHead(s);
    NoBlanks(s);
    if k != 0 {
      TrimStartIsSuffix(s[k..]);
      FirstBlank(s);
      var n := |s| - |TrimStart(s)|;
      assert s[..n] == s[..k] + s[k..][..n - k];
      BlanksConcat(s[..k], s[k..][..n - k]);
    }
  }

  lemma FirstBlank(s: Bytes)
    ensures Blanks(s[..BlankHead(s)])
  {
    var c := s[..BlankHead(s)];
    assert c != [] ==> BlankHead(c) == |c|;
    assert c[|c|..] == [];
  }

  lemma LastBlank(s: Bytes)
    ensures Blanks(s[|s| - BlankTail(s)..])
  {
    var c := s[|s| - BlankTail(s)..];
    assert c != [] ==> BlankHead(c) == |c|;
    assert c[|c|..] == [];
  }

  lemma NoBlanks(s: Bytes)
    ensures Blanks(s[..0]) && Blanks(s[|s|..])
  {}

  lemma {:induction false} TrimEndIsPrefix(s: Bytes)
    ensures var t := TrimEnd(s);
            |t| <= |s| && t == s[..|t|] && Blanks(s[|t|..]) && BlankTail(t) == 0
  {
    hide BlankHead, BlankTail, Blanks;
    var n := |s| - BlankTail(s);
    LastBlank(s);
    NoBlanks(s);
    if n != |s| {
      TrimEndIsPrefix(s[..n]);
      var t := TrimEnd(s);
      assert s[|t|..] == s[..n][|t|..] + s[n..];
      BlanksConcat(s[..n][|t|..], s[n..]);
    }
  }

  /** Trimming cuts off white space only, and all of it, at both ends. */
  lemma TrimIsSlice(s: Bytes)
    ensures BlankHead(Trim(s)) == 0 && BlankTail(Trim(s)) == 0
    ensures exists i, j :: 0 <= i <= j <= |s| && Trim(s) == s[i..j] && Blanks(s[..i]) && Blanks(s[j..])
  {
    TrimStartIsSuffix(s);
    var t := TrimStart(s);
    TrimEndIsPrefix(t);
    var i, n := |s| - |t|, |Trim(s)|;
    assert Trim(s) == s[i..i + n] && t[n..] == s[i + n..];
  }
}
