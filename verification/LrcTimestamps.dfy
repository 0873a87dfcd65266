/** Printed timestamps read back, and how long they are. */
module LrcTimestamps {
  import opened Options
  import opened Bytes
  import opened Lrc

  /** One more than the largest timestamp a printed tag can carry: six minute digits. */
  const LIMIT: nat := 60_000_000_000

  /** One more than any timestamp the parser can return: ten minute digits. */
  const PARSED_LIMIT: nat := 10_000_000_000 * 60_000 + 100_000

  lemma FixedWidth(n: nat, width: nat)
    requires width > 0 && n < Pow10(width)
    ensures |Padded(n, width)| == width
  {
    DigitsLength(n, width);
  }

  /** The three numbers of a printed timestamp. */
  lemma Parts(ts: nat)
    ensures |Padded((ts / 1000) % 60, 2)| == 2 && |Padded(ts % 1000, 3)| == 3
    ensures ParseNat(Padded(ts / 60_000, 2)) == Some(ts / 60_000)
    ensures ParseNat(Padded((ts / 1000) % 60, 2)) == Some((ts / 1000) % 60)
    ensures ParseNat(Padded(ts % 1000, 3)) == Some(ts % 1000)
    ensures ts == (ts / 60_000) * 60_000 + ((ts / 1000) % 60) * 1000 + ts % 1000
  {
    assert Pow10(2) == 100 && Pow10(3) == 1000;
    FixedWidth((ts / 1000) % 60, 2);
    FixedWidth(ts % 1000, 3);
    ParsePadded(ts / 60_000, 2);
    ParsePadded((ts / 1000) % 60, 2);
    ParsePadded(ts % 1000, 3);
    assert ts / 60_000 == (ts / 1000) / 60;
  }

  /** Every number of milliseconds survives printing and parsing. */
  lemma TimestampRoundTrip(ts: nat)
    ensures ParseTimestamp(FormatTimestamp(ts)) == Some(ts)
  {
    hide Padded, ParseNat, FindByte;
    Parts(ts);
    var m, s, f := Padded(ts / 60_000, 2), Padded((ts / 1000) % 60, 2), Padded(ts % 1000, 3);
    var stamp := FormatTimestamp(ts);
    assert stamp == m + [COLON] + s + [DOT] + f;
    FindByteAt(COLON, stamp, |m|);
    assert stamp[..|m|] == m;
    assert stamp[|m| + 1..] == s + [DOT] + f;
    var rest := s + [DOT] + f;
    assert rest[..2] == s && rest[3..] == f;
  }

  /** Which byte stands between seconds and fraction makes no difference. */
  lemma SeparatorIgnored(minutes: Bytes, seconds: Bytes, x: byte, y: byte, fraction: Bytes)
    requires COLON !in minutes && |seconds| == 2 && 1 <= |fraction| <= 3
    ensures ParseTimestamp(minutes + [COLON] + seconds + [x] + fraction)
         == ParseTimestamp(minutes + [COLON] + seconds + [y] + fraction)
  {
    hide ParseSeconds, ParseNat, FindByte;
    AtColon(minutes, seconds + [x] + fraction);
    AtColon(minutes, seconds + [y] + fraction);
    assert minutes + [COLON] + seconds + [x] + fraction == minutes + [COLON] + (seconds + [x] + fraction);
    assert minutes + [COLON] + seconds + [y] + fraction == minutes + [COLON] + (seconds + [y] + fraction);
    AroundSeparator(seconds, x, fraction);
    AroundSeparator(seconds, y, fraction);
  }

  lemma AtColon(minutes: Bytes, rest: Bytes)
    requires COLON !in minutes
    ensures ParseTimestamp(minutes + [COLON] + rest)
         == match (ParseNat(minutes), ParseSeconds(rest))
            case (Some(m), Some(ms)) => Some(m * 60_000 + ms)
            case _ => None
  {
    hide ParseSeconds, ParseNat;
    var s := minutes + [COLON] + rest;
    FindByteAt(COLON, s, |minutes|);
    assert s[..|minutes|] == minutes && s[|minutes| + 1..] == rest;
  }

  lemma AroundSeparator(seconds: Bytes, x: byte, fraction: Bytes)
    requires |seconds| == 2 && 1 <= |fraction| <= 3
    ensures ParseSeconds(seconds + [x] + fraction)
         == match (ParseNat(seconds), ParseNat(fraction))
            case (Some(s), Some(f)) =>
              Some(s * 1000 + f * (if |fraction| == 1 then 100 else if |fraction| == 2 then 10 else 1))
            case _ => None
  {
    hide ParseNat;
    var s := seconds + [x] + fraction;
    assert s[..2] == seconds && s[3..] == fraction;
  }

  /** The three parts of `mm:ss` (no fraction) or `mm:ss.f`, one to three digits long, with
      any byte for the dot. */
  ghost predicate Written(t: Bytes, minutes: Bytes, seconds: Bytes, fraction: Bytes) {
    && minutes != [] && AllDigits(minutes) && |seconds| == 2 && AllDigits(seconds)
    && |fraction| <= 3 && AllDigits(fraction)
    && if fraction == [] then t == minutes + [COLON] + seconds
       else exists dot :: t == minutes + [COLON] + seconds + [dot] + fraction
  }

  /** Milliseconds: a fraction counts tenths, hundredths or thousandths of a second. */
  function Millis(minutes: Bytes, seconds: Bytes, fraction: Bytes): nat
    requires AllDigits(minutes) && AllDigits(seconds) && AllDigits(fraction) && |fraction| <= 3
  {
    Value(minutes) * 60_000 + Value(seconds) * 1000 + Value(fraction) * Pow10(3 - |fraction|)
  }

  /** Exactly which bytes are a timestamp, and what each is worth. */
  lemma TimestampIff(t: Bytes, v: nat)
    ensures ParseTimestamp(t) == Some(v)
       <==> exists minutes, seconds, fraction ::
              Written(t, minutes, seconds, fraction) && v == Millis(minutes, seconds, fraction)
  {
    if ParseTimestamp(t) == Some(v) {
      var minutes, seconds, fraction := TimestampParts(t);
    }
    if minutes, seconds, fraction :|
      Written(t, minutes, seconds, fraction) && v == Millis(minutes, seconds, fraction)
    {
      WrittenValue(t, minutes, seconds, fraction);
    }
  }

  lemma TimestampParts(t: Bytes) returns (minutes: Bytes, seconds: Bytes, fraction: Bytes)
    requires ParseTimestamp(t).Some?
    ensures Written(t, minutes, seconds, fraction)
    ensures ParseTimestamp(t).value == Millis(minutes, seconds, fraction)
  {
    hide Value;
    PowersOfTen();
    var i := FindByte(COLON, t).value;
    minutes := t[..i];
    var rest := t[i + 1..];
    seconds := rest[..2];
    fraction := if |rest| == 2 then [] else rest[3..];
    assert |rest| == 2 ==> rest[..2] == rest;
    assert Value([]) == 0 by { NoDigits(); }
    assert |rest| > 2 ==> t == minutes + [COLON] + seconds + [rest[2]] + fraction;
    assert |rest| == 2 ==> t == minutes + [COLON] + seconds;
  }

  lemma PowersOfTen()
    ensures Pow10(0) == 1 && Pow10(1) == 10 && Pow10(2) == 100 && Pow10(3) == 1000
  {}

  lemma NoDigits()
    ensures Value([]) == 0
  {}

  lemma WrittenValue(t: Bytes, minutes: Bytes, seconds: Bytes, fraction: Bytes)
    requires Written(t, minutes, seconds, fraction)
    ensures ParseTimestamp(t) == Some(Millis(minutes, seconds, fraction))
  {
    hide Value, ParseSeconds, ParseTimestamp;
    PowersOfTen();
    NoDigits();
    assert COLON !in minutes;
    if fraction == [] {
      AtColon(minutes, seconds);
      assert ParseSeconds(seconds) == Some(Value(seconds) * 1000) by { OnlySeconds(seconds); }
    } else {
      var dot :| t == minutes + [COLON] + seconds + [dot] + fraction;
      assert t == minutes + [COLON] + (seconds + [dot] + fraction);
      AtColon(minutes, seconds + [dot] + fraction);
      AroundSeparator(seconds, dot, fraction);
    }
  }

  lemma OnlySeconds(seconds: Bytes)
    requires |seconds| == 2 && AllDigits(seconds)
    ensures ParseSeconds(seconds) == Some(Value(seconds) * 1000)
  {}

  /** Shorter forms mean the same as filling the fraction up with zeros, digits or not. */
  lemma ShortForms(minutes: Bytes, seconds: Bytes, x: byte, fraction: Bytes)
    requires COLON !in minutes && |seconds| == 2 && |fraction| <= 2
    ensures ParseTimestamp(minutes + [COLON] + seconds + [x] + (fraction + [48]))
         == if fraction == [] then ParseTimestamp(minutes + [COLON] + seconds)
            else ParseTimestamp(minutes + [COLON] + seconds + [x] + fraction)
  {
    hide ParseTimestamp, ParseNat;
    var zero: Bytes := fraction + [48];
    assert minutes + [COLON] + seconds + [x] + zero == minutes + [COLON] + (seconds + [x] + zero);
    assert minutes + [COLON] + seconds + [x] + fraction == minutes + [COLON] + (seconds + [x] + fraction);
    AtColon(minutes, seconds + [x] + zero);
    AroundSeparator(seconds, x, zero);
    ZeroAtEnd(fraction);
    if fraction == [] {
      AtColon(minutes, seconds);
    } else {
      AtColon(minutes, seconds + [x] + fraction);
      AroundSeparator(seconds, x, fraction);
    }
  }

  lemma ZeroAtEnd(fraction: Bytes)
    ensures ParseNat(fraction + [48])
         == if fraction == [] then Some(0)
            else if ParseNat(fraction).Some? then Some(10 * ParseNat(fraction).value) else None
  {
    var s: Bytes := fraction + [48];
    assert s[..|fraction|] == fraction;
    assert forall i :: 0 <= i < |fraction| ==> s[i] == fraction[i];
    assert s[|fraction|] == 48;
    if AllDigits(fraction) {
      assert Value(s) == Value(fraction) * 10;
    } else {
      assert !AllDigits(s);
    }
  }

  /** In numbers: minutes, seconds and milliseconds below their hundred and thousand. */
  lemma TimestampOfNumbers(m: nat, s: nat, ms: nat)
    requires s < 100 && ms < 1000
    ensures ParseTimestamp(Padded(m, 2) + [COLON] + Padded(s, 2)) == Some(m * 60_000 + s * 1000)
    ensures ParseTimestamp(Padded(m, 2) + [COLON] + Padded(s, 2) + [DOT] + Padded(ms, 3))
         == Some(m * 60_000 + s * 1000 + ms)
  {
    hide Padded, ParseTimestamp, Value;
    PowersOfTen();
    NoDigits();
    FixedWidth(s, 2);
    FixedWidth(ms, 3);
    ParsePadded(m, 2);
    ParsePadded(s, 2);
    ParsePadded(ms, 3);
    var minutes, seconds, fraction := Padded(m, 2), Padded(s, 2), Padded(ms, 3);
    WrittenValue(minutes + [COLON] + seconds, minutes, seconds, []);
    WrittenValue(minutes + [COLON] + seconds + [DOT] + fraction, minutes, seconds, fraction);
  }

  /** A printed timestamp is `mm:ss.mmm` with as few minute digits, two at least, as the
      minutes need; it fits the bracket window exactly below the limit. */
  lemma TimestampLength(ts: nat)
    ensures var t := FormatTimestamp(ts);
            && |t| >= 9
            && (forall k :: k >= 2 ==> (|t| <= k + 7 <==> ts / 60_000 < Pow10(k)))
            && t[|t| - 7] == COLON && t[|t| - 4] == DOT
            && forall i :: 0 <= i < |t| && i != |t| - 7 && i != |t| - 4 ==> IsDigit(t[i])
    ensures |FormatTimestamp(ts)| <= 13 <==> ts < LIMIT
    ensures RBRACKET !in FormatTimestamp(ts) && NEWLINE !in FormatTimestamp(ts)
  {
    Parts(ts);
    assert Pow10(6) == 1_000_000;
    DigitsLength(ts / 60_000, 6);
    forall k: nat | k >= 2 ensures |FormatTimestamp(ts)| <= k + 7 <==> ts / 60_000 < Pow10(k) {
      DigitsLength(ts / 60_000, k);
    }
  }

  /** What the parser reads from a tag of at most thirteen bytes fits a 64-bit
      `usize`, so its arithmetic cannot overflow. */
  lemma ParsedTimestampBound(s: Bytes)
    requires |s| <= 13 && ParseTimestamp(s).Some?
    ensures ParseTimestamp(s).value < PARSED_LIMIT < 0x1_0000_0000_0000_0000
  {
    var i := FindByte(COLON, s).value;
    var min, rest := s[..i], s[i + 1..];
    ValueBound(min);
    Pow10Monotone(|min|, 10);
    assert Pow10(10) == 10_000_000_000;
    SecondsBound(rest);
  }

  lemma SecondsBound(s: Bytes)
    requires ParseSeconds(s).Some?
    ensures ParseSeconds(s).value < 100_000
  {
    assert Pow10(1) == 10 && Pow10(2) == 100 && Pow10(3) == 1000;
    if |s| == 2 {
      ValueBound(s);
    } else {
      ValueBound(s[..2]);
      ValueBound(s[3..]);
    }
  }

  lemma {:induction false} Pow10Monotone(j: nat, k: nat)
    requires j <= k
    ensures Pow10(j) <= Pow10(k)
  {
    if j < k {
      Pow10Monotone(j, k - 1);
    }
  }
}
