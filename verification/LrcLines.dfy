/** How the lines of a text work together: which are passed over, which are refused and
    with what error, and where a refused text went wrong. */
module LrcLines {
  import opened Options
  import opened Bytes
  import opened Lrc
  import opened LrcTags
  import opened LrcRoundTrip
  import opened LrcTheorems

  // ---------- reading in two parts ----------

  /** The state the parser is in after it has read `l`: metadata may follow until the
      first lyric line. */
  function Resume(l: Lyrics): State { State(l.lines == [], l.metadata, l.lines) }

  predicate InStep(st: State) { st == Resume(Lyrics(st.metadata, st.lines)) }

  lemma FeedInStep(st: State, raw: Bytes)
    requires InStep(st) && Feed(st, raw).Ok?
    ensures InStep(Feed(st, raw).value)
  {
    hide Trim, ParseLine;
  }

  /** Reading `a` and then `b`: the error of `a`, or `b` read from where `a` ended. */
  lemma {:induction false} FeedAllConcat(a: seq<Bytes>, b: seq<Bytes>, n: nat, st: State)
    requires InStep(st)
    ensures FeedAll(a + b, n, st)
         == match FeedAll(a, n, st)
            case Parsed(l) => FeedAll(b, n + |a|, Resume(l))
            case r => r
  {
    hide Feed, FeedAll;
    if a == [] {
      FeedNone(n, st);
      assert [] + b == b;
    } else {
      var rest := a[1..];
      assert a == [a[0]] + rest && a + b == [a[0]] + (rest + b);
      FeedFirst(a[0], rest + b, n, st);
      FeedFirst(a[0], rest, n, st);
      if Feed(st, a[0]).Ok? {
        FeedInStep(st, a[0]);
        FeedAllConcat(rest, b, n + 1, Feed(st, a[0]).value);
      }
    }
  }

  lemma FeedNone(n: nat, st: State)
    ensures FeedAll([], n, st) == Parsed(Lyrics(st.metadata, st.lines))
  {}

  /** Counting lines from elsewhere only changes the number in an error. */
  lemma {:induction false} FeedAllShift(lines: seq<Bytes>, n: nat, m: nat, st: State)
    ensures FeedAll(lines, n + m, st)
         == match FeedAll(lines, n, st)
            case Failed(k, i) => Failed(k, i + m)
            case r => r
    ensures FeedAll(lines, n, st).Failed? ==> n < FeedAll(lines, n, st).lineNumber <= n + |lines|
  {
    hide Feed, FeedAll;
    if lines == [] {
      FeedNone(n, st);
      FeedNone(n + m, st);
    } else {
      assert lines == [lines[0]] + lines[1..];
      FeedFirst(lines[0], lines[1..], n, st);
      FeedFirst(lines[0], lines[1..], n + m, st);
      if Feed(st, lines[0]).Ok? {
        FeedAllShift(lines[1..], n + 1, m, Feed(st, lines[0]).value);
      }
    }
  }

  lemma {:induction false} SplitConcat(s: Bytes, t: Bytes)
    requires s == [] || s[|s| - 1] == NEWLINE
    ensures SplitLines(s + t) == SplitLines(s) + SplitLines(t)
    decreases |s|
  {
    hide SplitLines;
    if s == [] {
      assert s + t == t;
      NoLines();
    } else {
      var i := FindByte(NEWLINE, s).value;
      var line, rest := s[..i], s[i + 1..];
      assert s == line + [NEWLINE] + rest && s + t == line + [NEWLINE] + (rest + t);
      SplitFirst(line, rest);
      SplitFirst(line, rest + t);
      SplitConcat(rest, t);
    }
  }

  lemma SplitFirst(line: Bytes, rest: Bytes)
    requires NEWLINE !in line
    ensures SplitLines(line + [NEWLINE] + rest) == [line] + SplitLines(rest)
  {
    var s := line + [NEWLINE] + rest;
    FindByteAt(NEWLINE, s, |line|);
    assert s[..|line|] == line && s[|line| + 1..] == rest;
  }

  /** A whole line between two parts of a text. */
  lemma {:induction false} SplitAround(before: Bytes, raw: Bytes, after: Bytes)
    requires before == [] || before[|before| - 1] == NEWLINE
    requires NEWLINE !in raw
    ensures SplitLines(before + raw + [NEWLINE] + after) == SplitLines(before) + ([raw] + SplitLines(after))
  {
    hide SplitLines;
    assert before + raw + [NEWLINE] + after == before + (raw + [NEWLINE] + after);
    SplitConcat(before, raw + [NEWLINE] + after);
    SplitFirst(raw, after);
  }

  /** A line in a text: what is read before it decides the state it is read in. */
  lemma {:induction false} ParseAround(before: Bytes, raw: Bytes, after: Bytes)
    requires before == [] || before[|before| - 1] == NEWLINE
    requires NEWLINE !in raw
    ensures var n, text := |SplitLines(before)|, before + raw + [NEWLINE] + after;
            match Parse(before)
            case Parsed(l) =>
              (match Feed(Resume(l), raw)
               case Panic => Parse(text) == Panicked
               case Err(k) => Parse(text) == Failed(k, n + 1)
               case Ok(st) => Parse(text) == FeedAll(SplitLines(after), n + 1, st))
            case r => Parse(text) == r
  {
    hide Feed, FeedAll, SplitLines;
    SplitAround(before, raw, after);
    FeedAllConcat(SplitLines(before), [raw] + SplitLines(after), 0, START);
    if Parse(before).Parsed? {
      FeedFirst(raw, SplitLines(after), |SplitLines(before)|, Resume(Parse(before).lyrics));
    }
  }

  // ---------- lines passed over ----------

  /** Blank, a comment, or anything else that does not start with `[`. */
  predicate PassedOver(raw: Bytes) { Trim(raw) == [] || Trim(raw)[0] != LBRACKET }

  lemma FeedPassesOver(st: State, raw: Bytes)
    requires PassedOver(raw)
    ensures Feed(st, raw) == Ok(st)
  {
    hide Trim;
  }

  /** Such a line, put in anywhere, changes nothing but the number of a later error. */
  lemma PassedOverAnywhere(before: Bytes, raw: Bytes, after: Bytes)
    requires before == [] || before[|before| - 1] == NEWLINE
    requires NEWLINE !in raw && PassedOver(raw)
    ensures var text := before + raw + [NEWLINE] + after;
            match Parse(before + after)
            case Failed(k, i) => Parse(text) == Failed(k, if i <= |SplitLines(before)| then i else i + 1)
            case r => Parse(text) == r
  {
    hide Feed, FeedAll, SplitLines, PassedOver;
    var a, b := SplitLines(before), SplitLines(after);
    ParseAround(before, raw, after);
    SplitConcat(before, after);
    FeedAllConcat(a, b, 0, START);
    FeedAllShift(a, 0, 0, START);
    if Parse(before).Parsed? {
      var st := Resume(Parse(before).lyrics);
      FeedPassesOver(st, raw);
      FeedAllShift(b, |a|, 1, st);
    }
  }

  // ---------- metadata after lyrics ----------

  lemma FeedMetadata(st: State, raw: Bytes, key: Bytes, value: Bytes)
    requires NEWLINE !in raw && KeyOk(key) && ValueOk(value) && MetaLine(key, value) <= Trim(raw)
    ensures Feed(st, raw)
         == if st.inMetadata then Ok(st.(metadata := st.metadata[key := value])) else Err(MetadataAfterLyrics)
  {
    hide Trim, KeyOk, ValueOk, ParseLine;
    TrimIsSlice(raw);
    MetaIff(Trim(raw), key, value);
  }

  /** A metadata line is stored, the last one of its key counting, until the first lyric
      line; after it the text is refused at that line. */
  lemma MetadataInText(before: Bytes, raw: Bytes, after: Bytes, key: Bytes, value: Bytes)
    requires before == [] || before[|before| - 1] == NEWLINE
    requires NEWLINE !in raw && KeyOk(key) && ValueOk(value) && MetaLine(key, value) <= Trim(raw)
    requires Parse(before).Parsed?
    ensures var l, text := Parse(before).lyrics, before + raw + [NEWLINE] + after;
            && (l.lines != [] ==> Parse(text) == Failed(MetadataAfterLyrics, |SplitLines(before)| + 1))
            && (l.lines == [] ==>
                  Parse(before + raw + [NEWLINE]) == Parsed(l.(metadata := l.metadata[key := value])))
  {
    hide Feed, FeedAll, SplitLines, KeyOk, ValueOk, Trim;
    var l := Parse(before).lyrics;
    ParseAround(before, raw, after);
    ParseAround(before, raw, []);
    FeedMetadata(Resume(l), raw, key, value);
    assert before + raw + [NEWLINE] + [] == before + raw + [NEWLINE];
    NoLines();
    FeedNone(|SplitLines(before)| + 1, Resume(l).(metadata := l.metadata[key := value]));
  }

  lemma NoLines()
    ensures SplitLines([]) == []
  {}

  // ---------- errors ----------

  /** A text is refused at line `m` exactly when all lines before it are accepted and that
      one is refused in the state they leave. */
  lemma RefusedAt(s: Bytes, kind: ErrorKind, m: nat)
    ensures Parse(s) == Failed(kind, m)
       <==> && 1 <= m <= |SplitLines(s)|
            && var r := FeedAll(SplitLines(s)[..m - 1], 0, START);
               r.Parsed? && Feed(Resume(r.lyrics), SplitLines(s)[m - 1]) == Err(kind)
  {
    hide Feed, FeedAll, SplitLines;
    var lines := SplitLines(s);
    if Parse(s) == Failed(kind, m) {
      FailedLine(lines, 0, START, kind, m);
    }
    if 1 <= m <= |lines| {
      var a, b := lines[..m - 1], lines[m..];
      assert lines == a + ([lines[m - 1]] + b);
      FeedAllConcat(a, [lines[m - 1]] + b, 0, START);
      var r := FeedAll(a, 0, START);
      if r.Parsed? {
        FeedFirst(lines[m - 1], b, m - 1, Resume(r.lyrics));
      }
    }
  }

  lemma {:induction false} FailedLine(lines: seq<Bytes>, n: nat, st: State, kind: ErrorKind, m: nat)
    requires InStep(st) && FeedAll(lines, n, st) == Failed(kind, m)
    ensures n < m <= n + |lines|
    ensures var r := FeedAll(lines[..m - n - 1], n, st);
            r.Parsed? && Feed(Resume(r.lyrics), lines[m - n - 1]) == Err(kind)
  {
    hide Feed, FeedAll;
    if lines == [] {
      FeedNone(n, st);
    } else {
      var first, rest := lines[0], lines[1..];
      assert lines == [first] + rest;
      FeedFirst(first, rest, n, st);
      if Feed(st, first).Ok? {
        var st' := Feed(st, first).value;
        FeedInStep(st, first);
        FailedLine(rest, n + 1, st', kind, m);
        assert lines[..m - n - 1] == [first] + rest[..m - n - 2];
        FeedFirst(first, rest[..m - n - 2], n, st);
      } else {
        assert lines[..0] == [];
        FeedNone(n, st);
      }
    }
  }

  /** The line starts with a bracket, a key and a colon; the key begins with a digit or
      has no spaces at its ends. */
  predicate Keyed(line: Bytes, key: Bytes) {
    && key != [] && COLON !in key && [LBRACKET] + key + [COLON] <= line
    && (IsDigit(key[0]) || (key[0] != SPACE && key[|key| - 1] != SPACE))
  }

  lemma KeyIsFirst(line: Bytes, key: Bytes)
    requires Keyed(line, key)
    ensures FindByte(COLON, line[1..]) == Some(|key|) && key == line[1..|key| + 1]
  {
    var more := line[|key| + 2..];
    assert line == [LBRACKET] + key + [COLON] + more;
    assert line[1..] == key + [COLON] + more;
    FindByteAt(COLON, line[1..], |key|);
  }

  lemma LyricErrors(line: Bytes)
    ensures LyricLine(line).Err? ==> LyricLine(line).kind in {MissingBrackets, InvalidTimestamp}
  {
    hide ParseTags, Stops;
    if ParseTags(line).Err? {
      RefusedIff(line, ParseTags(line));
      var stamps, timestamps, tail :| Stops(line, stamps, timestamps, tail, ParseTags(line));
      StopKinds(line, stamps, timestamps, tail, ParseTags(line));
    }
  }

  lemma StopKinds(s: Bytes, stamps: seq<Bytes>, timestamps: seq<nat>, tail: Bytes, r: Outcome<Line>)
    requires Stops(s, stamps, timestamps, tail, r) && r.Err?
    ensures r.kind in {MissingBrackets, InvalidTimestamp}
  {}

  /** The tag of a line is invalid exactly when the line starts with `[` and no key. */
  lemma InvalidTagIff(line: Bytes)
    requires line != []
    ensures ParseLine(line) == Err(InvalidTag) <==> line[0] == LBRACKET && !exists key :: Keyed(line, key)
  {
    hide LyricLine;
    LyricErrors(line);
    if key :| Keyed(line, key) {
      KeyIsFirst(line, key);
    }
    var colon := FindByte(COLON, line[1..]);
    if line[0] == LBRACKET && colon.Some? && colon.value > 0 && ParseLine(line) != Err(InvalidTag) {
      var key := line[1..colon.value + 1];
      assert line[..colon.value + 2] == [LBRACKET] + key + [COLON];
      assert forall i :: 0 <= i < |key| ==> key[i] == line[1..][i];
      assert Keyed(line, key);
    }
  }

  ghost predicate NoValue(line: Bytes, key: Bytes) {
    forall value :: ValueOk(value) ==> !(MetaLine(key, value) <= line)
  }

  /** The metadata of a line is invalid exactly when it has a proper key and no proper
      value behind it. */
  lemma InvalidMetadataIff(line: Bytes)
    requires line != [] && NEWLINE !in line
    ensures ParseLine(line) == Err(InvalidMetadata)
       <==> exists key :: KeyOk(key) && Keyed(line, key) && NoValue(line, key)
  {
    hide LyricLine, KeyOk, ValueOk, MetaLine, Keyed, ParseLine;
    if ParseLine(line) == Err(InvalidMetadata) {
      var key := RefusedKey(line);
      forall value | ValueOk(value) ensures !(MetaLine(key, value) <= line) {
        MetaIff(line, key, value);
      }
      assert NoValue(line, key);
    }
    if key :| KeyOk(key) && Keyed(line, key) && NoValue(line, key) {
      KeyWithoutValue(line, key);
      if ParseLine(line) != Err(InvalidMetadata) {
        var value := ParseLine(line).value.value.value;
        MetaIff(line, key, value);
      }
    }
  }

  lemma RefusedKey(line: Bytes) returns (key: Bytes)
    requires line != [] && NEWLINE !in line && ParseLine(line) == Err(InvalidMetadata)
    ensures KeyOk(key) && Keyed(line, key)
  {
    hide LyricLine;
    LyricErrors(line);
    var colon := FindByte(COLON, line[1..]).value + 1;
    key := line[1..colon];
    assert line[..colon + 1] == [LBRACKET] + key + [COLON];
    assert forall i :: 0 <= i < |key| ==> key[i] == line[1..][i];
  }

  /** A line with a proper key is metadata of that key, or refused as such. */
  lemma KeyWithoutValue(line: Bytes, key: Bytes)
    requires line != [] && KeyOk(key) && Keyed(line, key)
    ensures ParseLine(line) == Err(InvalidMetadata)
         || exists value :: ParseLine(line) == Ok(Some(Meta(key, value)))
  {
    hide LyricLine;
    KeyIsFirst(line, key);
    assert line[1] == key[0];
    assert line[0] == LBRACKET;
    var end := FindByte(RBRACKET, line[|key| + 2..]);
    if end.Some? && ParseLine(line) != Err(InvalidMetadata) {
      assert ParseLine(line) == Ok(Some(Meta(key, line[|key| + 2..][..end.value])));
    }
  }

  /** A line is a lyric line exactly when its key begins with a digit and it is tags
      followed by a text; it is refused as such with the error of its tags. */
  lemma LyricIff(line: Bytes, key: Bytes, l: Line)
    requires line != [] && Keyed(line, key) && IsDigit(key[0])
    ensures ParseLine(line) == Ok(Some(Lyric(l))) <==> exists stamps :: Tiled(line, stamps, l)
    ensures forall k :: ParseLine(line) == Err(k) <==> ParseTags(line) == Err(k)
    ensures ParseLine(line) != Ok(None)
  {
    hide ParseTags, Tiled;
    KeyIsFirst(line, key);
    assert line[1] == key[0] && line[0] == LBRACKET;
    AcceptedIffTiled(line, l);
    if ParseTags(line).Ok? {
      var stamps := TilesSound(line);
      SomeTags(line, stamps, ParseTags(line).value);
    }
  }

  lemma SomeTags(line: Bytes, stamps: seq<Bytes>, l: Line)
    requires Tiled(line, stamps, l) && line != [] && line[0] == LBRACKET
    ensures l.timestamps != []
  {
    assert stamps == [] ==> line == l.text;
  }
}
