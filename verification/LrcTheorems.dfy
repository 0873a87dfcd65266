/** The main results about the LRC parser and printer. */
module LrcTheorems {
  import opened Options
  import opened Bytes
  import opened Lrc
  import opened LrcTimestamps
  import opened LrcTags
  import opened LrcRoundTrip

  // ---------- printing, then parsing ----------

  lemma FeedLyric(st: State, l: Line)
    requires LineOk(l)
    ensures Feed(st, LyricText(l))
         == if Printable(l.timestamps) then Ok(st.(inMetadata := false, lines := st.lines + [l]))
            else Err(MissingBrackets)
  {
    hide ParseTags, Tags, Stamps, BlankTail;
    var line := LyricText(l);
    LyricTextShape(l);
    Untrimmed(line);
    ReadTags(l.timestamps, l.text);
  }

  /** The metadata under the given keys. */
  function Under(metadata: map<Bytes, Bytes>, keys: seq<Bytes>): map<Bytes, Bytes>
    requires forall k :: k in keys ==> k in metadata
  {
    map k | k in keys :: metadata[k]
  }

  lemma UnderStep(metadata: map<Bytes, Bytes>, keys: seq<Bytes>, before: map<Bytes, Bytes>)
    requires keys != [] && forall k :: k in keys ==> k in metadata
    ensures before + Under(metadata, keys)
         == before[keys[0] := metadata[keys[0]]] + Under(metadata, keys[1..])
  {
    assert forall k :: k in keys <==> k == keys[0] || k in keys[1..];
  }

  lemma {:induction false} FeedMetaLines(
    metadata: map<Bytes, Bytes>, keys: seq<Bytes>, more: seq<Bytes>, n: nat, st: State)
    requires forall k :: k in keys ==> k in metadata && KeyOk(k) && ValueOk(metadata[k])
    requires st.inMetadata
    ensures FeedAll(MetaLines(metadata, keys) + more, n, st)
         == FeedAll(more, n + |keys|, st.(metadata := st.metadata + Under(metadata, keys)))
  {
    hide Feed, FeedAll, KeyOk, ValueOk, MetaLine;
    if keys == [] {
      assert MetaLines(metadata, keys) + more == more;
      assert Under(metadata, keys) == map[];
      assert st.metadata + map[] == st.metadata;
    } else {
      hide Under;
      var key, rest := keys[0], keys[1..];
      var st' := st.(metadata := st.metadata[key := metadata[key]]);
      var line, lines := MetaLine(key, metadata[key]), MetaLines(metadata, rest) + more;
      assert MetaLines(metadata, keys) + more == [line] + lines;
      FeedMeta(st, key, metadata[key]);
      FeedFirst(line, lines, n, st);
      FeedMetaLines(metadata, rest, more, n + 1, st');
      UnderStep(metadata, keys, st.metadata);
    }
  }

  /** Well-formed lyric lines are all stored; a line with a timestamp past the
      limit fails. */
  lemma {:induction false} FeedLyricLines(lines: seq<Line>, n: nat, st: State)
    requires LinesOk(lines)
    ensures var r := FeedAll(LyricLines(lines), n, st);
            if AllPrintable(lines)
            then r == Parsed(Lyrics(st.metadata, st.lines + lines))
            else r.Failed? && r.kind == MissingBrackets
  {
    hide Feed, LinesOk, AllPrintable, LyricText;
    LinesStep(lines);
    if lines == [] {
      assert st.lines + lines == st.lines;
    } else {
      hide FeedAll;
      var line, rest := lines[0], lines[1..];
      var st' := st.(inMetadata := false, lines := st.lines + [line]);
      FeedLyric(st, line);
      FeedFirst(LyricText(line), LyricLines(rest), n, st);
      FeedLyricLines(rest, n + 1, st');
      assert lines == [line] + rest;
      assert st.lines + lines == st'.lines + rest;
    }
  }

  lemma FeedFirst(line: Bytes, rest: seq<Bytes>, n: nat, st: State)
    ensures var r := FeedAll([line] + rest, n, st);
            match Feed(st, line)
            case Panic => r == Panicked
            case Err(k) => r == Failed(k, n + 1)
            case Ok(st') => r == FeedAll(rest, n + 1, st')
  {
    hide Feed;
    assert ([line] + rest)[1..] == rest;
  }

  lemma LinesStep(lines: seq<Line>)
    ensures AllPrintable(lines) <==> lines == [] || (Printable(lines[0].timestamps) && AllPrintable(lines[1..]))
    ensures LinesOk(lines) <==> lines == [] || (LineOk(lines[0]) && LinesOk(lines[1..]))
  {
    hide Printable, LineOk;
    assert lines != [] ==> lines == [lines[0]] + lines[1..];
  }

  lemma {:induction false} MetaLinesPlain(metadata: map<Bytes, Bytes>, keys: seq<Bytes>)
    requires forall k :: k in keys ==> k in metadata && KeyOk(k) && ValueOk(metadata[k])
    ensures forall i :: 0 <= i < |MetaLines(metadata, keys)| ==> NEWLINE !in MetaLines(metadata, keys)[i]
  {
    if keys != [] {
      MetaLinesPlain(metadata, keys[1..]);
    }
  }

  lemma {:induction false} LyricLinesPlain(lines: seq<Line>)
    requires LinesOk(lines)
    ensures forall i :: 0 <= i < |LyricLines(lines)| ==> NEWLINE !in LyricLines(lines)[i]
  {
    hide LyricText, LineOk;
    if lines != [] {
      LyricTextShape(lines[0]);
      LyricLinesPlain(lines[1..]);
    }
  }

  /** What canonical lyrics print reads back as themselves below the limit,
      and as an error otherwise. */
  lemma ParsePrint(l: Lyrics)
    requires Canonical(l)
    ensures WellFormed(l) ==> Parse(Print(l)) == Parsed(l)
    ensures !WellFormed(l) ==> Parse(Print(l)).Failed? && Parse(Print(l)).kind == MissingBrackets
  {
    hide FeedAll, KeyOk, ValueOk, LineOk, Printable, MetaLines, LyricLines, Join, SplitLines, Ascending;
    var keys := Ascending(l.metadata.Keys);
    AscendingElements(l.metadata.Keys);
    var meta, lyric := MetaLines(l.metadata, keys), LyricLines(l.lines);
    MetaLinesPlain(l.metadata, keys);
    LyricLinesPlain(l.lines);
    SplitJoin(meta + lyric);
    FeedMetaLines(l.metadata, keys, lyric, 0, START);
    var st := START.(metadata := Under(l.metadata, keys));
    assert START.metadata + st.metadata == st.metadata == l.metadata;
    FeedLyricLines(l.lines, |keys|, st);
    assert st.lines + l.lines == l.lines;
  }

  // ---------- parsing gives canonical lyrics ----------

  lemma {:induction false} SplitPlain(s: Bytes)
    ensures forall i :: 0 <= i < |SplitLines(s)| ==> NEWLINE !in SplitLines(s)[i]
    decreases |s|
  {
    var r := FindByte(NEWLINE, s);
    if r.Some? {
      SplitPlain(s[r.value + 1..]);
    }
  }

  ghost predicate Good(st: State) { Canonical(Lyrics(st.metadata, st.lines)) }

  lemma {:induction false} AcceptedLineOk(line: Bytes, l: Line)
    requires NEWLINE !in line && BlankTail(line) == 0
    requires ParseTags(line) == Ok(l) && l.timestamps != []
    ensures LineOk(l)
  {
    hide ParseTags, Tags;
    var stamps := TilesSound(line);
    assert line[|line| - |l.text|..] == l.text;
    assert forall i :: 0 <= i < |l.text| ==> l.text[i] == line[|line| - |l.text| + i];
  }

  lemma AcceptedMetaOk(line: Bytes, colon: nat)
    requires NEWLINE !in line && 2 <= colon < |line|
    requires !IsDigit(line[1]) && FindByte(COLON, line[1..]) == Some(colon - 1)
    requires ParseMeta(line, colon).Ok?
    ensures var v := ParseMeta(line, colon).value;
            v.Some? && v.value.Meta? && KeyOk(v.value.key) && ValueOk(v.value.value)
  {
    var key, rest := line[1..colon], line[colon + 1..];
    assert forall i :: 0 <= i < |key| ==> key[i] == line[1..][i];
    var end := FindByte(RBRACKET, rest).value;
    assert forall i :: 0 <= i < end ==> rest[..end][i] == line[colon + 1 + i];
  }

  lemma FeedKeepsGood(st: State, raw: Bytes)
    requires Good(st) && NEWLINE !in raw && Feed(st, raw).Ok?
    ensures Good(Feed(st, raw).value)
  {
    hide KeyOk, ValueOk, LineOk, ParseTags, ParseMeta, Trim, BlankTail;
    var line := Trim(raw);
    TrimIsSlice(raw);
    if line != [] && line[0] != HASH && ParseLine(line).Ok? && ParseLine(line).value.Some? {
      var colon := FindByte(COLON, line[1..]).value + 1;
      if IsDigit(line[1]) {
        AcceptedLineOk(line, ParseTags(line).value);
      } else {
        AcceptedMetaOk(line, colon);
      }
    }
  }

  lemma {:induction false} FeedAllGood(lines: seq<Bytes>, n: nat, st: State)
    requires Good(st) && forall i :: 0 <= i < |lines| ==> NEWLINE !in lines[i]
    ensures var r := FeedAll(lines, n, st);
            r.Parsed? ==> Canonical(r.lyrics)
  {
    hide Feed, Canonical;
    if lines != [] {
      var r := Feed(st, lines[0]);
      if r.Ok? {
        FeedKeepsGood(st, lines[0]);
        FeedAllGood(lines[1..], n + 1, r.value);
      }
    }
  }

  /** Everything the parser returns is canonical, whatever the text. */
  lemma ParserOutputIsCanonical(s: Bytes)
    ensures Parse(s).Parsed? ==> Canonical(Parse(s).lyrics)
  {
    hide FeedAll, SplitLines;
    SplitPlain(s);
    FeedAllGood(SplitLines(s), 0, START);
  }

  // ---------- main results ----------

  /** Printed lyrics read back as they were if and only if they are well formed. */
  lemma RoundTrip(l: Lyrics)
    ensures Parse(Print(l)) == Parsed(l) <==> WellFormed(l)
  {
    hide FeedAll, SplitLines, Print, KeyOk, ValueOk, LineOk, Printable;
    ParserOutputIsCanonical(Print(l));
    if Canonical(l) {
      ParsePrint(l);
    }
  }

  /** Printing is a normal form: what the parser made of any text prints to a text
      that parses to the same lyrics, if no timestamp is past the limit; otherwise
      the printed text is refused. */
  lemma {:induction false} NormalForm(s: Bytes)
    requires Parse(s).Parsed?
    ensures Parse(Print(Parse(s).lyrics)) == Parse(s)
       <==> AllPrintable(Parse(s).lyrics.lines)
  {
    hide FeedAll, SplitLines, Print, KeyOk, ValueOk, LineOk;
    var l := Parse(s).lyrics;
    ParserOutputIsCanonical(s);
    RoundTrip(l);
  }

  /** A text past the limit: `[1000000:00]` and a newline parses, but what it parses to
      does not survive printing. */
  lemma {:induction false} PastLimitExample()
    ensures var text: Bytes := [LBRACKET, 49, 48, 48, 48, 48, 48, 48, COLON, 48, 48, RBRACKET, NEWLINE];
            && Parse(text) == Parsed(Lyrics(map[], [Line([LIMIT], [])]))
            && Parse(Print(Parse(text).lyrics)) != Parse(text)
  {
    var minutes: Bytes, seconds: Bytes := [49, 48, 48, 48, 48, 48, 48], [48, 48];
    var line := Tag(minutes + [COLON] + seconds) + [];
    var text := line + [NEWLINE];
    assert text == [LBRACKET, 49, 48, 48, 48, 48, 48, 48, COLON, 48, 48, RBRACKET, NEWLINE];
    PastLimitLine(minutes, seconds, line);
    OneLineText(line, Line([LIMIT], []));
    hide Parse, Print;
    NormalForm(text);
    assert !Printable([LIMIT]);
    assert Parse(text).lyrics.lines[0] in Parse(text).lyrics.lines;
  }

  lemma OneLineText(line: Bytes, l: Line)
    requires NEWLINE !in line && Feed(START, line) == Ok(State(false, map[], [l]))
    ensures Parse(line + [NEWLINE]) == Parsed(Lyrics(map[], [l]))
  {
    hide Feed;
    assert line + [NEWLINE] == Join([line]) by { assert [line][1..] == []; }
    SplitJoin([line]);
    FeedFirst(line, [], 0, START);
    assert [line] + [] == [line];
  }

  lemma PastLimitLine(minutes: Bytes, seconds: Bytes, line: Bytes)
    requires minutes == [49, 48, 48, 48, 48, 48, 48] && seconds == [48, 48]
    requires line == Tag(minutes + [COLON] + seconds) + []
    ensures NEWLINE !in line && Feed(START, line) == Ok(State(false, map[], [Line([LIMIT], [])]))
  {
    hide ParseTimestamp, ParseTags;
    MillionMinutes(minutes, seconds);
    TagStep(minutes + [COLON] + seconds, []);
    EmptyText(LIMIT);
    assert Trim(line) == line by { assert BlankHead(line) == 0 && BlankTail(line) == 0; }
    FindByteAt(COLON, line[1..], 7);
    assert [] + [Line([LIMIT], [])] == [Line([LIMIT], [])];
  }

  lemma EmptyText(ts: nat)
    ensures Push(ts, ParseTags([])) == Ok(Line([ts], []))
  {
    assert [ts] + [] == [ts];
  }

  lemma MillionMinutes(minutes: Bytes, seconds: Bytes)
    requires minutes == [49, 48, 48, 48, 48, 48, 48] && seconds == [48, 48]
    ensures ParseTimestamp(minutes + [COLON] + seconds) == Some(LIMIT)
  {
    assert Digits(1_000_000) == minutes;
    ValueOfDigits(1_000_000);
    assert Value([48]) == 0 && seconds[..1] == [48];
    assert ParseSeconds(seconds) == Some(0);
    AtColon(minutes, seconds);
  }

  /** Well-formed lyrics are told apart by their printed texts. */
  lemma PrintInjective(a: Lyrics, b: Lyrics)
    requires WellFormed(a) && WellFormed(b) && Print(a) == Print(b)
    ensures a == b
  {
    hide FeedAll, SplitLines, Print, WellFormed;
    RoundTrip(a);
    RoundTrip(b);
  }

  /** The line, trimmed, starts with `[` and a digit, has a colon, and is cut short
      after good tags. */
  ghost predicate Fatal(raw: Bytes) {
    var line := Trim(raw);
    && |line| > 2 && line[0] == LBRACKET && IsDigit(line[1]) && COLON in line[2..]
    && CutShort(line)
  }

  /** Reading a line dies exactly when the line is fatal. */
  lemma FeedPanics(st: State, raw: Bytes)
    ensures Feed(st, raw) == Panic <==> Fatal(raw)
  {
    hide ParseTags, Trim, CutShort;
    var line := Trim(raw);
    PanicIffCutShort(line);
    if line != [] && line[0] == LBRACKET {
      var i := FindByte(COLON, line[1..]);
      if i.Some? && i.value > 0 {
        assert line[2..][i.value - 1] == line[1..][i.value];
      }
      if |line| > 2 && COLON in line[2..] {
        var j :| 0 <= j < |line[2..]| && line[2..][j] == COLON;
        assert line[1..][j + 1] == COLON;
      }
    }
  }

  /** Line `i` is fatal and everything before it is accepted. */
  ghost predicate DiesAt(lines: seq<Bytes>, n: nat, st: State, i: nat)
    requires i < |lines|
  {
    Fatal(lines[i]) && FeedAll(lines[..i], n, st).Parsed?
  }

  lemma DiesLater(lines: seq<Bytes>, n: nat, st: State, i: nat)
    requires 0 < i < |lines|
    ensures DiesAt(lines, n, st, i)
       <==> Feed(st, lines[0]).Ok? && DiesAt(lines[1..], n + 1, Feed(st, lines[0]).value, i - 1)
  {
    hide Feed, Fatal;
    assert lines[..i][1..] == lines[1..][..i - 1];
  }

  /** Some line is fatal after lines that are all accepted. */
  ghost predicate Dies(lines: seq<Bytes>, n: nat, st: State) {
    exists i :: 0 <= i < |lines| && DiesAt(lines, n, st, i)
  }

  lemma {:induction false} FeedAllPanics(lines: seq<Bytes>, n: nat, st: State)
    ensures FeedAll(lines, n, st).Panicked? <==> Dies(lines, n, st)
  {
    hide Feed, Fatal;
    if lines != [] {
      var first := Feed(st, lines[0]);
      FeedPanics(st, lines[0]);
      assert DiesAt(lines, n, st, 0) <==> first == Panic;
      forall i | 0 < i < |lines|
        ensures DiesAt(lines, n, st, i) <==> first.Ok? && DiesAt(lines[1..], n + 1, first.value, i - 1)
      {
        DiesLater(lines, n, st, i);
      }
      hide DiesAt;
      if first.Ok? {
        var rest, next := lines[1..], n + 1;
        FeedAllPanics(rest, next, first.value);
        if j :| 0 <= j < |rest| && DiesAt(rest, next, first.value, j) {
          assert DiesAt(lines, n, st, j + 1);
        }
      }
    }
  }

  /** The parser dies exactly on the texts that have a fatal line after lines that
      are all accepted. */
  lemma ParsePanics(s: Bytes)
    ensures Parse(s).Panicked? <==> Dies(SplitLines(s), 0, START)
  {
    hide SplitLines, Dies, FeedAll;
    FeedAllPanics(SplitLines(s), 0, START);
  }

  // ---------- metadata lines ----------

  /** A line is read as metadata exactly when it starts with the printed form of that
      key and value; what follows the bracket does not matter. */
  lemma MetaIff(line: Bytes, key: Bytes, value: Bytes)
    requires line != [] && NEWLINE !in line
    ensures ParseLine(line) == Ok(Some(Meta(key, value)))
       <==> KeyOk(key) && ValueOk(value) && MetaLine(key, value) <= line
  {
    if ParseLine(line) == Ok(Some(Meta(key, value))) {
      MetaSound(line, key, value);
    }
    if KeyOk(key) && ValueOk(value) && MetaLine(key, value) <= line {
      MetaComplete(line, key, value);
    }
  }

  /** Where the colon and the bracket of an accepted metadata line are. */
  lemma MetaShape(line: Bytes, key: Bytes, value: Bytes) returns (colon: nat, end: nat)
    requires line != [] && ParseLine(line) == Ok(Some(Meta(key, value)))
    ensures 2 <= colon < |line| && line[0] == LBRACKET && line[colon] == COLON && !IsDigit(line[1])
    ensures FindByte(COLON, line[1..]) == Some(colon - 1)
    ensures ParseMeta(line, colon) == Ok(Some(Meta(key, value)))
    ensures key == line[1..colon]
    ensures end < |line[colon + 1..]| && line[colon + 1..][end] == RBRACKET && value == line[colon + 1..][..end]
  {
    hide LyricLine;
    colon := FindByte(COLON, line[1..]).value + 1;
    end := FindByte(RBRACKET, line[colon + 1..]).value;
  }

  lemma MetaSound(line: Bytes, key: Bytes, value: Bytes)
    requires line != [] && NEWLINE !in line
    requires ParseLine(line) == Ok(Some(Meta(key, value)))
    ensures KeyOk(key) && ValueOk(value) && MetaLine(key, value) <= line
  {
    hide ParseLine, ParseMeta, KeyOk, ValueOk, FindByte;
    var colon, end := MetaShape(line, key, value);
    AcceptedMetaOk(line, colon);
    var rest := line[colon + 1..];
    assert line == [LBRACKET] + key + [COLON] + rest;
    assert rest == value + [RBRACKET] + rest[end + 1..];
    assert line == MetaLine(key, value) + rest[end + 1..];
  }

  lemma MetaComplete(line: Bytes, key: Bytes, value: Bytes)
    requires KeyOk(key) && ValueOk(value) && MetaLine(key, value) <= line
    ensures ParseLine(line) == Ok(Some(Meta(key, value)))
  {
    var more := line[|MetaLine(key, value)|..];
    assert line == MetaLine(key, value) + more;
    assert line[1..] == key + [COLON] + value + [RBRACKET] + more;
    FindByteAt(COLON, line[1..], |key|);
    var rest := line[|key| + 2..];
    assert rest == value + [RBRACKET] + more;
    FindByteAt(RBRACKET, rest, |value|);
    assert line[1] == key[0] && line[1..|key| + 1] == key && rest[..|value|] == value;
  }

  /** A last line without its newline is never read. */
  lemma {:induction false} UnendedLineIgnored(s: Bytes, tail: Bytes)
    requires NEWLINE !in tail && (s == [] || s[|s| - 1] == NEWLINE)
    ensures Parse(s + tail) == Parse(s)
  {
    hide FeedAll;
    SplitUnended(s, tail);
  }

  lemma {:induction false} SplitUnended(s: Bytes, tail: Bytes)
    requires NEWLINE !in tail && (s == [] || s[|s| - 1] == NEWLINE)
    ensures SplitLines(s + tail) == SplitLines(s)
    decreases |s|
  {
    if s == [] {
      assert s + tail == tail;
    } else {
      var i := FindByte(NEWLINE, s).value;
      FindByteAt(NEWLINE, s + tail, i);
      assert (s + tail)[..i] == s[..i];
      assert (s + tail)[i + 1..] == s[i + 1..] + tail;
      SplitUnended(s[i + 1..], tail);
    }
  }
}
