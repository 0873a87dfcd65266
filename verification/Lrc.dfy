/** The LRC lyrics parser and printer. The parser works on bytes with a moving
    cursor; the printer writes the same structure back. A slice out of bounds,
    which stops the original, is the outcome `Panic` here. */
module Lrc {
  import opened Options
  import opened Bytes

  datatype ErrorKind =
    | InvalidMetadata
    | InvalidTag
    | InvalidTimestamp
    | MetadataAfterLyrics
    | MissingBrackets

  datatype Line = Line(timestamps: seq<nat>, text: Bytes)

  datatype TypedLine = Meta(key: Bytes, value: Bytes) | Lyric(line: Line)

  datatype Lyrics = Lyrics(metadata: map<Bytes, Bytes>, lines: seq<Line>)

  datatype Outcome<+T> = Ok(value: T) | Err(kind: ErrorKind) | Panic

  datatype ParseResult =
    | Parsed(lyrics: Lyrics)
    | Failed(kind: ErrorKind, lineNumber: nat)
    | Panicked

  // ---------- timestamps ----------

  /** Seconds and milliseconds after the colon: `ss`, `ss.f`, `ss.ff` or `ss.fff`,
      where the byte between them is not looked at. */
  function ParseSeconds(s: Bytes): Option<nat> {
    if |s| == 2 then
      match ParseNat(s)
      case None => None
      case Some(sec) => Some(sec * 1000)
    else if 4 <= |s| <= 6 then
      match (ParseNat(s[..2]), ParseNat(s[3..]))
      case (Some(sec), Some(frac)) =>
        Some(sec * 1000 + frac * (if |s| == 4 then 100 else if |s| == 5 then 10 else 1))
      case _ => None
    else None
  }

  function ParseTimestamp(s: Bytes): Option<nat> {
    match FindByte(COLON, s)
    case None => None
    case Some(i) =>
      match (ParseNat(s[..i]), ParseSeconds(s[i + 1..]))
      case (Some(minutes), Some(rest)) => Some(minutes * 60_000 + rest)
      case _ => None
  }

  function FormatTimestamp(ts: nat): Bytes {
    Padded(ts / 60_000, 2) + [COLON] + Padded((ts / 1000) % 60, 2) + [DOT] + Padded(ts % 1000, 3)
  }

  // ---------- lyric lines ----------

  function Push(ts: nat, r: Outcome<Line>): Outcome<Line> {
    match r
    case Ok(l) => Ok(Line([ts] + l.timestamps, l.text))
    case Err(k) => Err(k)
    case Panic => Panic
  }

  /** What the bracket search finds in the bytes after a `[`; the window is
      cut to nine bytes when there are more than fourteen. */
  function FindClosing(rest: Bytes): (r: Option<nat>)
    requires |rest| >= 5
    ensures r.Some? ==> r.value <= 8 && r.value + 5 < |rest| && rest[r.value + 5] == RBRACKET
  {
    FindByte(RBRACKET, if |rest| > 14 then rest[5..14] else rest[5..])
  }

  /** The tags `s` starts with, then its text. */
  function ParseTags(s: Bytes): Outcome<Line> {
    if s == [] || s[0] != LBRACKET then Ok(Line([], s))
    else if |s| < 6 then Panic
    else match FindClosing(s[1..])
      case None => Err(MissingBrackets)
      case Some(c) =>
        match ParseTimestamp(s[1..][..c + 5])
        case None => Err(InvalidTimestamp)
        case Some(ts) => Push(ts, ParseTags(s[c + 7..]))
  }

  function LyricLine(line: Bytes): Outcome<Option<Line>> {
    match ParseTags(line)
    case Ok(l) => Ok(if l.timestamps == [] then None else Some(l))
    case Err(k) => Err(k)
    case Panic => Panic
  }

  function PushAll(timestamps: seq<nat>, r: Outcome<Line>): Outcome<Line> {
    match r
    case Ok(l) => Ok(Line(timestamps + l.timestamps, l.text))
    case Err(k) => Err(k)
    case Panic => Panic
  }

  /** What is left to read once `timestamps` were read and the cursor moved. */
  ghost predicate Reads(line: Bytes, cursor: nat, timestamps: seq<nat>, r: Outcome<Line>)
    ensures Reads(line, cursor, timestamps, r) ==> cursor <= |line|
  {
    cursor <= |line| && PushAll(timestamps, ParseTags(line[cursor..])) == r
  }

  lemma {:induction false} ReadsStep(line: Bytes, cursor: nat, timestamps: seq<nat>, r: Outcome<Line>)
    requires Reads(line, cursor, timestamps, r)
    requires cursor < |line| && line[cursor] == LBRACKET
    ensures var rest := line[cursor + 1..];
            if |rest| < 5 then r == Panic
            else match FindClosing(rest)
              case None => r == Err(MissingBrackets)
              case Some(c) =>
                match ParseTimestamp(rest[..c + 5])
                case None => r == Err(InvalidTimestamp)
                case Some(ts) => Reads(line, cursor + c + 7, timestamps + [ts], r)
  {
    hide FindClosing, ParseTimestamp;
    var s := line[cursor..];
    assert s[1..] == line[cursor + 1..];
    if |s| >= 6 {
      var c := FindClosing(s[1..]);
      if c.Some? {
        assert s[c.value + 7..] == line[cursor + c.value + 7..];
        var tail := ParseTags(s[c.value + 7..]);
        var ts := ParseTimestamp(s[1..][..c.value + 5]);
        if tail.Ok? && ts.Some? {
          assert timestamps + ([ts.value] + tail.value.timestamps) == timestamps + [ts.value] + tail.value.timestamps;
        }
      }
    }
  }

  lemma ReadsEnds(line: Bytes, cursor: nat, timestamps: seq<nat>, r: Outcome<Line>)
    requires Reads(line, cursor, timestamps, r)
    requires cursor == |line| || line[cursor] != LBRACKET
    ensures r == Ok(Line(timestamps, line[cursor..]))
  {
    assert timestamps + [] == timestamps;
  }

  lemma ReadsStart(line: Bytes)
    ensures Reads(line, 0, [], ParseTags(line))
  {
    assert line[0..] == line;
    var r := ParseTags(line);
    if r.Ok? {
      assert [] + r.value.timestamps == r.value.timestamps;
    }
  }

  /** The cursor loop of the lyric-line parser. */
  method ParseLyricLine(line: Bytes) returns (r: Outcome<Option<Line>>)
    ensures r == LyricLine(line)
  {
    hide ParseTimestamp, ParseTags, FindClosing, Reads;
    var timestamps: seq<nat> := [];
    var cursor := 0;
    ghost var spec := ParseTags(line);
    ReadsStart(line);
    while cursor < |line| && line[cursor] == LBRACKET
      invariant Reads(line, cursor, timestamps, spec)
      decreases |line| - cursor
    {
      ReadsStep(line, cursor, timestamps, spec);
      var rest := line[cursor + 1..];
      if |rest| < 5 {
        return Panic;
      }
      var closing := FindClosing(rest);
      if closing.None? {
        return Err(MissingBrackets);
      }
      var ts := ParseTimestamp(rest[..closing.value + 5]);
      if ts.None? {
        return Err(InvalidTimestamp);
      }
      timestamps := timestamps + [ts.value];
      cursor := cursor + closing.value + 5 + 2;
    }
    ReadsEnds(line, cursor, timestamps, spec);
    if timestamps == [] {
      return Ok(None);
    }
    return Ok(Some(Line(timestamps, line[cursor..])));
  }

  // ---------- any line ----------

  function MapLyric(r: Outcome<Option<Line>>): Outcome<Option<TypedLine>> {
    match r
    case Ok(None) => Ok(None)
    case Ok(Some(l)) => Ok(Some(Lyric(l)))
    case Err(k) => Err(k)
    case Panic => Panic
  }

  /** Key and value of `[key:value]`, given where the colon is. */
  function ParseMeta(line: Bytes, colon: nat): Outcome<Option<TypedLine>>
    requires 2 <= colon < |line|
  {
    var key := line[1..colon];
    var rest := line[colon + 1..];
    if key[0] == SPACE || key[|key| - 1] == SPACE then Err(InvalidTag)
    else if rest != [] && rest[0] == SPACE then Err(InvalidMetadata)
    else match FindByte(RBRACKET, rest)
      case None => Err(InvalidMetadata)
      case Some(end) =>
        if end == 0 || rest[end - 1] == SPACE then Err(InvalidMetadata)
        else Ok(Some(Meta(key, rest[..end])))
  }

  function ParseLine(line: Bytes): Outcome<Option<TypedLine>>
    requires line != []
  {
    if line[0] != LBRACKET then Ok(None)
    else match FindByte(COLON, line[1..])
      case None => Err(InvalidTag)
      case Some(0) => Err(InvalidTag)
      case Some(i) =>
        if IsDigit(line[1]) then MapLyric(LyricLine(line)) else ParseMeta(line, i + 1)
  }

  method ParseTypedLine(line: Bytes) returns (r: Outcome<Option<TypedLine>>)
    requires line != []
    ensures r == ParseLine(line)
  {
    if line[0] != LBRACKET {
      return Ok(None);
    }
    var colon := FindByte(COLON, line[1..]);
    if colon.None? || colon.value == 0 {
      return Err(InvalidTag);
    }
    if IsDigit(line[1]) {
      var lyric := ParseLyricLine(line);
      return MapLyric(lyric);
    }
    return ParseMeta(line, colon.value + 1);
  }

  // ---------- whole texts ----------

  /** What the parser has collected, and whether metadata may still follow. */
  datatype State = State(inMetadata: bool, metadata: map<Bytes, Bytes>, lines: seq<Line>)

  /** One line, newline removed, read in state `st`. */
  function Feed(st: State, raw: Bytes): Outcome<State> {
    var line := Trim(raw);
    if line == [] || line[0] == HASH then Ok(st)
    else match ParseLine(line)
      case Panic => Panic
      case Err(k) => Err(k)
      case Ok(None) => Ok(st)
      case Ok(Some(Meta(key, value))) =>
        if st.inMetadata then Ok(st.(metadata := st.metadata[key := value])) else Err(MetadataAfterLyrics)
      case Ok(Some(Lyric(l))) => Ok(st.(inMetadata := false, lines := st.lines + [l]))
  }

  /** The lines of a text, each ended by a newline; bytes after the last newline
      are not part of any line. */
  function SplitLines(s: Bytes): seq<Bytes> {
    match FindByte(NEWLINE, s)
    case None => []
    case Some(i) => [s[..i]] + SplitLines(s[i + 1..])
  }

  /** Reads `lines` from state `st`, the first of them having number `n + 1`. */
  function FeedAll(lines: seq<Bytes>, n: nat, st: State): ParseResult {
    if lines == [] then Parsed(Lyrics(st.metadata, st.lines))
    else match Feed(st, lines[0])
      case Panic => Panicked
      case Err(k) => Failed(k, n + 1)
      case Ok(st') => FeedAll(lines[1..], n + 1, st')
  }

  const START := State(true, map[], [])

  function Parse(content: Bytes): ParseResult {
    FeedAll(SplitLines(content), 0, START)
  }

  /** The body of the line loop: skips, rejects or stores one line. */
  method FeedLine(st: State, raw: Bytes) returns (r: Outcome<State>)
    ensures r == Feed(st, raw)
  {
    var line := Trim(raw);
    if line == [] || line[0] == HASH {
      return Ok(st);
    }
    var parsed := ParseTypedLine(line);
    match parsed
    case Panic => return Panic;
    case Err(k) => return Err(k);
    case Ok(None) => return Ok(st);
    case Ok(Some(Meta(key, value))) =>
      if !st.inMetadata {
        return Err(MetadataAfterLyrics);
      }
      return Ok(st.(metadata := st.metadata[key := value]));
    case Ok(Some(Lyric(l))) =>
      return Ok(st.(inMetadata := false, lines := st.lines + [l]));
  }

  lemma SplitLinesStep(content: Bytes, idx: nat)
    requires idx <= |content|
    ensures
      match FindByte(NEWLINE, content[idx..])
      case None => SplitLines(content[idx..]) == []
      case Some(i) =>
        SplitLines(content[idx..]) == [content[idx..idx + i]] + SplitLines(content[idx + i + 1..])
  {
    var lineBreak := FindByte(NEWLINE, content[idx..]);
    if lineBreak.Some? {
      assert content[idx..][..lineBreak.value] == content[idx..idx + lineBreak.value];
      assert content[idx..][lineBreak.value + 1..] == content[idx + lineBreak.value + 1..];
    }
  }

  /** The line loop of the parser. */
  method ParseLrc(content: Bytes) returns (r: ParseResult)
    ensures r == Parse(content)
  {
    hide Feed;
    var st := START;
    var currIdx := 0;
    var i := 0;
    assert content[0..] == content;
    var lineBreak := FindByte(NEWLINE, content);
    while lineBreak.Some?
      invariant 0 <= currIdx <= |content|
      invariant lineBreak == FindByte(NEWLINE, content[currIdx..])
      invariant FeedAll(SplitLines(content[currIdx..]), i, st) == Parse(content)
      decreases |content| - currIdx
    {
      SplitLinesStep(content, currIdx);
      var fed := FeedLine(st, content[currIdx..currIdx + lineBreak.value]);
      match fed {
        case Panic => return Panicked;
        case Err(k) => return Failed(k, i + 1);
        case Ok(next) => st := next;
      }
      currIdx := currIdx + lineBreak.value + 1;
      lineBreak := FindByte(NEWLINE, content[currIdx..]);
      i := i + 1;
    }
    SplitLinesStep(content, currIdx);
    return Parsed(Lyrics(st.metadata, st.lines));
  }
}
