/** Printing and parsing whole lyrics: the printer, its normal form, and the
    exact condition under which what is printed reads back as it was. */
module LrcRoundTrip {
  import opened Bytes
  import opened Lrc
  import opened LrcTimestamps
  import opened LrcTags

  // ---------- well-formed lyrics ----------

  predicate KeyOk(key: Bytes) {
    && key != [] && !IsDigit(key[0])
    && key[0] != SPACE && key[|key| - 1] != SPACE
    && COLON !in key && NEWLINE !in key
  }

  predicate ValueOk(value: Bytes) {
    && value != [] && value[0] != SPACE && value[|value| - 1] != SPACE
    && RBRACKET !in value && NEWLINE !in value
  }

  predicate TextOk(text: Bytes) {
    && (text == [] || text[0] != LBRACKET)
    && BlankTail(text) == 0
    && NEWLINE !in text
  }

  predicate Printable(timestamps: seq<nat>) {
    forall i :: 0 <= i < |timestamps| ==> timestamps[i] < LIMIT
  }

  predicate LineOk(l: Line) { l.timestamps != [] && TextOk(l.text) }

  /** What the parser guarantees of its output, apart from how long timestamps are. */
  predicate Canonical(l: Lyrics) {
    && (forall k :: k in l.metadata ==> KeyOk(k) && ValueOk(l.metadata[k]))
    && LinesOk(l.lines)
  }

  predicate LinesOk(lines: seq<Line>) { forall l :: l in lines ==> LineOk(l) }

  predicate WellFormed(l: Lyrics) {
    Canonical(l) && AllPrintable(l.lines)
  }

  predicate AllPrintable(lines: seq<Line>) { forall l :: l in lines ==> Printable(l.timestamps) }

  // ---------- the printer ----------

  /** Byte-wise lexicographic order, in which a sorted map is iterated. */
  predicate Before(a: Bytes, b: Bytes) {
    if b == [] then false
    else if a == [] then true
    else if a[0] != b[0] then a[0] < b[0]
    else Before(a[1..], b[1..])
  }

  predicate Least(k: Bytes, keys: set<Bytes>) {
    k in keys && forall k' :: k' in keys && k' != k ==> Before(k, k')
  }

  lemma {:induction false} BeforeTotal(a: Bytes, b: Bytes)
    requires a != b
    ensures Before(a, b) != Before(b, a)
  {
    if a != [] && b != [] && a[0] == b[0] {
      assert a == [a[0]] + a[1..] && b == [b[0]] + b[1..];
      BeforeTotal(a[1..], b[1..]);
    }
  }

  lemma {:induction false} BeforeTransitive(a: Bytes, b: Bytes, c: Bytes)
    requires Before(a, b) && Before(b, c)
    ensures Before(a, c)
  {
    if a != [] && a[0] == b[0] == c[0] {
      BeforeTransitive(a[1..], b[1..], c[1..]);
    }
  }

  lemma {:induction false} LeastExists(keys: set<Bytes>)
    requires keys != {}
    ensures exists k :: Least(k, keys)
  {
    hide Before;
    var x :| x in keys;
    if keys == {x} {
      assert Least(x, keys);
    } else {
      var rest := keys - {x};
      LeastExists(rest);
      var k :| Least(k, rest);
      BeforeTotal(x, k);
      if Before(k, x) {
        assert Least(k, keys);
      } else {
        forall k' | k' in rest && k' != k ensures Before(x, k') {
          BeforeTransitive(x, k, k');
        }
        assert Least(x, keys);
      }
    }
  }

  lemma LeastUnique(k: Bytes, k': Bytes, keys: set<Bytes>)
    requires Least(k, keys) && Least(k', keys)
    ensures k == k'
  {
    if k != k' {
      BeforeTotal(k, k');
    }
  }

  ghost function Ascending(keys: set<Bytes>): seq<Bytes> {
    if keys == {} then []
    else
      LeastExists(keys);
      var k :| Least(k, keys);
      [k] + Ascending(keys - {k})
  }

  function MetaLine(key: Bytes, value: Bytes): Bytes { [LBRACKET] + key + [COLON] + value + [RBRACKET] }

  function Stamps(timestamps: seq<nat>): seq<Bytes> {
    seq(|timestamps|, i requires 0 <= i < |timestamps| => FormatTimestamp(timestamps[i]))
  }

  function LyricText(l: Line): Bytes { Tags(Stamps(l.timestamps)) + l.text }

  ghost function MetaLines(metadata: map<Bytes, Bytes>, keys: seq<Bytes>): seq<Bytes>
    requires forall k :: k in keys ==> k in metadata
  {
    if keys == [] then [] else [MetaLine(keys[0], metadata[keys[0]])] + MetaLines(metadata, keys[1..])
  }

  function LyricLines(lines: seq<Line>): seq<Bytes> {
    if lines == [] then [] else [LyricText(lines[0])] + LyricLines(lines[1..])
  }

  function Join(lines: seq<Bytes>): Bytes {
    if lines == [] then [] else lines[0] + [NEWLINE] + Join(lines[1..])
  }

  /** The order is the usual one: a proper prefix, or smaller at the first difference. */
  lemma {:induction false} BeforeIff(a: Bytes, b: Bytes)
    ensures Before(a, b)
       <==> a < b || exists i :: 0 <= i < |a| && i < |b| && a[..i] == b[..i] && a[i] < b[i]
  {
    if a != [] && b != [] && a[0] == b[0] {
      var a', b' := a[1..], b[1..];
      BeforeIff(a', b');
      assert a == [a[0]] + a' && b == [b[0]] + b';
      assert a < b <==> a' < b';
      if i :| 0 <= i < |a'| && i < |b'| && a'[..i] == b'[..i] && a'[i] < b'[i] {
        assert a[..i + 1] == [a[0]] + a'[..i] && b[..i + 1] == [b[0]] + b'[..i];
        assert a[i + 1] < b[i + 1];
      }
      if i :| 0 <= i < |a| && i < |b| && a[..i] == b[..i] && a[i] < b[i] {
        assert a'[..i - 1] == a[..i][1..] && b'[..i - 1] == b[..i][1..];
        assert a'[i - 1] < b'[i - 1];
      }
    } else if a != [] && b != [] && a[0] < b[0] {
      assert a[..0] == b[..0];
    }
  }

  lemma {:induction false} AscendingInOrder(keys: set<Bytes>)
    ensures forall i, j :: 0 <= i < j < |Ascending(keys)| ==> Before(Ascending(keys)[i], Ascending(keys)[j])
  {
    hide Before;
    if keys != {} {
      LeastExists(keys);
      var all := Ascending(keys);
      var k, rest := all[0], all[1..];
      assert Least(k, keys) && rest == Ascending(keys - {k});
      AscendingElements(keys - {k});
      AscendingInOrder(keys - {k});
      assert all == [k] + rest;
      assert forall i :: 0 <= i < |rest| ==> rest[i] in rest;
    }
  }

  lemma {:induction false} AscendingElements(keys: set<Bytes>)
    ensures forall k :: k in Ascending(keys) <==> k in keys
  {
    if keys != {} {
      LeastExists(keys);
      var k := Ascending(keys)[0];
      AscendingElements(keys - {k});
    }
  }

  ghost function PrintedLines(l: Lyrics): seq<Bytes> {
    AscendingElements(l.metadata.Keys);
    MetaLines(l.metadata, Ascending(l.metadata.Keys)) + LyricLines(l.lines)
  }

  ghost function Print(l: Lyrics): Bytes { Join(PrintedLines(l)) }

  lemma NothingLeft(metadata: map<Bytes, Bytes>)
    ensures Ascending({}) == [] && MetaLines(metadata, []) == [] && Join([]) == []
  {}

  lemma {:induction false} JoinAppend(lines: seq<Bytes>, line: Bytes)
    ensures Join(lines + [line]) == Join(lines) + line + [NEWLINE]
  {
    if lines == [] {
      assert [line][1..] == [];
    } else {
      assert (lines + [line])[1..] == lines[1..] + [line];
      JoinAppend(lines[1..], line);
    }
  }

  lemma {:induction false} TagsAppend(stamps: seq<Bytes>, stamp: Bytes)
    ensures Tags(stamps + [stamp]) == Tags(stamps) + Tag(stamp)
  {
    if stamps == [] {
      assert [stamp][1..] == [];
    } else {
      assert (stamps + [stamp])[1..] == stamps[1..] + [stamp];
      TagsAppend(stamps[1..], stamp);
    }
  }

  /** The tags of one line, written one after the other. */
  method WriteTags(timestamps: seq<nat>) returns (out: Bytes)
    ensures out == Tags(Stamps(timestamps))
  {
    out := [];
    for i := 0 to |timestamps|
      invariant out == Tags(Stamps(timestamps[..i]))
    {
      var ts := timestamps[i];
      var minutes := ts / 60000;
      var seconds := (ts / 1000) % 60;
      var millis := ts % 1000;
      assert Stamps(timestamps[..i + 1]) == Stamps(timestamps[..i]) + [FormatTimestamp(ts)];
      TagsAppend(Stamps(timestamps[..i]), FormatTimestamp(ts));
      var stamp := Padded(minutes, 2) + [COLON] + Padded(seconds, 2) + [DOT] + Padded(millis, 3);
      out := out + ([LBRACKET] + stamp + [RBRACKET]);
    }
    assert timestamps[..|timestamps|] == timestamps;
  }

  lemma AscendingStep(metadata: map<Bytes, Bytes>, keys: set<Bytes>, key: Bytes)
    requires keys <= metadata.Keys && Least(key, keys)
    ensures forall k :: k in Ascending(keys) ==> k in metadata
    ensures forall k :: k in Ascending(keys - {key}) ==> k in metadata
    ensures MetaLines(metadata, Ascending(keys))
         == [MetaLine(key, metadata[key])] + MetaLines(metadata, Ascending(keys - {key}))
  {
    AscendingElements(keys);
    AscendingElements(keys - {key});
    LeastUnique(key, Ascending(keys)[0], keys);
  }

  /** The first loop of the printer: metadata in key order. */
  method WriteMetadata(metadata: map<Bytes, Bytes>) returns (out: Bytes)
    ensures (forall k :: k in Ascending(metadata.Keys) ==> k in metadata)
         && out == Join(MetaLines(metadata, Ascending(metadata.Keys)))
  {
    hide Before, MetaLine, Ascending, Join;
    out := [];
    var keys := metadata.Keys;
    AscendingElements(keys);
    NothingLeft(metadata);
    ghost var all := MetaLines(metadata, Ascending(keys));
    ghost var written: seq<Bytes> := [];
    while keys != {}
      invariant keys <= metadata.Keys
      invariant forall k :: k in Ascending(keys) ==> k in metadata
      invariant out == Join(written)
      invariant written + MetaLines(metadata, Ascending(keys)) == all
    {
      LeastExists(keys);
      var key :| Least(key, keys);
      AscendingStep(metadata, keys, key);
      var line := MetaLine(key, metadata[key]);
      JoinAppend(written, line);
      written := written + [line];
      out := out + line + [NEWLINE];
      keys := keys - {key};
    }
    assert written == all;
  }

  /** The second loop of the printer: the lyric lines. */
  method WriteLines(lines: seq<Line>) returns (out: Bytes)
    ensures out == Join(LyricLines(lines))
  {
    hide Tags, Stamps, Join;
    NothingLeft(map[]);
    out := [];
    ghost var written: seq<Bytes> := [];
    assert lines[0..] == lines;
    for i := 0 to |lines|
      invariant out == Join(written)
      invariant written + LyricLines(lines[i..]) == LyricLines(lines)
    {
      var tags := WriteTags(lines[i].timestamps);
      ghost var line := LyricText(lines[i]);
      assert lines[i..][1..] == lines[i + 1..];
      assert LyricLines(lines[i..]) == [line] + LyricLines(lines[i + 1..]);
      JoinAppend(written, line);
      written := written + [line];
      out := out + (tags + lines[i].text) + [NEWLINE];
    }
    assert written + [] == written;
  }

  lemma {:induction false} JoinConcat(a: seq<Bytes>, b: seq<Bytes>)
    ensures Join(a + b) == Join(a) + Join(b)
  {
    if a == [] {
      assert a + b == b;
    } else {
      assert (a + b)[1..] == a[1..] + b;
      JoinConcat(a[1..], b);
    }
  }

  /** The printer. */
  method Display(l: Lyrics) returns (out: Bytes)
    ensures out == Print(l)
  {
    var metadata := WriteMetadata(l.metadata);
    var lines := WriteLines(l.lines);
    JoinConcat(MetaLines(l.metadata, Ascending(l.metadata.Keys)), LyricLines(l.lines));
    out := metadata + lines;
  }

  // ---------- reading printed lines ----------

  lemma {:induction false} SplitJoin(lines: seq<Bytes>)
    requires forall i :: 0 <= i < |lines| ==> NEWLINE !in lines[i]
    ensures SplitLines(Join(lines)) == lines
  {
    if lines != [] {
      var s := Join(lines);
      FindByteAt(NEWLINE, s, |lines[0]|);
      assert s[..|lines[0]|] == lines[0];
      assert s[|lines[0]| + 1..] == Join(lines[1..]);
      SplitJoin(lines[1..]);
    }
  }

  /** A line that starts with `[` and does not end in white space is not trimmed. */
  lemma Untrimmed(line: Bytes)
    requires line != [] && line[0] == LBRACKET && BlankTail(line) == 0
    ensures Trim(line) == line
  {}

  lemma FeedMeta(st: State, key: Bytes, value: Bytes)
    requires KeyOk(key) && ValueOk(value) && st.inMetadata
    ensures Feed(st, MetaLine(key, value)) == Ok(st.(metadata := st.metadata[key := value]))
  {
    var line := MetaLine(key, value);
    Untrimmed(line);
    FindByteAt(COLON, line[1..], |key|);
    var rest := line[|key| + 2..];
    assert line[1..|key| + 1] == key;
    assert rest == value + [RBRACKET];
    FindByteAt(RBRACKET, rest, |value|);
    assert rest[..|value|] == value;
  }

  lemma {:induction false} ReadTags(timestamps: seq<nat>, text: Bytes)
    requires text == [] || text[0] != LBRACKET
    ensures ParseTags(Tags(Stamps(timestamps)) + text)
         == if Printable(timestamps) then Ok(Line(timestamps, text)) else Err(MissingBrackets)
  {
    hide FormatTimestamp, ParseTimestamp;
    if timestamps == [] {
      assert Tags(Stamps(timestamps)) + text == text;
    } else {
      var ts, stamp := timestamps[0], FormatTimestamp(timestamps[0]);
      var more := Tags(Stamps(timestamps[1..])) + text;
      assert Stamps(timestamps)[1..] == Stamps(timestamps[1..]);
      assert Tags(Stamps(timestamps)) + text == Tag(stamp) + more;
      TimestampLength(ts);
      TimestampRoundTrip(ts);
      ReadTags(timestamps[1..], text);
      if ts < LIMIT {
        TagStep(stamp, more);
        assert [ts] + timestamps[1..] == timestamps;
      } else {
        LongTag(stamp, more);
      }
    }
  }

  lemma LyricTextShape(l: Line)
    requires LineOk(l)
    ensures var line := LyricText(l);
            && |line| > 2 && line[0] == LBRACKET && IsDigit(line[1]) && COLON in line[2..]
            && BlankTail(line) == 0
            && NEWLINE !in line
  {
    hide Padded;
    var stamps := Stamps(l.timestamps);
    var stamp := stamps[0];
    forall i | 0 <= i < |stamps| ensures NEWLINE !in stamps[i] { TimestampLength(l.timestamps[i]); }
    Parts(l.timestamps[0]);
    TimestampLength(l.timestamps[0]);
    TagsShape(stamps);
    var line := LyricText(l);
    assert Tags(stamps) == Tag(stamp) + Tags(stamps[1..]);
    assert line[1] == stamp[0];
    var m := Padded(l.timestamps[0] / 60_000, 2);
    assert line[1 + |m|] == stamp[|m|] == COLON;
    assert line[1 + |m|] == line[2..][|m| - 1];
  }

  lemma {:induction false} TagsShape(stamps: seq<Bytes>)
    requires forall i :: 0 <= i < |stamps| ==> NEWLINE !in stamps[i]
    ensures NEWLINE !in Tags(stamps)
    ensures stamps != [] ==> Tags(stamps) != [] && Tags(stamps)[|Tags(stamps)| - 1] == RBRACKET
  {
    if stamps != [] {
      TagsShape(stamps[1..]);
    }
  }
}
