/** What the lyric-line parser accepts, rejects and dies on, stated without a cursor:
    an accepted line is a row of tags followed by its text. */
module LrcTags {
  import opened Options
  import opened Bytes
  import opened Lrc
  import opened LrcTimestamps

  function Tag(stamp: Bytes): Bytes { [LBRACKET] + stamp + [RBRACKET] }

  function Tags(stamps: seq<Bytes>): Bytes {
    if stamps == [] then [] else Tag(stamps[0]) + Tags(stamps[1..])
  }

  /** What stands between the brackets of a tag the window search can close:
      five to thirteen bytes, no `]` from the sixth on. */
  predicate StampOk(stamp: Bytes) {
    5 <= |stamp| <= 13 && forall i :: 5 <= i < |stamp| ==> stamp[i] != RBRACKET
  }

  ghost predicate Reading(stamps: seq<Bytes>, timestamps: seq<nat>) {
    && |stamps| == |timestamps|
    && forall i :: 0 <= i < |stamps| ==>
      StampOk(stamps[i]) && ParseTimestamp(stamps[i]) == Some(timestamps[i])
  }

  /** `s` is exactly the tags `[stamp1]`..`[stampN]` followed by the text of `l`. */
  ghost predicate Tiled(s: Bytes, stamps: seq<Bytes>, l: Line) {
    && Reading(stamps, l.timestamps)
    && (l.text == [] || l.text[0] != LBRACKET)
    && s == Tags(stamps) + l.text
  }

  /** What makes the parser stop at `tail`: fewer than five bytes after the `[`, where the
      original slices past the end; no `]` within the window; or a tag that is not a
      timestamp. */
  ghost predicate BadTail(tail: Bytes, r: Outcome<Line>) {
    && tail != [] && tail[0] == LBRACKET
    && match r
       case Panic => |tail| <= 5
       case Err(MissingBrackets) =>
         |tail| > 5 && forall i :: 6 <= i < 15 && i < |tail| ==> tail[i] != RBRACKET
       case Err(InvalidTimestamp) =>
         exists stamp, more :: StampOk(stamp) && ParseTimestamp(stamp).None? && tail == Tag(stamp) + more
       case _ => false
  }

  /** After some good tags comes a tail at which the parser stops. */
  ghost predicate Stops(s: Bytes, stamps: seq<Bytes>, timestamps: seq<nat>, tail: Bytes, r: Outcome<Line>) {
    && Reading(stamps, timestamps)
    && s == Tags(stamps) + tail
    && BadTail(tail, r)
  }

  /** Where the original slices past the end. */
  ghost predicate CutShort(s: Bytes) {
    exists stamps, timestamps, tail :: Stops(s, stamps, timestamps, tail, Panic)
  }

  lemma {:induction false} TagStep(stamp: Bytes, more: Bytes)
    requires StampOk(stamp)
    ensures ParseTags(Tag(stamp) + more)
         == match ParseTimestamp(stamp)
            case None => Err(InvalidTimestamp)
            case Some(ts) => Push(ts, ParseTags(more))
  {
    hide ParseTimestamp;
    var s := Tag(stamp) + more;
    var rest := s[1..];
    assert rest == stamp + [RBRACKET] + more;
    var window := if |rest| > 14 then rest[5..14] else rest[5..];
    FindByteAt(RBRACKET, window, |stamp| - 5);
    assert rest[..|stamp|] == stamp;
    assert s[|stamp| + 2..] == more;
  }

  /** A tag of fourteen bytes or more hides its bracket from the window. */
  lemma LongTag(stamp: Bytes, more: Bytes)
    requires |stamp| >= 14 && forall i :: 0 <= i < |stamp| ==> stamp[i] != RBRACKET
    ensures ParseTags(Tag(stamp) + more) == Err(MissingBrackets)
  {
    var s := Tag(stamp) + more;
    var rest := s[1..];
    assert rest == stamp + [RBRACKET] + more;
    var window := rest[5..14];
    assert forall i :: 0 <= i < 9 ==> window[i] == stamp[i + 5];
    assert FindByte(RBRACKET, window).None?;
  }

  /** Cutting the first tag off an accepted or fatal line. */
  lemma FirstTag(s: Bytes) returns (stamp: Bytes)
    requires |s| >= 6 && s[0] == LBRACKET
    requires FindClosing(s[1..]).Some?
    ensures StampOk(stamp) && |s| >= |stamp| + 2
    ensures s == Tag(stamp) + s[|stamp| + 2..]
    ensures stamp == s[1..][..FindClosing(s[1..]).value + 5]
  {
    var rest := s[1..];
    var c := FindClosing(rest).value;
    stamp := rest[..c + 5];
    var window := if |rest| > 14 then rest[5..14] else rest[5..];
    assert forall i :: 5 <= i < |stamp| ==> stamp[i] == window[i - 5];
  }

  lemma TagsCons(stamp: Bytes, stamps: seq<Bytes>, tail: Bytes)
    ensures Tags([stamp] + stamps) + tail == Tag(stamp) + (Tags(stamps) + tail)
  {
    assert ([stamp] + stamps)[1..] == stamps;
  }

  lemma ReadingCons(stamp: Bytes, ts: nat, stamps: seq<Bytes>, timestamps: seq<nat>)
    requires Reading(stamps, timestamps) && StampOk(stamp) && ParseTimestamp(stamp) == Some(ts)
    ensures Reading([stamp] + stamps, [ts] + timestamps)
  {
    hide ParseTimestamp, StampOk;
  }

  lemma {:induction false} TilesSound(s: Bytes) returns (stamps: seq<Bytes>)
    requires ParseTags(s).Ok?
    ensures Tiled(s, stamps, ParseTags(s).value)
    decreases |s|
  {
    hide ParseTimestamp;
    stamps := [];
    if s != [] && s[0] == LBRACKET {
      var stamp := FirstTag(s);
      var more := s[|stamp| + 2..];
      TagStep(stamp, more);
      var l := ParseTags(more).value;
      var ts := ParseTimestamp(stamp).value;
      var rest := TilesSound(more);
      stamps := [stamp] + rest;
      TagsCons(stamp, rest, l.text);
      ReadingCons(stamp, ts, rest, l.timestamps);
    }
  }

  /** Good tags are read, whatever follows. */
  lemma {:induction false} TagsThen(stamps: seq<Bytes>, timestamps: seq<nat>, tail: Bytes)
    requires Reading(stamps, timestamps)
    ensures ParseTags(Tags(stamps) + tail) == PushAll(timestamps, ParseTags(tail))
    decreases |stamps|
  {
    hide ParseTimestamp, StampOk, ParseTags;
    var r := ParseTags(tail);
    if stamps == [] {
      assert Tags(stamps) + tail == tail;
      assert r.Ok? ==> [] + r.value.timestamps == r.value.timestamps;
    } else {
      var more := Tags(stamps[1..]) + tail;
      assert Tags(stamps) + tail == Tag(stamps[0]) + more;
      TagsThen(stamps[1..], timestamps[1..], tail);
      TagStep(stamps[0], more);
      if r.Ok? {
        assert [timestamps[0]] + (timestamps[1..] + r.value.timestamps) == timestamps + r.value.timestamps;
      }
    }
  }

  lemma {:induction false} TilesComplete(s: Bytes, stamps: seq<Bytes>, l: Line)
    requires Tiled(s, stamps, l)
    ensures ParseTags(s) == Ok(l)
  {
    hide Reading;
    TagsThen(stamps, l.timestamps, l.text);
    assert l.timestamps + [] == l.timestamps;
  }

  /** The parser accepts exactly the tiled lines, with the timestamps and text of the tiling. */
  lemma {:induction false} AcceptedIffTiled(s: Bytes, l: Line)
    ensures ParseTags(s) == Ok(l) <==> exists stamps :: Tiled(s, stamps, l)
  {
    if ParseTags(s) == Ok(l) {
      var stamps := TilesSound(s);
    }
    if stamps :| Tiled(s, stamps, l) {
      TilesComplete(s, stamps, l);
    }
  }

  lemma {:induction false} StopSound(s: Bytes) returns (stamps: seq<Bytes>, timestamps: seq<nat>, tail: Bytes)
    requires !ParseTags(s).Ok?
    ensures Stops(s, stamps, timestamps, tail, ParseTags(s))
    decreases |s|
  {
    hide ParseTimestamp, BadTail, ParseTags, StampOk;
    stamps, timestamps, tail := [], [], s;
    FirstStep(s);
    if |s| < 6 || FindClosing(s[1..]).None? {
      StopsHere(s);
    } else {
      var stamp := FirstTag(s);
      var more := s[|stamp| + 2..];
      TagStep(stamp, more);
      var ts := ParseTimestamp(stamp);
      if ts.None? {
        StopsAtTag(stamp, more);
      } else {
        var rest, times, end := StopSound(more);
        TagsCons(stamp, rest, end);
        ReadingCons(stamp, ts.value, rest, times);
        stamps, timestamps, tail := [stamp] + rest, [ts.value] + times, end;
      }
    }
  }

  lemma FirstStep(s: Bytes)
    ensures s == [] || s[0] != LBRACKET ==> ParseTags(s).Ok?
    ensures s != [] && s[0] == LBRACKET && |s| < 6 ==> ParseTags(s) == Panic
    ensures |s| >= 6 && s[0] == LBRACKET && FindClosing(s[1..]).None? ==> ParseTags(s) == Err(MissingBrackets)
  {}

  lemma StopsAtTag(stamp: Bytes, more: Bytes)
    requires StampOk(stamp) && ParseTimestamp(stamp).None?
    ensures BadTail(Tag(stamp) + more, Err(InvalidTimestamp))
  {
    hide ParseTimestamp, StampOk;
  }

  /** A `[` whose tag the window cannot close. */
  lemma StopsHere(s: Bytes)
    requires s != [] && s[0] == LBRACKET
    ensures BadTail(s, Panic) <==> |s| < 6
    ensures BadTail(s, Err(MissingBrackets)) <==> |s| >= 6 && FindClosing(s[1..]).None?
  {
    if |s| >= 6 {
      var rest := s[1..];
      var window := if |rest| > 14 then rest[5..14] else rest[5..];
      assert forall i :: 0 <= i < |window| ==> window[i] == s[i + 6];
      assert forall i :: 6 <= i < 15 && i < |s| ==> s[i] == window[i - 6];
    }
  }

  lemma {:induction false} StopComplete(
    s: Bytes, stamps: seq<Bytes>, timestamps: seq<nat>, tail: Bytes, r: Outcome<Line>)
    requires Stops(s, stamps, timestamps, tail, r)
    ensures ParseTags(s) == r
  {
    hide Reading, StampOk, FindClosing, ParseTimestamp;
    TagsThen(stamps, timestamps, tail);
    StopsHere(tail);
    if r == Err(InvalidTimestamp) {
      var stamp, more :| StampOk(stamp) && ParseTimestamp(stamp).None? && tail == Tag(stamp) + more;
      TagStep(stamp, more);
    }
  }

  /** The parser refuses a line, or slices past its end, exactly when good tags are
      followed by a tail of that kind. */
  lemma RefusedIff(s: Bytes, r: Outcome<Line>)
    requires !r.Ok?
    ensures ParseTags(s) == r <==> exists stamps, timestamps, tail :: Stops(s, stamps, timestamps, tail, r)
  {
    hide ParseTags, Stops;
    if ParseTags(s) == r {
      var stamps, timestamps, tail := StopSound(s);
    }
    if stamps, timestamps, tail :| Stops(s, stamps, timestamps, tail, r) {
      StopComplete(s, stamps, timestamps, tail, r);
    }
  }

  lemma {:induction false} PanicIffCutShort(s: Bytes)
    ensures ParseTags(s) == Panic <==> CutShort(s)
  {
    hide ParseTags, Stops;
    RefusedIff(s, Panic);
  }

  /** The smallest such text: `[1:2]` and a newline. */
  lemma PanicExample()
    ensures Parse([LBRACKET, 49, COLON, 50, RBRACKET, NEWLINE]) == Panicked
  {
    var line: Bytes := [LBRACKET, 49, COLON, 50, RBRACKET];
    var content := line + [NEWLINE];
    assert content == [LBRACKET, 49, COLON, 50, RBRACKET, NEWLINE];
    FindByteAt(NEWLINE, content, 5);
    assert content[..5] == line;
    FindByteAt(COLON, line[1..], 1);
    assert Trim(line) == line;
    assert ParseTags(line) == Panic;
    assert ParseLine(line) == Panic;
  }
}
