/** What the payload and the signatures of a release contain, track by track. */
module ReleaseMeaning {
  import opened Options
  import opened Sorting
  import opened ReleaseSignature
  import opened ReleaseTheorems
  import Text

  // ---------- circles ----------

  lemma {:induction false} CirclesConcat(a: seq<Option<string>>, b: seq<Option<string>>, artists: map<string, int>)
    ensures CircleIds(a + b, artists)
         == match (CircleIds(a, artists), CircleIds(b, artists))
            case (Err(e), _) => Err(e)
            case (_, Err(e)) => Err(e)
            case (Ok(x), Ok(y)) => Ok(x + y)
  {
    hide CircleName;
    if b == [] {
      assert a + b == a;
      assert CircleIds(a, artists).Ok? ==> CircleIds(a, artists).value + [] == CircleIds(a, artists).value;
    } else {
      assert (a + b)[..|a + b| - 1] == a + b[..|b| - 1];
      CirclesConcat(a, b[..|b| - 1], artists);
      var front, name := b[..|b| - 1], CircleName(b[|b| - 1]);
      assert (a + b)[|a + b| - 1] == b[|b| - 1];
      if CircleIds(a, artists).Ok? && CircleIds(front, artists).Ok? && name in artists {
        var x, y := CircleIds(a, artists).value, CircleIds(front, artists).value;
        assert x + (y + [artists[name]]) == (x + y) + [artists[name]];
      }
    }
  }

  /** One circle: nothing for what is not a string or is blank, else the id of the
      stripped name, which must be there. Ids of several circles come one after the other. */
  lemma CircleMeaning(c: Option<string>, name: string, rest: seq<Option<string>>, artists: map<string, int>)
    requires name == if c.Some? then Text.Strip(c.value) else ""
    ensures CircleIds([c] + rest, artists)
         == if name != "" && name !in artists then Err(MissingArtist(name))
            else match CircleIds(rest, artists)
              case Err(e) => Err(e)
              case Ok(ids) => Ok(if name == "" then ids else [artists[name]] + ids)
  {
    hide Text.Strip;
    CirclesConcat([c], rest, artists);
    assert [c][..0] == [] && CircleIds([], artists) == Ok([]);
    assert forall ids: seq<int> :: [] + ids == ids;
    assert name in artists ==> [] + [artists[name]] == [artists[name]];
  }

  // ---------- tracks ----------

  /** Where a seed track goes: a positive disc number counts from one, anything else is
      the first disc; number and song are the seed's. */
  ghost predicate At(t: Track, songs: map<int, int>, disc: int, number: Option<string>, song: int) {
    && t.song in songs && song == songs[t.song]
    && number == t.number
    && (forall d :: t.disc == Some(d) && d > 0 ==> disc == d - 1)
    && ((t.disc.None? || t.disc.value <= 0) ==> disc == 0)
  }

  lemma {:induction false} KeysMeaning(tracks: seq<Track>, songs: map<int, int>)
    ensures TrackKeys(tracks, songs).Ok? ==>
              && |TrackKeys(tracks, songs).value| == |tracks|
              && forall i :: 0 <= i < |tracks| ==>
                   var k := TrackKeys(tracks, songs).value[i]; At(tracks[i], songs, k.disc, k.number, k.song)
    ensures TrackKeys(tracks, songs).Err? ==>
              exists i :: 0 <= i < |tracks| && FirstMissing(tracks, songs, i, TrackKeys(tracks, songs).error)
  {
    if tracks != [] {
      var n := |tracks| - 1;
      KeysMeaning(tracks[..n], songs);
      if TrackKeys(tracks[..n], songs).Err? {
        var e := TrackKeys(tracks[..n], songs).error;
        var i :| 0 <= i < n && FirstMissing(tracks[..n], songs, i, e);
        assert FirstMissing(tracks, songs, i, e);
      } else if tracks[n].song !in songs {
        assert FirstMissing(tracks, songs, n, MissingSong(tracks[n].song));
      }
    }
  }

  /** Track `i` is the first whose song has no id. */
  ghost predicate FirstMissing(tracks: seq<Track>, songs: map<int, int>, i: nat, e: Error)
    requires i < |tracks|
  {
    && tracks[i].song !in songs && e == MissingSong(tracks[i].song)
    && forall j :: 0 <= j < i ==> tracks[j].song in songs
  }

  /** The payload, from the seed alone: every track where the seed puts it, and as many
      discs as the highest positive disc number says, or one. */
  lemma PayloadMeaning(release: Release, ids: Ids, p: Payload)
    requires Built(release, ids, p)
    ensures |p.tracks| == |release.tracks|
    ensures forall i :: 0 <= i < |p.tracks| ==>
              At(release.tracks[i], ids.songs, p.tracks[i].disc, p.tracks[i].number, p.tracks[i].song)
    ensures forall i :: 0 <= i < |p.tracks| ==> p.tracks[i].duration == release.tracks[i].duration
    ensures p.title == Text.Strip(release.title)
    ensures p.discs >= 1
    ensures forall i, d :: 0 <= i < |release.tracks| && release.tracks[i].disc == Some(d) ==> d <= p.discs
    ensures p.discs > 1 ==> exists i :: 0 <= i < |release.tracks| && release.tracks[i].disc == Some(p.discs)
  {
    hide TrackKeys, CircleIds, At;
    KeysMeaning(release.tracks, ids.songs);
    forall i | 0 <= i < |p.tracks|
      ensures At(release.tracks[i], ids.songs, p.tracks[i].disc, p.tracks[i].number, p.tracks[i].song)
    {
      var k := KeysOf(p.tracks)[i];
      assert k == Key(p.tracks[i].disc, p.tracks[i].number, p.tracks[i].song);
    }
    forall i, d | 0 <= i < |release.tracks| && release.tracks[i].disc == Some(d) ensures d <= p.discs {
      assert p.tracks[i] in p.tracks;
      DiscOf(release.tracks[i], ids.songs, p.tracks[i]);
    }
    if p.discs > 1 {
      var t :| t in p.tracks && t.disc == p.discs - 1;
      var i :| 0 <= i < |p.tracks| && p.tracks[i] == t;
      DiscOf(release.tracks[i], ids.songs, t);
    }
  }

  lemma DiscOf(t: Track, songs: map<int, int>, p: PayloadTrack)
    requires At(t, songs, p.disc, p.number, p.song)
    ensures t.disc.Some? ==> p.disc >= t.disc.value - 1
    ensures p.disc > 0 ==> t.disc == Some(p.disc + 1)
  {}

  /** The expected signature: the seed's tracks, each where the seed puts it, in order. */
  lemma ExpectedMeaning(release: Release, ids: Ids) returns (keys: seq<Key>)
    requires Expected(release, ids).Ok?
    ensures |keys| == |release.tracks|
    ensures forall i :: 0 <= i < |keys| ==>
              At(release.tracks[i], ids.songs, keys[i].disc, keys[i].number, keys[i].song)
    ensures var s := Expected(release, ids).value;
            && multiset(s.tracks) == multiset(keys) && Ordered(BY_KEY, s.tracks)
            && multiset(s.artists) == multiset(CircleIds(release.circles, ids.artists).value)
            && Ordered(BY_ID, s.artists)
  {
    hide TrackKeys, CircleIds, At, Sort, Orders, Ordered;
    keys := TrackKeys(release.tracks, ids.songs).value;
    KeysMeaning(release.tracks, ids.songs);
    IdsOrder();
    KeysOrder();
    SortOrders(BY_ID, CircleIds(release.circles, ids.artists).value);
    SortOrders(BY_KEY, keys);
  }

  /** The strings agree before `i`, and there `a` has the lower character. */
  predicate LowerAt(a: string, b: string, i: nat) {
    i < |a| && i < |b| && a[..i] == b[..i] && a[i] < b[i]
  }

  lemma LowerAtTail(a: string, b: string, i: nat)
    requires a != [] && b != [] && a[0] == b[0]
    ensures LowerAt(a, b, i + 1) <==> LowerAt(a[1..], b[1..], i)
    ensures !LowerAt(a, b, 0)
  {
    var c, d := a[1..], b[1..];
    if i < |c| && i < |d| {
      assert a[..i + 1] == [a[0]] + c[..i] && b[..i + 1] == [b[0]] + d[..i];
      assert a[..i + 1][1..] == c[..i] && b[..i + 1][1..] == d[..i];
    }
  }

  /** Strings compare as usual: a proper prefix, or the lower character at the first
      difference. */
  lemma {:induction false} StringLessIff(a: string, b: string)
    ensures StringLess(a, b) <==> a < b || exists i: nat :: LowerAt(a, b, i)
  {
    if a != [] && b != [] && a[0] == b[0] {
      var c, d := a[1..], b[1..];
      StringLessIff(c, d);
      assert a == [a[0]] + c && b == [b[0]] + d;
      LowerAtTail(a, b, 0);
      hide LowerAt;
      if i: nat :| LowerAt(c, d, i) {
        LowerAtTail(a, b, i);
      }
      if i: nat :| LowerAt(a, b, i) {
        LowerAtTail(a, b, i - 1);
      }
    } else if a != [] && b != [] && a[0] < b[0] {
      assert LowerAt(a, b, 0);
    }
  }

  /** A signature is ascending: artists by id, tracks by disc, then number, then song. */
  lemma SignatureAscends(s: Signature)
    requires Ordered(BY_ID, s.artists) && Ordered(BY_KEY, s.tracks)
    ensures forall i, j :: 0 <= i < j < |s.artists| ==> s.artists[i] <= s.artists[j]
    ensures forall i, j :: 0 <= i < j < |s.tracks| ==> Ascends(s.tracks[i], s.tracks[j])
  {
    assert forall i, j :: 0 <= i < j < |s.artists| ==> Le(BY_ID, s.artists[i], s.artists[j]);
    forall i, j | 0 <= i < j < |s.tracks| ensures Ascends(s.tracks[i], s.tracks[j]) {
      assert Le(BY_KEY, s.tracks[i], s.tracks[j]);
      var a, b := s.tracks[i].number, s.tracks[j].number;
      if a.Some? && b.Some? {
        StringOrder(a.value, b.value);
      }
    }
  }

  ghost predicate Ascends(a: Key, b: Key) {
    || a.disc < b.disc
    || (a.disc == b.disc && a.number.Some? && b.number.Some? && StringLess(a.number.value, b.number.value))
    || (a.disc == b.disc && a.number == b.number && a.song <= b.song)
  }

  // ---------- stored releases ----------

  lemma {:induction false} IntsMeaning(xs: seq<Option<int>>)
    ensures Ints(xs).Some? <==> forall i :: 0 <= i < |xs| ==> xs[i].Some?
    ensures Ints(xs).Some? ==>
              |Ints(xs).value| == |xs| && forall i :: 0 <= i < |xs| ==> xs[i] == Some(Ints(xs).value[i])
  {
    if xs != [] {
      var n := |xs| - 1;
      IntsMeaning(xs[..n]);
      assert xs[..n] + [xs[n]] == xs;
    }
  }

  /** A disc's index is its last position. */
  lemma {:induction false} IndexMeaning(discs: seq<int>, d: int)
    ensures d in DiscIndex(discs) <==> d in discs
    ensures d in DiscIndex(discs) ==>
              && 0 <= DiscIndex(discs)[d] < |discs| && discs[DiscIndex(discs)[d]] == d
              && forall j :: DiscIndex(discs)[d] < j < |discs| ==> discs[j] != d
  {
    if discs != [] {
      IndexMeaning(discs[..|discs| - 1], d);
    }
  }

  ghost predicate StoredAt(t: StoredTrack, index: map<int, int>, k: Key) {
    && t.song == Some(k.song) && t.number == k.number
    && t.disc.Some? && t.disc.value in index && k.disc == index[t.disc.value]
  }

  lemma LastStored(t: StoredTrack, index: map<int, int>)
    requires t.song.Some? && t.disc.Some? && t.disc.value in index
    ensures StoredAt(t, index, Key(index[t.disc.value], t.number, t.song.value))
  {}

  lemma {:induction false} StoredMeaning(tracks: seq<StoredTrack>, index: map<int, int>)
    ensures StoredKeys(tracks, index).Some?
       <==> forall t :: t in tracks ==> t.song.Some? && t.disc.Some? && t.disc.value in index
    ensures StoredKeys(tracks, index).Some? ==>
              && |StoredKeys(tracks, index).value| == |tracks|
              && forall i :: 0 <= i < |tracks| ==> StoredAt(tracks[i], index, StoredKeys(tracks, index).value[i])
  {
    if tracks != [] {
      var n := |tracks| - 1;
      hide StoredAt;
      StoredMeaning(tracks[..n], index);
      assert tracks == tracks[..n] + [tracks[n]];
      var t := tracks[n];
      if t.song.Some? && t.disc.Some? && t.disc.value in index {
        LastStored(t, index);
      }
    }
  }

  /** A stored release can be read exactly when its members are lists, its ids are
      integers and every track is on one of its discs; its artists are then read in order
      and each track at its disc's last position. */
  lemma ContentsMeaning(e: Entity)
    ensures Contents(e).Some? <==>
              && e.artists.Some? && e.discs.Some? && e.tracks.Some?
              && (forall i :: 0 <= i < |e.artists.value| ==> e.artists.value[i].Some?)
              && (forall i :: 0 <= i < |e.discs.value| ==> e.discs.value[i].Some?)
              && (forall t :: t in e.tracks.value ==> t.song.Some? && t.disc.Some? && t.disc in e.discs.value)
    ensures Contents(e).Some? ==>
              var index := DiscIndex(Ints(e.discs.value).value);
              && Some(Contents(e).value.0) == Ints(e.artists.value)
              && |Contents(e).value.1| == |e.tracks.value|
              && forall i :: 0 <= i < |e.tracks.value| ==> StoredAt(e.tracks.value[i], index, Contents(e).value.1[i])
  {
    hide Ints, DiscIndex, StoredKeys, StoredAt;
    if e.artists.Some? && e.discs.Some? && e.tracks.Some? {
      IntsMeaning(e.artists.value);
      IntsMeaning(e.discs.value);
      if Ints(e.discs.value).Some? {
        var discs := Ints(e.discs.value).value;
        StoredMeaning(e.tracks.value, DiscIndex(discs));
        forall d: int ensures d in DiscIndex(discs) <==> Some(d) in e.discs.value {
          IndexMeaning(discs, d);
          assert forall i :: 0 <= i < |discs| ==> e.discs.value[i] == Some(discs[i]);
          if d in discs {
            var i :| 0 <= i < |discs| && discs[i] == d;
            assert e.discs.value[i] == Some(d);
          }
        }
        assert forall t :: t in e.tracks.value && t.disc.Some? ==>
          (t.disc.value in DiscIndex(discs) <==> Some(t.disc.value) in e.discs.value);
        assert forall t: StoredTrack :: t.disc.Some? ==> t.disc == Some(t.disc.value);
      }
    }
  }
}
