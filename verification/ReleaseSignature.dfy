/** How the release importer recognises a release it stored: the payload it posts, the
    signature it expects and the signature of a release read back from the server. */
module ReleaseSignature {
  import opened Options
  import opened Sorting
  import Text

  /** A seed track. Values that are not integers read as None; a number is its text. */
  datatype Track = Track(song: int, disc: Option<int>, number: Option<string>, duration: Option<int>)

  /** A seed release; circle names that are not strings read as None. */
  datatype Release = Release(title: string, circles: seq<Option<string>>, tracks: seq<Track>)

  datatype Ids = Ids(songs: map<int, int>, artists: map<string, int>)

  datatype Error = MissingArtist(name: string) | MissingSong(id: int) | Unorderable | Ambiguous

  datatype Result<+T> = Ok(value: T) | Err(error: Error)

  datatype PayloadTrack = PayloadTrack(song: int, number: Option<string>, duration: Option<int>, disc: int)

  /** What is posted; discs are unnamed, so only their number matters. */
  datatype Payload = Payload(title: string, artists: seq<int>, discs: nat, tracks: seq<PayloadTrack>)

  datatype Key = Key(disc: int, number: Option<string>, song: int)

  datatype Signature = Signature(artists: seq<int>, tracks: seq<Key>)

  // ---------- comparisons ----------

  predicate StringLess(a: string, b: string) {
    b != [] && (a == [] || a[0] < b[0] || (a[0] == b[0] && StringLess(a[1..], b[1..])))
  }

  /** Tuples compare at the first place they differ; None and a string do not compare. */
  function KeyLess(a: Key, b: Key): Option<bool> {
    if a.disc != b.disc then Some(a.disc < b.disc)
    else if a.number != b.number then
      if a.number.Some? && b.number.Some? then Some(StringLess(a.number.value, b.number.value)) else None
    else Some(a.song < b.song)
  }

  const BY_KEY: Comparison<Key> := (a, b) => KeyLess(a, b)

  const BY_ID: Comparison<int> := (a, b) => Some(a < b)

  lemma {:induction false} StringOrder(a: string, b: string)
    ensures a == b ==> !StringLess(a, b)
    ensures a != b ==> (StringLess(a, b) <==> !StringLess(b, a))
  {
    if a != [] && b != [] {
      StringOrder(a[1..], b[1..]);
      assert a == [a[0]] + a[1..] && b == [b[0]] + b[1..];
    }
  }

  lemma {:induction false} StringTransitive(a: string, b: string, c: string)
    ensures StringLess(a, b) && StringLess(b, c) ==> StringLess(a, c)
  {
    if a != [] && b != [] && c != [] {
      StringTransitive(a[1..], b[1..], c[1..]);
    }
  }

  lemma KeyPair(a: Key, b: Key)
    ensures KeyLess(a, a) == Some(false)
    ensures KeyLess(a, b).None? <==> KeyLess(b, a).None?
    ensures KeyLess(a, b) == Some(true) ==> KeyLess(b, a) == Some(false)
    ensures KeyLess(a, b) == Some(false) && KeyLess(b, a) == Some(false) ==> a == b
  {
    if a.number.Some? && b.number.Some? {
      StringOrder(a.number.value, b.number.value);
    }
  }

  lemma KeyTriple(a: Key, b: Key, c: Key)
    requires KeyLess(b, a) == Some(false) && KeyLess(c, b) == Some(false)
    ensures KeyLess(c, a) == Some(false)
  {
    if a.number.Some? && b.number.Some? && c.number.Some? {
      var x, y, z := a.number.value, b.number.value, c.number.value;
      StringOrder(x, y);
      StringOrder(y, z);
      StringOrder(x, z);
      StringTransitive(x, y, z);
    }
  }

  lemma KeysOrder()
    ensures Orders(BY_KEY)
  {
    hide KeyLess;
    forall a, b
      ensures BY_KEY(a, a) == Some(false) && (BY_KEY(a, b).None? <==> BY_KEY(b, a).None?)
      ensures BY_KEY(a, b) == Some(true) ==> Le(BY_KEY, a, b)
      ensures Le(BY_KEY, a, b) && Le(BY_KEY, b, a) ==> a == b
    {
      KeyPair(a, b);
    }
    forall a, b, c | Le(BY_KEY, a, b) && Le(BY_KEY, b, c) ensures Le(BY_KEY, a, c) {
      KeyTriple(a, b, c);
    }
  }

  lemma IdsOrder()
    ensures Orders(BY_ID)
  {
  }

  /** Some disc has both numbered and unnumbered tracks. */
  ghost predicate Mixed(keys: seq<Key>) {
    exists a, b :: a in keys && b in keys && a.disc == b.disc && a.number.None? && b.number.Some?
  }

  lemma MixedIff(keys: seq<Key>)
    ensures Mixed(keys) <==> !AllComparable(BY_KEY, keys)
  {
    if Mixed(keys) {
      var a, b :| a in keys && b in keys && a.disc == b.disc && a.number.None? && b.number.Some?;
      assert BY_KEY(a, b).None?;
    }
    if !AllComparable(BY_KEY, keys) {
      var a :| a in keys && !Comparable(BY_KEY, a, keys);
      var b :| b in keys && BY_KEY(a, b).None?;
      assert (a.number.None? && b.number.Some?) || (b.number.None? && a.number.Some?);
    }
  }

  // ---------- the seed's side ----------

  function CircleName(raw: Option<string>): string {
    if raw.Some? then Text.Strip(raw.value) else ""
  }

  /** The ids of the named circles, in order; names that are empty are passed over. */
  function CircleIds(circles: seq<Option<string>>, artists: map<string, int>): Result<seq<int>> {
    if circles == [] then Ok([])
    else
      var n := |circles| - 1;
      var name := CircleName(circles[n]);
      match CircleIds(circles[..n], artists)
      case Err(e) => Err(e)
      case Ok(ids) =>
        if name == "" then Ok(ids)
        else if name in artists then Ok(ids + [artists[name]])
        else Err(MissingArtist(name))
  }

  function DiscNumber(disc: Option<int>): int {
    if disc.Some? && disc.value > 0 then disc.value else 1
  }

  function TrackKeys(tracks: seq<Track>, songs: map<int, int>): Result<seq<Key>> {
    if tracks == [] then Ok([])
    else
      var n := |tracks| - 1;
      var t := tracks[n];
      match TrackKeys(tracks[..n], songs)
      case Err(e) => Err(e)
      case Ok(keys) =>
        if t.song in songs then Ok(keys + [Key(DiscNumber(t.disc) - 1, t.number, songs[t.song])])
        else Err(MissingSong(t.song))
  }

  /** The keys of the tracks a payload stores. */
  function KeysOf(tracks: seq<PayloadTrack>): (keys: seq<Key>)
    ensures |keys| == |tracks|
  {
    seq(|tracks|, i requires 0 <= i < |tracks| => Key(tracks[i].disc, tracks[i].number, tracks[i].song))
  }

  /** The first name or song without an id; artists are read before tracks. */
  ghost function Problem(release: Release, ids: Ids): Option<Error> {
    var artists, keys := CircleIds(release.circles, ids.artists), TrackKeys(release.tracks, ids.songs);
    if artists.Err? then Some(artists.error) else if keys.Err? then Some(keys.error) else None
  }

  /** Every track lies on a disc, and no disc number is higher than needed. */
  ghost predicate Placed(p: Payload) {
    && p.discs >= 1
    && (forall t :: t in p.tracks ==> 0 <= t.disc < p.discs)
    && (p.discs > 1 ==> exists t :: t in p.tracks && t.disc == p.discs - 1)
  }

  /** The payload says what the seed says. */
  ghost predicate Built(release: Release, ids: Ids, p: Payload) {
    && CircleIds(release.circles, ids.artists) == Ok(p.artists)
    && TrackKeys(release.tracks, ids.songs) == Ok(KeysOf(p.tracks))
    && |p.tracks| == |release.tracks|
    && (forall i :: 0 <= i < |p.tracks| ==> p.tracks[i].duration == release.tracks[i].duration)
    && p.title == Text.Strip(release.title)
    && Placed(p)
  }

  method ReadCircles(circles: seq<Option<string>>, artists: map<string, int>) returns (r: Result<seq<int>>)
    ensures r == CircleIds(circles, artists)
  {
    var ids := [];
    for i := 0 to |circles|
      invariant CircleIds(circles[..i], artists) == Ok(ids)
    {
      assert circles[..i + 1][..i] == circles[..i];
      var name := CircleName(circles[i]);
      if name != "" {
        if name !in artists {
          CirclesFail(circles, artists, i + 1);
          return Err(MissingArtist(name));
        }
        ids := ids + [artists[name]];
      }
    }
    assert circles[..|circles|] == circles;
    return Ok(ids);
  }

  lemma {:induction false} CirclesFail(circles: seq<Option<string>>, artists: map<string, int>, n: nat)
    requires n <= |circles| && CircleIds(circles[..n], artists).Err?
    ensures CircleIds(circles, artists) == CircleIds(circles[..n], artists)
  {
    if n < |circles| {
      var front := circles[..|circles| - 1];
      assert front[..n] == circles[..n];
      CirclesFail(front, artists, n);
    } else {
      assert circles[..n] == circles;
    }
  }

  lemma {:induction false} TracksFail(tracks: seq<Track>, songs: map<int, int>, n: nat)
    requires n <= |tracks| && TrackKeys(tracks[..n], songs).Err?
    ensures TrackKeys(tracks, songs) == TrackKeys(tracks[..n], songs)
  {
    if n < |tracks| {
      var front := tracks[..|tracks| - 1];
      assert front[..n] == tracks[..n];
      TracksFail(front, songs, n);
    } else {
      assert tracks[..n] == tracks;
    }
  }

  /** The payload posted for a release. */
  method BuildReleasePayload(release: Release, ids: Ids) returns (r: Result<Payload>)
    ensures r.Err? <==> Problem(release, ids).Some?
    ensures r.Err? ==> Some(r.error) == Problem(release, ids)
    ensures r.Ok? ==> Built(release, ids, r.value)
  {
    var artists := ReadCircles(release.circles, ids.artists);
    if artists.Err? {
      return Err(artists.error);
    }
    var tracks, all := [], release.tracks;
    for i := 0 to |all|
      invariant |tracks| == i && TrackKeys(all[..i], ids.songs) == Ok(KeysOf(tracks))
      invariant forall k :: 0 <= k < i ==> tracks[k].disc >= 0 && tracks[k].duration == all[k].duration
    {
      assert all[..i + 1][..i] == all[..i];
      var t := all[i];
      if t.song !in ids.songs {
        TracksFail(all, ids.songs, i + 1);
        return Err(MissingSong(t.song));
      }
      ghost var before := tracks;
      tracks := tracks + [PayloadTrack(ids.songs[t.song], t.number, t.duration, DiscNumber(t.disc) - 1)];
      assert KeysOf(tracks) == KeysOf(before) + [Key(DiscNumber(t.disc) - 1, t.number, ids.songs[t.song])];
    }
    assert all[..|all|] == all;
    var discs := CountDiscs(tracks);
    return Ok(Payload(Text.Strip(release.title), artists.value, discs, tracks));
  }

  method CountDiscs(tracks: seq<PayloadTrack>) returns (discs: nat)
    requires forall k :: 0 <= k < |tracks| ==> tracks[k].disc >= 0
    ensures discs >= 1 && forall t :: t in tracks ==> 0 <= t.disc < discs
    ensures discs > 1 ==> exists t :: t in tracks && t.disc == discs - 1
  {
    discs := 1;
    for i := 0 to |tracks|
      invariant discs >= 1 && forall k :: 0 <= k < i ==> tracks[k].disc < discs
      invariant discs > 1 ==> exists t :: t in tracks && t.disc == discs - 1
    {
      if tracks[i].disc + 1 > discs {
        discs := tracks[i].disc + 1;
        assert tracks[i] in tracks;
      }
    }
  }

  function Signed(artists: seq<int>, keys: seq<Key>): Result<Signature> {
    match Sort(BY_ID, artists)
    case None => Err(Unorderable)
    case Some(a) =>
      match Sort(BY_KEY, keys)
      case None => Err(Unorderable)
      case Some(k) => Ok(Signature(a, k))
  }

  /** The signature a release should have once stored. */
  function Expected(release: Release, ids: Ids): Result<Signature> {
    match CircleIds(release.circles, ids.artists)
    case Err(e) => Err(e)
    case Ok(artists) =>
      match TrackKeys(release.tracks, ids.songs)
      case Err(e) => Err(e)
      case Ok(keys) => Signed(artists, keys)
  }

  method ReleaseExpectedSignature(release: Release, ids: Ids) returns (r: Result<Signature>)
    ensures r == Expected(release, ids)
  {
    var artists := ReadCircles(release.circles, ids.artists);
    if artists.Err? {
      return Err(artists.error);
    }
    var keys, all := [], release.tracks;
    for i := 0 to |all|
      invariant TrackKeys(all[..i], ids.songs) == Ok(keys)
    {
      assert all[..i + 1][..i] == all[..i];
      var t := all[i];
      if t.song !in ids.songs {
        TracksFail(all, ids.songs, i + 1);
        return Err(MissingSong(t.song));
      }
      var disc := DiscNumber(t.disc);
      keys := keys + [Key(disc - 1, t.number, ids.songs[t.song])];
    }
    assert all[..|all|] == all;
    return Signed(artists.value, keys);
  }

  // ---------- the server's side ----------

  /** A track read back; values of the wrong shape read as None. */
  datatype StoredTrack = StoredTrack(song: Option<int>, disc: Option<int>, number: Option<string>)

  /** A release read back: the ids of its artists and of its discs, and its tracks. A
      member that is not a list reads as None. */
  datatype Entity = Entity(
    artists: Option<seq<Option<int>>>,
    discs: Option<seq<Option<int>>>,
    tracks: Option<seq<StoredTrack>>)

  function Ints(xs: seq<Option<int>>): Option<seq<int>> {
    if xs == [] then Some([])
    else
      match Ints(xs[..|xs| - 1])
      case None => None
      case Some(rest) => if xs[|xs| - 1].Some? then Some(rest + [xs[|xs| - 1].value]) else None
  }

  function DiscIndex(discs: seq<int>): map<int, int> {
    if discs == [] then map[]
    else DiscIndex(discs[..|discs| - 1])[discs[|discs| - 1] := |discs| - 1]
  }

  function StoredKeys(tracks: seq<StoredTrack>, index: map<int, int>): Option<seq<Key>> {
    if tracks == [] then Some([])
    else
      var t := tracks[|tracks| - 1];
      match StoredKeys(tracks[..|tracks| - 1], index)
      case None => None
      case Some(keys) =>
        if t.song.Some? && t.disc.Some? && t.disc.value in index
        then Some(keys + [Key(index[t.disc.value], t.number, t.song.value)])
        else None
  }

  /** What the signature of a stored release is made of, if it can be read. */
  function Contents(e: Entity): Option<(seq<int>, seq<Key>)> {
    if e.artists.None? || e.discs.None? || e.tracks.None? then None
    else
      var artists, discs := Ints(e.artists.value), Ints(e.discs.value);
      if artists.None? || discs.None? then None
      else
        match StoredKeys(e.tracks.value, DiscIndex(discs.value))
        case None => None
        case Some(keys) => Some((artists.value, keys))
  }

  function Existing(e: Entity): Result<Option<Signature>> {
    match Contents(e)
    case None => Ok(None)
    case Some((artists, keys)) =>
      match Signed(artists, keys)
      case Err(x) => Err(x)
      case Ok(s) => Ok(Some(s))
  }

  lemma {:induction false} IntsFail(xs: seq<Option<int>>, n: nat)
    requires n <= |xs| && Ints(xs[..n]).None?
    ensures Ints(xs).None?
  {
    if n < |xs| {
      assert xs[..|xs| - 1][..n] == xs[..n];
      IntsFail(xs[..|xs| - 1], n);
    } else {
      assert xs[..n] == xs;
    }
  }

  lemma {:induction false} StoredFail(tracks: seq<StoredTrack>, index: map<int, int>, n: nat)
    requires n <= |tracks| && StoredKeys(tracks[..n], index).None?
    ensures StoredKeys(tracks, index).None?
  {
    if n < |tracks| {
      assert tracks[..|tracks| - 1][..n] == tracks[..n];
      StoredFail(tracks[..|tracks| - 1], index, n);
    } else {
      assert tracks[..n] == tracks;
    }
  }

  method ReleaseExistingSignature(e: Entity) returns (r: Result<Option<Signature>>)
    ensures r == Existing(e)
  {
    hide Signed;
    if e.artists.None? {
      return Ok(None);
    }
    var artists, rows := [], e.artists.value;
    for i := 0 to |rows|
      invariant Ints(rows[..i]) == Some(artists)
    {
      assert rows[..i + 1][..i] == rows[..i];
      if rows[i].None? {
        IntsFail(rows, i + 1);
        return Ok(None);
      }
      artists := artists + [rows[i].value];
    }
    assert rows[..|rows|] == rows;
    if e.discs.None? {
      return Ok(None);
    }
    var index: map<int, int>, discs := map[], e.discs.value;
    ghost var seen := [];
    for i := 0 to |discs|
      invariant Ints(discs[..i]) == Some(seen) && |seen| == i && index == DiscIndex(seen)
    {
      assert discs[..i + 1][..i] == discs[..i];
      if discs[i].None? {
        IntsFail(discs, i + 1);
        return Ok(None);
      }
      assert (seen + [discs[i].value])[..i] == seen;
      index := index[discs[i].value := i];
      seen := seen + [discs[i].value];
    }
    assert discs[..|discs|] == discs;
    if e.tracks.None? {
      return Ok(None);
    }
    var keys, tracks := [], e.tracks.value;
    for i := 0 to |tracks|
      invariant StoredKeys(tracks[..i], index) == Some(keys)
    {
      assert tracks[..i + 1][..i] == tracks[..i];
      var t := tracks[i];
      if t.song.None? || t.disc.None? || t.disc.value !in index {
        StoredFail(tracks, index, i + 1);
        return Ok(None);
      }
      keys := keys + [Key(index[t.disc.value], t.number, t.song.value)];
    }
    assert tracks[..|tracks|] == tracks;
    var signed := Signed(artists, keys);
    match signed {
      case Err(x) => return Err(x);
      case Ok(s) => return Ok(Some(s));
    }
  }
}
