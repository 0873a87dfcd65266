/** A release the importer stored is recognised as such, and only such a release is. */
module ReleaseTheorems {
  import opened Options
  import opened Sorting
  import opened ReleaseSignature
  import Text

  function Wrap(xs: seq<int>): (ys: seq<Option<int>>)
    ensures |ys| == |xs|
  {
    seq(|xs|, i requires 0 <= i < |xs| => Some(xs[i]))
  }

  predicate Distinct(xs: seq<int>) { forall i, j :: 0 <= i < j < |xs| ==> xs[i] != xs[j] }

  predicate OnDiscs(tracks: seq<PayloadTrack>, discs: seq<int>) {
    forall i :: 0 <= i < |tracks| ==> 0 <= tracks[i].disc < |discs|
  }

  function Rows(tracks: seq<PayloadTrack>, discs: seq<int>): (rows: seq<StoredTrack>)
    requires OnDiscs(tracks, discs)
    ensures |rows| == |tracks|
  {
    seq(|tracks|, i requires 0 <= i < |tracks| =>
      StoredTrack(Some(tracks[i].song), Some(discs[tracks[i].disc]), tracks[i].number))
  }

  /** The server stored the payload: it made an id for each disc, and returns the
      artists and the tracks in some order. */
  ghost predicate Stores(p: Payload, e: Entity, artists: seq<int>, discs: seq<int>, tracks: seq<PayloadTrack>) {
    && multiset(artists) == multiset(p.artists)
    && multiset(tracks) == multiset(p.tracks)
    && |discs| == p.discs && Distinct(discs)
    && OnDiscs(tracks, discs)
    && e == Entity(Some(Wrap(artists)), Some(Wrap(discs)), Some(Rows(tracks, discs)))
  }

  lemma {:induction false} IntsOfWrap(xs: seq<int>)
    ensures Ints(Wrap(xs)) == Some(xs)
  {
    if xs != [] {
      var front := xs[..|xs| - 1];
      IntsOfWrap(front);
      assert Wrap(xs)[..|xs| - 1] == Wrap(front);
      assert xs == front + [xs[|xs| - 1]];
    }
  }

  lemma {:induction false} IndexOfDistinct(discs: seq<int>)
    requires Distinct(discs)
    ensures forall d :: d in DiscIndex(discs) <==> d in discs
    ensures forall i :: 0 <= i < |discs| ==> DiscIndex(discs)[discs[i]] == i
  {
    if discs != [] {
      IndexOfDistinct(discs[..|discs| - 1]);
    }
  }

  lemma {:induction false} KeysOfRows(tracks: seq<PayloadTrack>, discs: seq<int>)
    requires Distinct(discs) && OnDiscs(tracks, discs)
    ensures StoredKeys(Rows(tracks, discs), DiscIndex(discs)) == Some(KeysOf(tracks))
  {
    if tracks == [] {
      assert KeysOf(tracks) == [];
    } else {
      hide DiscIndex;
      var n := |tracks| - 1;
      IndexOfDistinct(discs);
      KeysOfRows(tracks[..n], discs);
      assert Rows(tracks, discs)[..n] == Rows(tracks[..n], discs);
      var t := tracks[n];
      assert KeysOf(tracks) == KeysOf(tracks[..n]) + [Key(t.disc, t.number, t.song)];
    }
  }

  lemma KeysSplit(a: seq<PayloadTrack>, t: PayloadTrack, b: seq<PayloadTrack>)
    ensures KeysOf(a + [t] + b) == KeysOf(a) + [Key(t.disc, t.number, t.song)] + KeysOf(b)
    ensures multiset(KeysOf(a + [t] + b)) == multiset(KeysOf(a + b)) + multiset{Key(t.disc, t.number, t.song)}
  {
    assert KeysOf(a + [t] + b) == KeysOf(a) + [Key(t.disc, t.number, t.song)] + KeysOf(b);
    assert KeysOf(a + b) == KeysOf(a) + KeysOf(b);
  }

  /** The order of the tracks does not change which keys there are. */
  lemma {:induction false} KeysOfPermutation(s: seq<PayloadTrack>, t: seq<PayloadTrack>)
    requires multiset(s) == multiset(t)
    ensures multiset(KeysOf(s)) == multiset(KeysOf(t))
  {
    hide KeysOf;
    assert |s| == |multiset(t)|;
    if s == [] {
      assert t == [];
    } else {
      var x, rest := s[0], s[1..];
      assert s == [] + [x] + rest && rest == [] + rest;
      assert x in multiset(t);
      var a, b := Around(t, x);
      SameWithout(rest, x, a, b);
      KeysOfPermutation(rest, a + b);
      KeysSplit([], x, rest);
      KeysSplit(a, x, b);
    }
  }

  lemma SignedAlike(a: seq<int>, k: seq<Key>, b: seq<int>, l: seq<Key>)
    ensures multiset(a) == multiset(b) && multiset(k) == multiset(l) ==> Signed(a, k) == Signed(b, l)
    ensures Signed(a, k) == Signed(b, l) && Signed(a, k).Ok? ==>
              multiset(a) == multiset(b) && multiset(k) == multiset(l)
    ensures Signed(a, k).Ok? <==> !Mixed(k)
    ensures Signed(a, k).Err? ==> Signed(a, k).error == Unorderable
  {
    hide Sort, Orders, AllComparable, Mixed, Ordered;
    IdsOrder();
    KeysOrder();
    SortsAlikeIff(BY_ID, a, b);
    SortsAlikeIff(BY_KEY, k, l);
    SortOrders(BY_ID, a);
    SortOrders(BY_KEY, k);
    AllIdsComparable(a);
    MixedIff(k);
  }

  lemma AllIdsComparable(a: seq<int>)
    ensures AllComparable(BY_ID, a)
  {
  }

  /** The release read back has the payload's artists and tracks, each as often. */
  ghost predicate Holds(e: Entity, p: Payload) {
    && Contents(e).Some?
    && multiset(Contents(e).value.0) == multiset(p.artists)
    && multiset(Contents(e).value.1) == multiset(KeysOf(p.tracks))
  }

  /** A stored release has the expected signature; when tracks of one disc are numbered
      and unnumbered, neither signature can be taken. */
  lemma StoredIsRecognised(
    release: Release, ids: Ids, p: Payload,
    e: Entity, artists: seq<int>, discs: seq<int>, tracks: seq<PayloadTrack>)
    requires Built(release, ids, p) && Stores(p, e, artists, discs, tracks)
    ensures Mixed(KeysOf(p.tracks)) ==> Existing(e) == Err(Unorderable) && Expected(release, ids) == Err(Unorderable)
    ensures !Mixed(KeysOf(p.tracks)) ==>
              Expected(release, ids).Ok? && Existing(e) == Ok(Some(Expected(release, ids).value))
    ensures Contents(e) == Some((artists, KeysOf(tracks)))
  {
    hide Signed, Mixed, StoredKeys, Ints, DiscIndex, KeysOf;
    IntsOfWrap(artists);
    IntsOfWrap(discs);
    KeysOfRows(tracks, discs);
    KeysOfPermutation(tracks, p.tracks);
    SignedAlike(p.artists, KeysOf(p.tracks), artists, KeysOf(tracks));
  }

  /** A release without a signature: two tracks of one disc, one of them numbered. */
  lemma UnorderableExample()
    ensures var release := Release("A", [], [Track(1, Some(1), Some("1"), None), Track(2, Some(1), None, None)]);
            var ids := Ids(map[1 := 10, 2 := 20], map[]);
            Expected(release, ids) == Err(Unorderable)
  {
    var one, two := Track(1, Some(1), Some("1"), None), Track(2, Some(1), None, None);
    var songs: map<int, int> := map[1 := 10, 2 := 20];
    var keys := [Key(0, Some("1"), 10), Key(0, None, 20)];
    assert [one, two][..1] == [one] && [one][..0] == [];
    assert [] + [keys[0]] == [keys[0]] && [keys[0]] + [keys[1]] == keys;
    assert TrackKeys([one], songs) == Ok([keys[0]]);
    assert TrackKeys([one, two], songs) == Ok(keys);
    assert Mixed(keys) by { assert keys[1] in keys && keys[0] in keys; }
    SignedAlike([], keys, [], keys);
  }

  /** A release read back is taken for the seed's exactly when it has the same artists
      and the same songs at the same places, each as often. */
  lemma RecognisedIff(release: Release, ids: Ids, e: Entity)
    requires Expected(release, ids).Ok?
    ensures Existing(e) == Ok(Some(Expected(release, ids).value))
       <==> Contents(e).Some?
            && multiset(Contents(e).value.0) == multiset(CircleIds(release.circles, ids.artists).value)
            && multiset(Contents(e).value.1) == multiset(TrackKeys(release.tracks, ids.songs).value)
  {
    hide Signed, Contents, Mixed;
    if Contents(e).Some? {
      SignedAlike(
        CircleIds(release.circles, ids.artists).value, TrackKeys(release.tracks, ids.songs).value,
        Contents(e).value.0, Contents(e).value.1);
    }
  }

  // ---------- the lookup ----------

  /** One search result; a result, id or title of the wrong shape reads as None. */
  datatype Item = Item(id: Option<int>, title: Option<string>, entity: Entity)

  /** What the second, title-based comparison says of a result. */
  type TitleMatch = Entity -> Result<bool>

  predicate Candidate(fold: char -> string, title: string, it: Item) {
    it.id.Some? && it.title.Some? && Text.Normalize(fold, it.title.value) == Text.Normalize(fold, title)
  }

  predicate Same(it: Item, s: Signature) { Existing(it.entity) == Ok(Some(s)) }

  predicate Raises(it: Item, s: Signature, titles: TitleMatch) {
    Existing(it.entity).Err? || (!Same(it, s) && titles(it.entity).Err?)
  }

  predicate Alike(it: Item, s: Signature, titles: TitleMatch) {
    !Same(it, s) && titles(it.entity) == Ok(true)
  }

  /** What the lookup answers over the candidates among its results: the one with the
      signature; several are an error; without any, the least of those alike by title. */
  ghost predicate Finds(cs: seq<Item>, s: Signature, titles: TitleMatch, r: Result<Option<int>>) {
    if exists it :: it in cs && Raises(it, s, titles) then r.Err?
    else
      && (forall it :: it in cs && Same(it, s) ==>
            r == if forall o :: o in cs && Same(o, s) ==> o.id == it.id then Ok(it.id) else Err(Ambiguous))
      && ((forall it :: it in cs ==> !Same(it, s)) ==>
            && r.Ok?
            && (r.value.None? ==> forall it :: it in cs ==> !Alike(it, s, titles))
            && (r.value.Some? ==>
                  && (exists it :: it in cs && Alike(it, s, titles) && it.id == r.value)
                  && (forall it :: it in cs && Alike(it, s, titles) && it.id.Some? ==> r.value.value <= it.id.value)))
  }

  function Candidates(fold: char -> string, title: string, items: seq<Item>): (cs: seq<Item>)
    ensures forall it :: it in cs <==> it in items && Candidate(fold, title, it)
  {
    if items == [] then []
    else
      var n := |items| - 1;
      Candidates(fold, title, items[..n]) + (if Candidate(fold, title, items[n]) then [items[n]] else [])
  }

  ghost predicate SameId(cs: seq<Item>, s: Signature, x: int) {
    exists it :: it in cs && Same(it, s) && it.id == Some(x)
  }

  ghost predicate AlikeId(cs: seq<Item>, s: Signature, titles: TitleMatch, x: int) {
    exists it :: it in cs && Alike(it, s, titles) && it.id == Some(x)
  }

  /** A result without id or title, or of another title, makes no difference. */
  lemma {:induction false} OtherTitlesIgnored(fold: char -> string, title: string, a: seq<Item>, it: Item, b: seq<Item>)
    requires it.id.None? || it.title.None?
          || Text.Normalize(fold, it.title.value) != Text.Normalize(fold, title)
    ensures Candidates(fold, title, a + [it] + b) == Candidates(fold, title, a + b)
  {
    hide Text.Normalize;
    if b == [] {
      assert a + [it] + b == a + [it] && a + b == a;
      assert (a + [it])[..|a|] == a;
    } else {
      var c, d := a + [it] + b, a + b;
      assert c[..|c| - 1] == a + [it] + b[..|b| - 1] && d[..|d| - 1] == a + b[..|b| - 1];
      OtherTitlesIgnored(fold, title, a, it, b[..|b| - 1]);
    }
  }

  method FindExistingReleaseId(
    fold: char -> string, items: seq<Item>, title: string, s: Signature, titles: TitleMatch)
    returns (r: Result<Option<int>>)
    ensures Finds(Candidates(fold, title, items), s, titles, r)
  {
    hide Existing, Candidate;
    ghost var cs := Candidates(fold, title, items);
    var matched, alike: set<int> := {}, {};
    for i := 0 to |items|
      invariant forall it :: it in Candidates(fold, title, items[..i]) ==> !Raises(it, s, titles)
      invariant forall x :: x in matched <==> SameId(Candidates(fold, title, items[..i]), s, x)
      invariant forall x :: x in alike <==> AlikeId(Candidates(fold, title, items[..i]), s, titles, x)
    {
      var it := items[i];
      assert items[..i + 1] == items[..i] + [it] && items[..i + 1][..i] == items[..i];
      ghost var before := Candidates(fold, title, items[..i]);
      if Candidate(fold, title, it) {
        var signature := Existing(it.entity);
        if signature.Err? {
          assert it in cs && Raises(it, s, titles);
          return Err(signature.error);
        }
        IsCandidate(fold, title, it);
        OneMore(before, it, s, titles);
        if signature.value == Some(s) {
          matched := matched + {it.id.value};
        } else {
          var titleMatch := titles(it.entity);
          if titleMatch.Err? {
            assert it in cs && Raises(it, s, titles);
            return Err(titleMatch.error);
          }
          if titleMatch.value {
            alike := alike + {it.id.value};
          }
        }
      }
    }
    assert items[..|items|] == items;
    forall it | it in cs ensures it.id.Some? {
      IsCandidate(fold, title, it);
    }
    r := Decide(cs, s, titles, matched, alike);
  }

  lemma IsCandidate(fold: char -> string, title: string, it: Item)
    requires Candidate(fold, title, it)
    ensures it.id.Some?
  {
  }

  lemma OneMore(cs: seq<Item>, it: Item, s: Signature, titles: TitleMatch)
    requires it.id.Some?
    ensures forall x :: SameId(cs + [it], s, x) <==> SameId(cs, s, x) || (Same(it, s) && x == it.id.value)
    ensures forall x :: AlikeId(cs + [it], s, titles, x) <==>
              AlikeId(cs, s, titles, x) || (Alike(it, s, titles) && x == it.id.value)
  {
    hide Same, Alike;
    assert forall o :: o in cs + [it] <==> o in cs || o == it;
    forall x ensures SameId(cs + [it], s, x) <==> SameId(cs, s, x) || (Same(it, s) && x == it.id.value) {
      if SameId(cs, s, x) {
        var o :| o in cs && Same(o, s) && o.id == Some(x);
        assert o in cs + [it];
      }
    }
    forall x ensures AlikeId(cs + [it], s, titles, x) <==>
                       AlikeId(cs, s, titles, x) || (Alike(it, s, titles) && x == it.id.value) {
      if AlikeId(cs, s, titles, x) {
        var o :| o in cs && Alike(o, s, titles) && o.id == Some(x);
        assert o in cs + [it];
      }
    }
  }

  method Decide(ghost cs: seq<Item>, s: Signature, titles: TitleMatch, matched: set<int>, alike: set<int>)
    returns (r: Result<Option<int>>)
    requires forall it :: it in cs ==> it.id.Some? && !Raises(it, s, titles)
    requires forall x :: x in matched <==> SameId(cs, s, x)
    requires forall x :: x in alike <==> AlikeId(cs, s, titles, x)
    ensures Finds(cs, s, titles, r)
  {
    hide Same, Alike, Raises;
    var m := Listing(matched);
    var a := Listing(alike);
    forall it | it in cs && Same(it, s) ensures it.id.value in m {
      assert SameId(cs, s, it.id.value);
    }
    forall it | it in cs && Alike(it, s, titles) ensures it.id.value in a {
      assert AlikeId(cs, s, titles, it.id.value);
    }
    if |m| > 1 {
      assert m[0] in m && m[1] in m;
      assert SameId(cs, s, m[0]) && SameId(cs, s, m[1]);
      return Err(Ambiguous);
    }
    if |m| == 1 {
      assert m[0] in m;
      assert forall x :: x in m ==> x == m[0];
      return Ok(Some(m[0]));
    }
    if |a| == 0 {
      return Ok(None);
    }
    var least := a[0];
    for i := 1 to |a|
      invariant least in a && forall k :: 0 <= k < i ==> least <= a[k]
    {
      if a[i] < least {
        least := a[i];
      }
    }
    return Ok(Some(least));
  }

  /** Looking a stored release up again finds it exactly when no signature of that title
      is broken and no other release of that title has the same artists and tracks. */
  lemma {:induction false} StoredIsFound(
    fold: char -> string, release: Release, ids: Ids, p: Payload, items: seq<Item>, it: Item,
    artists: seq<int>, discs: seq<int>, tracks: seq<PayloadTrack>, titles: TitleMatch,
    s: Signature, cs: seq<Item>, r: Result<Option<int>>)
    requires Built(release, ids, p) && Stores(p, it.entity, artists, discs, tracks)
    requires Expected(release, ids) == Ok(s) && cs == Candidates(fold, release.title, items)
    requires it in items && it.id.Some? && it.title == Some(p.title)
    requires Finds(cs, s, titles, r)
    ensures r == Ok(it.id) <==>
              && (forall o :: o in cs ==> !Raises(o, s, titles))
              && (forall o :: o in cs && Holds(o.entity, p) ==> o.id == it.id)
  {
    hide Existing, Expected, Contents, Raises, Alike, Text.Normalize, Text.Strip, Mixed, Stores, Candidates;
    Text.NormalizeStrip(fold, release.title);
    StoredIsRecognised(release, ids, p, it.entity, artists, discs, tracks);
    assert it in cs && Same(it, s);
    forall o | o in cs ensures Same(o, s) <==> Holds(o.entity, p) {
      RecognisedIff(release, ids, o.entity);
    }
  }
}
