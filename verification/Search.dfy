/** Search by name: rank the matches of main and alternative names, then page by offset. */
module Search {
  import opened Options
  import opened Sorting

  /** A row holding a name of the entity `id`: the entity's own row or an alternative name. */
  datatype Named = Named(id: int, name: string)

  datatype Hit = Hit(id: int, dist: real)

  /** Comparing strings, as the database does it. */
  datatype Matching = Matching(
    lower: string -> string,
    like: (string, string) -> bool,
    similar: (string, string) -> bool,
    distance: (string, string) -> real)

  datatype Page = Page(items: seq<int>, nextCursor: Option<int>)

  const I32_MAX: int := 0x7FFF_FFFF

  // ---------- the query ----------

  predicate Matches(m: Matching, keyword: string, row: Named) {
    if |keyword| < 3 then m.like(m.lower(row.name), m.lower(keyword + "%"))
    else m.similar(m.lower(row.name), m.lower(keyword))
  }

  function Distance(m: Matching, keyword: string, row: Named): real {
    m.distance(m.lower(row.name), m.lower(keyword))
  }

  function Hits(m: Matching, keyword: string, rows: seq<Named>): seq<Hit> {
    if rows == [] then []
    else
      (if Matches(m, keyword, rows[0]) then [Hit(rows[0].id, Distance(m, keyword, rows[0]))] else [])
      + Hits(m, keyword, rows[1..])
  }

  /** The hits of both tables, grouped by entity with the least distance of each. */
  function Ranked(hits: seq<Hit>): map<int, real> {
    if hits == [] then map[]
    else
      var rest, h := Ranked(hits[1..]), hits[0];
      if h.id in rest && rest[h.id] <= h.dist then rest else rest[h.id := h.dist]
  }

  /** Some name of the entity matches at that distance: by prefix for a keyword of one or
      two characters, else by similarity, in lower case all of it. */
  ghost predicate MatchedAt(m: Matching, keyword: string, rows: seq<Named>, id: int, d: real) {
    exists r :: r in rows && NameMatches(m, keyword, r, id, d)
  }

  ghost predicate NameMatches(m: Matching, keyword: string, r: Named, id: int, d: real) {
    && r.id == id
    && (|keyword| <= 2 ==> m.like(m.lower(r.name), m.lower(keyword + "%")))
    && (|keyword| >= 3 ==> m.similar(m.lower(r.name), m.lower(keyword)))
    && d == m.distance(m.lower(r.name), m.lower(keyword))
  }

  lemma {:induction false} HitsMeaning(m: Matching, keyword: string, rows: seq<Named>, id: int, d: real)
    ensures Hit(id, d) in Hits(m, keyword, rows) <==> MatchedAt(m, keyword, rows, id, d)
  {
    if rows != [] {
      HitsMeaning(m, keyword, rows[1..], id, d);
      var r, h, rest := rows[0], Hit(id, d), Hits(m, keyword, rows[1..]);
      assert NameMatches(m, keyword, r, id, d) <==> Matches(m, keyword, r) && h == Hit(r.id, Distance(m, keyword, r));
      assert h in Hits(m, keyword, rows) <==> NameMatches(m, keyword, r, id, d) || h in rest;
      hide NameMatches, Hits;
      assert forall r :: r in rows <==> r == rows[0] || r in rows[1..];
    }
  }

  lemma {:induction false} RankedIsLeast(hits: seq<Hit>)
    ensures forall h :: h in hits ==> h.id in Ranked(hits) && Ranked(hits)[h.id] <= h.dist
    ensures forall id :: id in Ranked(hits) ==> Hit(id, Ranked(hits)[id]) in hits
  {
    if hits != [] {
      RankedIsLeast(hits[1..]);
      assert forall h :: h in hits <==> h == hits[0] || h in hits[1..];
    }
  }

  function Ranking(m: Matching, keyword: string, main: seq<Named>, alternative: seq<Named>): map<int, real> {
    Ranked(Hits(m, keyword, main) + Hits(m, keyword, alternative))
  }

  /** The ranked entities are those matched by a main or an alternative name, each
      with the least distance of its matching names. */
  lemma RankingMeaning(m: Matching, keyword: string, main: seq<Named>, alternative: seq<Named>, id: int)
    ensures var r := Ranking(m, keyword, main, alternative);
            && (id in r <==> exists d :: MatchedAt(m, keyword, main + alternative, id, d))
            && (id in r ==> MatchedAt(m, keyword, main + alternative, id, r[id]))
            && (forall d :: MatchedAt(m, keyword, main + alternative, id, d) ==> id in r && r[id] <= d)
  {
    hide Ranked, Hits, MatchedAt;
    var hits := Hits(m, keyword, main) + Hits(m, keyword, alternative);
    RankedIsLeast(hits);
    forall d ensures Hit(id, d) in hits <==> MatchedAt(m, keyword, main + alternative, id, d) {
      HitsMeaning(m, keyword, main, id, d);
      HitsMeaning(m, keyword, alternative, id, d);
      MatchedInBoth(m, keyword, main, alternative, id, d);
    }
  }

  lemma MatchedInBoth(m: Matching, keyword: string, main: seq<Named>, alternative: seq<Named>, id: int, d: real)
    ensures MatchedAt(m, keyword, main + alternative, id, d)
       <==> MatchedAt(m, keyword, main, id, d) || MatchedAt(m, keyword, alternative, id, d)
  {
    assert forall r :: r in main + alternative <==> r in main || r in alternative;
  }

  // ---------- the join with the entities, and its order ----------

  /** The primary key. */
  predicate Keyed(main: seq<Named>) {
    forall i, j :: 0 <= i < j < |main| ==> main[i].id != main[j].id
  }

  predicate Exists(main: seq<Named>, id: int) { exists r :: r in main && r.id == id }

  /** The order of results: by distance, then by id. */
  predicate Nearer(a: Hit, b: Hit) { a.dist < b.dist || (a.dist == b.dist && a.id < b.id) }

  const NEAREST: Comparison<Hit> := (a, b) => Some(Nearer(a, b))

  /** The ranked entities that exist. */
  function Joined(rank: map<int, real>, main: seq<Named>): seq<Hit> {
    if main == [] then []
    else
      (if main[0].id in rank then [Hit(main[0].id, rank[main[0].id])] else [])
      + Joined(rank, main[1..])
  }

  function Ids(hits: seq<Hit>): (ids: seq<int>)
    ensures |ids| == |hits| && forall i :: 0 <= i < |ids| ==> ids[i] == hits[i].id
  {
    seq(|hits|, i requires 0 <= i < |hits| => hits[i].id)
  }

  function Results(rank: map<int, real>, main: seq<Named>): seq<int> {
    match Sort(NEAREST, Joined(rank, main))
    case Some(hits) => Ids(hits)
    case None => []
  }

  lemma NearestOrders()
    ensures Orders(NEAREST)
  {
  }

  lemma {:induction false} JoinedFacts(rank: map<int, real>, main: seq<Named>, h: Hit)
    requires Keyed(main)
    ensures |Joined(rank, main)| <= |main|
    ensures multiset(Joined(rank, main))[h]
         == if h.id in rank && h.dist == rank[h.id] && Exists(main, h.id) then 1 else 0
  {
    if main != [] {
      JoinedFacts(rank, main[1..], h);
      assert forall r :: r in main <==> r == main[0] || r in main[1..];
      assert forall r :: r in main[1..] ==> r.id != main[0].id;
    }
  }

  /** By rank: strictly nearer, or as near and with a lower id. */
  predicate InOrder(rank: map<int, real>, ids: seq<int>) {
    && (forall i :: 0 <= i < |ids| ==> ids[i] in rank)
    && (forall i, j :: 0 <= i < j < |ids| ==>
          rank[ids[i]] < rank[ids[j]] || (rank[ids[i]] == rank[ids[j]] && ids[i] < ids[j]))
  }

  /** Each existing entity with a rank is a result, once, in the order of rank and id. */
  lemma ResultsFacts(rank: map<int, real>, main: seq<Named>)
    requires Keyed(main)
    ensures InOrder(rank, Results(rank, main)) && |Results(rank, main)| <= |main|
    ensures forall id :: id in Results(rank, main) <==> id in rank && Exists(main, id)
  {
    hide Sort, Joined, Orders, Ordered, Keyed;
    var joined := Joined(rank, main);
    NearestOrders();
    SortOrders(NEAREST, joined);
    assert AllComparable(NEAREST, joined);
    var hits := Sort(NEAREST, joined).value;
    assert |hits| == |multiset(hits)|;
    JoinedFacts(rank, main, Hit(0, 0.0));
    forall h: Hit ensures multiset(hits)[h]
         == if h.id in rank && h.dist == rank[h.id] && Exists(main, h.id) then 1 else 0 {
      JoinedFacts(rank, main, h);
    }
    OrderOfHits(rank, hits);
    forall id: int ensures id in Results(rank, main) <==> id in rank && Exists(main, id) {
      if id in Results(rank, main) {
        var i :| 0 <= i < |hits| && hits[i].id == id;
        assert hits[i] in multiset(hits);
      }
      if id in rank && Exists(main, id) {
        assert Hit(id, rank[id]) in multiset(hits);
        var i :| 0 <= i < |hits| && hits[i] == Hit(id, rank[id]);
        assert Results(rank, main)[i] == id;
      }
    }
  }

  lemma OrderOfHits(rank: map<int, real>, hits: seq<Hit>)
    requires Ordered(NEAREST, hits)
    requires forall h :: multiset(hits)[h] <= 1
    requires forall h :: h in multiset(hits) ==> h.id in rank && h.dist == rank[h.id]
    ensures InOrder(rank, Ids(hits))
  {
    assert forall i :: 0 <= i < |hits| ==> hits[i] in multiset(hits);
    forall i, j | 0 <= i < j < |hits| ensures Nearer(hits[i], hits[j]) {
      assert Le(NEAREST, hits[i], hits[j]);
      OnceDiffer(hits, i, j);
    }
  }

  lemma OnceDiffer(hits: seq<Hit>, i: nat, j: nat)
    requires i < j < |hits| && multiset(hits)[hits[i]] <= 1
    ensures hits[i] != hits[j]
  {
    assert hits == hits[..j] + [hits[j]] + hits[j + 1..];
    assert hits[..j][i] == hits[i];
    assert hits[i] in multiset(hits[..j]);
  }

  // ---------- paging by offset ----------

  function Min(a: int, b: int): int { if a <= b then a else b }

  function Max(a: int, b: int): int { if a <= b then b else a }

  /** The cursor after a page; a limit beyond the cursor's width counts as its maximum. */
  function Advance(cursor: int, limit: nat): int { cursor + Min(limit, I32_MAX) }

  /** A page, declaratively: `limit` results from the cursor on, and a next cursor iff
      some results come after them. A negative cursor counts as zero. */
  function PageAt(all: seq<int>, limit: nat, cursor: int): Page {
    var lo := Min(Max(cursor, 0), |all|);
    var hi := Min(lo + limit, |all|);
    Page(all[lo..hi], if hi < |all| then Some(Advance(cursor, limit)) else None)
  }

  method PaginateOffset(rows: seq<int>, limit: nat, cursor: int) returns (page: Page)
    ensures |rows| <= limit ==> page == Page(rows, None)
    ensures |rows| > limit ==> page == Page(rows[..|rows| - 1], Some(Advance(cursor, limit)))
  {
    var items := rows;
    if |items| <= limit {
      return Page(items, None);
    }
    items := items[..|items| - 1];
    return Page(items, Some(cursor + (if limit <= I32_MAX then limit else I32_MAX)));
  }

  /** The search: rank, join, skip the offset and fetch one row more than asked for. */
  method SearchArtists(m: Matching, keyword: string, main: seq<Named>, alternative: seq<Named>, limit: nat, cursor: int)
    returns (page: Page)
    ensures page == PageAt(Results(Ranking(m, keyword, main, alternative), main), limit, cursor)
  {
    hide Ranking, Results;
    var ordered := Results(Ranking(m, keyword, main, alternative), main);
    var offset := if cursor < 0 then 0 else cursor;
    var rows := if offset <= |ordered| then ordered[offset..] else [];
    var fetched := if |rows| <= limit + 1 then rows else rows[..limit + 1];
    page := PaginateOffset(fetched, limit, cursor);
  }

  /** A request's limit and cursor, made valid. */
  function NormalizeLimit(limit: Option<nat>): nat {
    var n := if limit.Some? then limit.value else 10;
    Max(1, Min(n, 50))
  }

  function NormalizeCursor(cursor: Option<int>): nat {
    Max(if cursor.Some? then cursor.value else 0, 0)
  }

  /** A limit from 1 to 50 is taken as it is, a missing one is 10, a smaller one 1 and a
      larger one 50; a cursor is taken as it is unless missing or negative. */
  lemma LimitTaken(limit: Option<nat>, cursor: Option<int>)
    ensures forall n :: limit == Some(n) && 1 <= n <= 50 ==> NormalizeLimit(limit) == n
    ensures limit.None? ==> NormalizeLimit(limit) == 10
    ensures limit == Some(0) ==> NormalizeLimit(limit) == 1
    ensures limit.Some? && limit.value > 50 ==> NormalizeLimit(limit) == 50
    ensures forall c :: cursor == Some(c) && c >= 0 ==> NormalizeCursor(cursor) == c
    ensures (cursor.None? || cursor.value < 0) ==> NormalizeCursor(cursor) == 0
  {}

  /** The page that answers a request. */
  function Answer(all: seq<int>, limit: Option<nat>, cursor: Option<int>): Page {
    PageAt(all, NormalizeLimit(limit), NormalizeCursor(cursor))
  }

  /** From a cursor that is not negative, a next cursor lies within the results: it
      cannot overflow while their number fits the cursor's type. */
  lemma CursorFits(all: seq<int>, limit: nat, cursor: int)
    requires 0 <= cursor <= I32_MAX && |all| <= I32_MAX
    ensures var items := PageAt(all, limit, cursor).items;
            |items| == if cursor >= |all| then 0 else Min(limit, |all| - cursor)
    ensures var next := PageAt(all, limit, cursor).nextCursor;
            && (next.Some? <==> cursor + limit < |all|)
            && (next.Some? ==> next.value == cursor + limit < |all|)
  {
  }

  // ---------- walking the pages ----------

  /** What a client sees who asks for a page and then follows each next cursor. */
  predicate Walk(all: seq<int>, limit: Option<nat>, start: Option<int>, pages: seq<Page>) {
    && |pages| > 0
    && pages[0] == Answer(all, limit, start)
    && forall i :: 0 <= i < |pages| - 1 ==>
         pages[i].nextCursor.Some? && pages[i + 1] == Answer(all, limit, pages[i].nextCursor)
  }

  function Items(pages: seq<Page>): seq<int> {
    if pages == [] then [] else Items(pages[..|pages| - 1]) + pages[|pages| - 1].items
  }

  lemma {:induction false} WalkFacts(all: seq<int>, limit: Option<nat>, start: Option<int>, pages: seq<Page>)
    requires Walk(all, limit, start, pages) && |all| <= I32_MAX
    ensures var last, from, step := pages[|pages| - 1], NormalizeCursor(start), NormalizeLimit(limit);
            && (last.nextCursor.Some? ==>
                  && last.nextCursor.value == from + |pages| * step < |all|
                  && Items(pages) == all[from..from + |pages| * step])
            && (last.nextCursor.None? ==>
                  && from + |pages| * step >= |all|
                  && Items(pages) == all[Min(from, |all|)..])
            && (|pages| > 1 ==> from + (|pages| - 1) * step < |all|)
    decreases |pages|
  {
    hide PageAt, NormalizeLimit, NormalizeCursor;
    var n, from, step := |pages| - 1, NormalizeCursor(start), NormalizeLimit(limit);
    Normalized(limit, start);
    if n == 0 {
      assert Items(pages) == Items(pages[..0]) + pages[0].items;
      assert 1 * step == step;
      FirstPart(all, step, from);
    } else {
      WalkFacts(all, limit, start, pages[..n]);
      assert pages[..n][n - 1] == pages[n - 1];
      Distribute(n, step);
      var cursor := from + n * step;
      Normalized(limit, Some(cursor));
      NextPart(all, step, from, cursor);
      assert pages[n] == Answer(all, limit, Some(cursor)) == PageAt(all, step, cursor);
      assert Items(pages) == all[from..cursor] + pages[n].items;
    }
  }

  lemma Distribute(n: nat, step: nat)
    ensures (n + 1) * step == n * step + step && n * step >= 0
  {}

  lemma Normalized(limit: Option<nat>, cursor: Option<int>)
    ensures 1 <= NormalizeLimit(limit) <= 50
    ensures cursor.Some? && cursor.value >= 0 ==> NormalizeCursor(cursor) == cursor.value
  {
  }

  lemma FirstPart(all: seq<int>, limit: nat, start: nat)
    requires |all| <= I32_MAX && limit > 0
    ensures var p := PageAt(all, limit, start);
            && (p.nextCursor.Some? ==>
                  p.nextCursor.value == start + limit < |all| && p.items == all[start..start + limit])
            && (p.nextCursor.None? ==> start + limit >= |all| && p.items == all[Min(start, |all|)..])
  {
    var lo := Min(start, |all|);
    var hi := Min(lo + limit, |all|);
    var p := PageAt(all, limit, start);
    assert p.items == all[lo..hi];
    if hi == |all| {
      assert all[lo..hi] == all[lo..];
    } else {
      assert p.nextCursor == Some(start + limit) && lo == start;
    }
  }

  lemma NextPart(all: seq<int>, limit: nat, start: int, cursor: int)
    requires 0 <= start <= cursor < |all| <= I32_MAX && limit > 0
    ensures var p := PageAt(all, limit, cursor);
            && (p.nextCursor.Some? ==>
                  && p.nextCursor.value == cursor + limit < |all|
                  && all[start..cursor] + p.items == all[start..cursor + limit])
            && (p.nextCursor.None? ==> cursor + limit >= |all| && all[start..cursor] + p.items == all[start..])
  {
  }

  /** A walk from the start is finished after exactly as many pages as the results
      fill, and then has shown them all in order. */
  lemma WalkShowsAll(all: seq<int>, limit: Option<nat>, pages: seq<Page>)
    requires Walk(all, limit, None, pages) && |all| <= I32_MAX
    ensures pages[|pages| - 1].nextCursor.None? ==> Items(pages) == all
    ensures pages[|pages| - 1].nextCursor.None? <==> |pages| * NormalizeLimit(limit) >= |all|
    ensures |pages| > 1 ==> (|pages| - 1) * NormalizeLimit(limit) < |all|
  {
    WalkFacts(all, limit, None, pages);
  }

  /** The same for a keyword: each entity with a matching name is shown exactly once,
      nearest first, and no other entity is shown. */
  lemma {:induction false} EachMatchOnce(
    m: Matching, keyword: string, main: seq<Named>, alternative: seq<Named>,
    limit: Option<nat>, pages: seq<Page>, id: int)
    requires Keyed(main) && |main| <= I32_MAX
    requires Walk(Results(Ranking(m, keyword, main, alternative), main), limit, None, pages)
    requires pages[|pages| - 1].nextCursor.None?
    ensures multiset(Items(pages))[id]
         == if Exists(main, id) && (exists d :: MatchedAt(m, keyword, main + alternative, id, d))
            then 1 else 0
    ensures InOrder(Ranking(m, keyword, main, alternative), Items(pages))
  {
    hide Ranking, Results, MatchedAt, Walk, Items;
    var rank := Ranking(m, keyword, main, alternative);
    ResultsFacts(rank, main);
    WalkShowsAll(Results(rank, main), limit, pages);
    RankingMeaning(m, keyword, main, alternative, id);
    OnceInOrder(rank, Items(pages), id);
  }

  lemma {:induction false} OnceInOrder(rank: map<int, real>, ids: seq<int>, id: int)
    requires InOrder(rank, ids)
    ensures multiset(ids)[id] == if id in ids then 1 else 0
  {
    if ids != [] {
      var n := |ids| - 1;
      OnceInOrder(rank, ids[..n], id);
      assert ids == ids[..n] + [ids[n]];
      assert forall i :: 0 <= i < n ==> ids[i] != ids[n];
    }
  }
}
