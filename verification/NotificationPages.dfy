/** Keyset paging of a user's notifications while rows come and go. */
module NotificationPages {
  import opened Options

  datatype Row = Row(user: int, isRead: bool)

  /** The table and the next value of its id sequence. */
  datatype Table = Table(rows: map<int, Row>, nextId: int)

  datatype Page = Page(items: seq<int>, nextCursor: Option<int>)

  // ---------- the query ----------

  predicate Greatest(m: int, s: set<int>) { m in s && forall x :: x in s ==> x <= m }

  lemma {:induction false} GreatestExists(s: set<int>)
    requires s != {}
    ensures exists m :: Greatest(m, s)
  {
    var x := Element(s);
    if s == {x} {
      assert Greatest(x, s);
    } else {
      GreatestExists(s - {x});
      var m :| Greatest(m, s - {x});
      assert forall y :: y in s ==> y == x || y in s - {x};
      if x > m {
        assert Greatest(x, s);
      } else {
        assert Greatest(m, s);
      }
    }
  }

  /** The ids of a set in descending order. */
  function Descending(s: set<int>): seq<int> {
    if s == {} then []
    else
      GreatestExists(s);
      var m :| Greatest(m, s);
      [m] + Descending(s - {m})
  }

  predicate Strict(s: seq<int>) { forall i, j :: 0 <= i < j < |s| ==> s[i] > s[j] }

  lemma DescendingStep(s: set<int>)
    requires s != {}
    ensures Descending(s) != [] && Greatest(Descending(s)[0], s)
    ensures Descending(s)[1..] == Descending(s - {Descending(s)[0]})
  {
    GreatestExists(s);
  }

  lemma {:induction false} DescendingFacts(s: set<int>)
    ensures Strict(Descending(s))
    ensures forall x :: x in Descending(s) <==> x in s
  {
    if s != {} {
      DescendingStep(s);
      hide Descending;
      var all := Descending(s);
      var m, rest := all[0], all[1..];
      DescendingFacts(s - {m});
      assert all == [m] + rest;
      assert forall x :: x in s <==> x == m || x in s - {m};
      assert forall i :: 0 <= i < |rest| ==> rest[i] in rest;
    }
  }

  lemma {:induction false} DescendingSize(s: set<int>)
    ensures |Descending(s)| == |s|
  {
    if s != {} {
      DescendingStep(s);
      hide Descending;
      var m := Descending(s)[0];
      DescendingSize(s - {m});
      assert |Descending(s)| == 1 + |Descending(s)[1..]|;
    }
  }

  /** The user's rows below the cursor. */
  function Selected(t: Table, user: int, cursor: Option<int>): set<int> {
    set id | id in t.rows && t.rows[id].user == user && (cursor.Some? ==> id < cursor.value)
  }

  function Prefix(s: seq<int>, n: nat): seq<int> { if |s| <= n then s else s[..n] }

  /** One page, declaratively: the first `limit` rows, and the last of them as the
      cursor when there are more. */
  function PageAt(t: Table, user: int, limit: nat, cursor: Option<int>): Page {
    var all := Descending(Selected(t, user, cursor));
    Page(Prefix(all, limit), if |all| > limit > 0 then Some(all[limit - 1]) else None)
  }

  /** The listing: one row more than asked for is fetched, to see whether there is a next page. */
  method List(t: Table, user: int, limit: nat, cursor: Option<int>) returns (page: Page)
    ensures page == PageAt(t, user, limit, cursor)
  {
    var select := set id | id in t.rows && t.rows[id].user == user;
    if cursor.Some? {
      select := set id | id in select && id < cursor.value;
    }
    assert select == Selected(t, user, cursor);
    var models := Prefix(Descending(select), limit + 1);
    var hasNext := |models| > limit;
    if hasNext {
      models := models[..limit];
    }
    var nextCursor := None;
    if hasNext && models != [] {
      nextCursor := Some(models[|models| - 1]);
    }
    return Page(models, nextCursor);
  }

  // ---------- changes between pages ----------

  datatype Change = Insert(row: Row) | Delete(id: int) | MarkRead(id: int)

  function Apply(t: Table, c: Change): Table {
    match c
    case Insert(row) => Table(t.rows[t.nextId := row], t.nextId + 1)
    case Delete(id) => t.(rows := t.rows - {id})
    case MarkRead(id) => if id in t.rows then t.(rows := t.rows[id := t.rows[id].(isRead := true)]) else t
  }

  function ApplyAll(t: Table, cs: seq<Change>): Table {
    if cs == [] then t else Apply(ApplyAll(t, cs[..|cs| - 1]), cs[|cs| - 1])
  }

  predicate Sequenced(t: Table) { forall id :: id in t.rows ==> id < t.nextId }

  /** What any changes leave true: new rows get new ids. */
  ghost predicate Later(t: Table, u: Table) {
    && t.nextId <= u.nextId
    && Sequenced(u)
    && forall id :: id in u.rows && id < t.nextId ==> id in t.rows && u.rows[id].user == t.rows[id].user
  }

  lemma {:induction false} ChangesAreLater(t: Table, cs: seq<Change>)
    requires Sequenced(t)
    ensures Later(t, ApplyAll(t, cs))
  {
    if cs != [] {
      ChangesAreLater(t, cs[..|cs| - 1]);
    }
  }

  /** A walk: page by page from the start, each on the table as changed since the last. */
  ghost predicate Walk(tables: seq<Table>, changes: seq<seq<Change>>, user: int, limit: nat, pages: seq<Page>) {
    && |tables| == |pages| > 0 && |changes| == |pages| - 1
    && Sequenced(tables[0])
    && (forall i :: 0 <= i < |changes| ==> tables[i + 1] == ApplyAll(tables[i], changes[i]))
    && pages[0] == PageAt(tables[0], user, limit, None)
    && (forall i :: 0 <= i < |changes| ==>
          pages[i].nextCursor.Some? && pages[i + 1] == PageAt(tables[i + 1], user, limit, pages[i].nextCursor))
  }

  function Items(pages: seq<Page>): seq<int> {
    if pages == [] then [] else Items(pages[..|pages| - 1]) + pages[|pages| - 1].items
  }

  lemma PageFacts(t: Table, user: int, limit: nat, cursor: Option<int>)
    ensures var p := PageAt(t, user, limit, cursor);
            && Strict(p.items)
            && (forall x :: x in p.items ==> x in Selected(t, user, cursor))
            && |p.items| == (if |Selected(t, user, cursor)| <= limit then |Selected(t, user, cursor)| else limit)
            && (p.nextCursor.Some? <==> |Selected(t, user, cursor)| > limit > 0)
            && (p.nextCursor.Some? ==> limit == |p.items| > 0 && p.nextCursor.value == p.items[limit - 1])
            && (forall x :: x in Selected(t, user, cursor) ==>
                  x in p.items || limit == 0 || (p.nextCursor.Some? && x < p.nextCursor.value))
  {
    hide Descending;
    var s := Selected(t, user, cursor);
    DescendingFacts(s);
    DescendingSize(s);
    var all := Descending(s);
    var p := PageAt(t, user, limit, cursor);
    forall x | x in s && limit > 0 ensures x in p.items || (p.nextCursor.Some? && x < p.nextCursor.value) {
      var k :| 0 <= k < |all| && all[k] == x;
      if k < limit {
        assert p.items[k] == x;
      }
    }
  }

  lemma WalkPart(tables: seq<Table>, changes: seq<seq<Change>>, user: int, limit: nat, pages: seq<Page>)
    requires Walk(tables, changes, user, limit, pages) && |pages| > 1
    ensures Walk(tables[..|pages| - 1], changes[..|pages| - 2], user, limit, pages[..|pages| - 1])
  {
    hide PageAt, ApplyAll;
  }

  /** How far a walk has got: everything shown lies at or above the cursor, in the
      original table, in strictly descending order. */
  lemma {:induction false} WalkFacts(
    tables: seq<Table>, changes: seq<seq<Change>>, user: int, limit: nat, pages: seq<Page>)
    requires Walk(tables, changes, user, limit, pages)
    ensures var n := |pages| - 1;
            && Later(tables[0], tables[n])
            && Strict(Items(pages))
            && (forall x :: x in Items(pages) ==> x in Selected(tables[0], user, None))
            && (pages[n].nextCursor.Some? ==> forall x :: x in Items(pages) ==> x >= pages[n].nextCursor.value)
            && (pages[n].nextCursor.Some? ==> pages[n].nextCursor.value in Items(pages))
    decreases |pages|
  {
    hide PageAt, ApplyAll;
    var n := |pages| - 1;
    if n == 0 {
      PageFacts(tables[0], user, limit, None);
      assert Items(pages) == pages[0].items;
      assert forall x :: x in pages[0].items ==> exists i :: 0 <= i < |pages[0].items| && pages[0].items[i] == x;
    } else {
      WalkPart(tables, changes, user, limit, pages);
      WalkFacts(tables[..n], changes[..n - 1], user, limit, pages[..n]);
      ChangesAreLater(tables[n - 1], changes[n - 1]);
      var cursor := pages[n - 1].nextCursor;
      PageFacts(tables[n], user, limit, cursor);
      AppendPage(tables[0], tables[n], user, Items(pages[..n]), pages[n].items, cursor.value);
      assert Items(pages) == Items(pages[..n]) + pages[n].items;
    }
  }

  lemma AppendPage(first: Table, t: Table, user: int, before: seq<int>, here: seq<int>, cursor: int)
    requires Later(first, t) && Sequenced(first)
    requires Strict(before) && Strict(here) && cursor in before
    requires forall x :: x in before ==> x >= cursor && x in Selected(first, user, None)
    requires forall x :: x in here ==> x in Selected(t, user, Some(cursor))
    ensures Strict(before + here)
    ensures forall x :: x in before + here ==> x in Selected(first, user, None)
    ensures here != [] ==> forall x :: x in before + here ==> x >= here[|here| - 1]
  {
    var all := before + here;
    forall i, j | 0 <= i < j < |all| ensures all[i] > all[j] {
      if i < |before| <= j {
        assert all[i] in before && all[j] in here;
      }
    }
    forall x | x in here ensures x in Selected(first, user, None) {
      assert x < cursor;
    }
    if here != [] {
      forall x | x in all ensures x >= here[|here| - 1] {
        var i :| 0 <= i < |all| && all[i] == x;
        assert all[|all| - 1] == here[|here| - 1];
      }
    }
  }

  /** The row is there, and the user's, whenever a page is fetched. */
  ghost predicate Throughout(tables: seq<Table>, user: int, id: int) {
    forall i :: 0 <= i < |tables| ==> id in tables[i].rows && tables[i].rows[id].user == user
  }

  lemma {:induction false} NothingSkipped(
    tables: seq<Table>, changes: seq<seq<Change>>, user: int, limit: nat, pages: seq<Page>, id: int)
    requires Walk(tables, changes, user, limit, pages) && limit > 0
    requires Throughout(tables, user, id)
    ensures id in Items(pages)
         || (pages[|pages| - 1].nextCursor.Some? && id < pages[|pages| - 1].nextCursor.value)
    decreases |pages|
  {
    hide PageAt, ApplyAll;
    var n := |pages| - 1;
    if n == 0 {
      PageFacts(tables[0], user, limit, None);
      assert id in Selected(tables[0], user, None);
      assert Items(pages) == pages[0].items;
    } else {
      WalkPart(tables, changes, user, limit, pages);
      NothingSkipped(tables[..n], changes[..n - 1], user, limit, pages[..n], id);
      PageFacts(tables[n], user, limit, pages[n - 1].nextCursor);
      if id !in Items(pages[..n]) {
        assert id in Selected(tables[n], user, pages[n - 1].nextCursor);
      }
    }
  }

  lemma {:induction false} StrictCount(s: seq<int>, x: int)
    requires Strict(s)
    ensures multiset(s)[x] == if x in s then 1 else 0
  {
    if s != [] {
      var n := |s| - 1;
      StrictCount(s[..n], x);
      assert s == s[..n] + [s[n]];
    }
  }

  /** A walk shows strictly descending ids, all of them rows the user had when it began. */
  lemma WalkDescends(tables: seq<Table>, changes: seq<seq<Change>>, user: int, limit: nat, pages: seq<Page>)
    requires Walk(tables, changes, user, limit, pages)
    ensures Strict(Items(pages))
    ensures forall x :: x in Items(pages) ==> x in tables[0].rows && tables[0].rows[x].user == user
  {
    hide PageAt, ApplyAll;
    WalkFacts(tables, changes, user, limit, pages);
  }

  /** A finished walk shows every row of the user that was there throughout exactly once. */
  lemma {:induction false} ShownOnce(
    tables: seq<Table>, changes: seq<seq<Change>>, user: int, limit: nat, pages: seq<Page>, id: int)
    requires Walk(tables, changes, user, limit, pages) && limit > 0
    requires pages[|pages| - 1].nextCursor.None? && Throughout(tables, user, id)
    ensures multiset(Items(pages))[id] == 1
  {
    hide PageAt, ApplyAll, Throughout;
    WalkFacts(tables, changes, user, limit, pages);
    NothingSkipped(tables, changes, user, limit, pages, id);
    StrictCount(Items(pages), id);
  }

  lemma {:induction false} ItemsLength(
    tables: seq<Table>, changes: seq<seq<Change>>, user: int, limit: nat, pages: seq<Page>)
    requires Walk(tables, changes, user, limit, pages)
    ensures |Items(pages)| >= (|pages| - 1) * limit
    ensures pages[|pages| - 1].nextCursor.Some? ==> |Items(pages)| >= |pages| * limit
    decreases |pages|
  {
    hide PageAt, ApplyAll;
    var n := |pages| - 1;
    PageFacts(tables[n], user, limit, if n == 0 then None else pages[n - 1].nextCursor);
    if n > 0 {
      WalkPart(tables, changes, user, limit, pages);
      ItemsLength(tables[..n], changes[..n - 1], user, limit, pages[..n]);
      assert (n + 1) * limit == n * limit + limit;
    } else {
      assert Items(pages) == pages[0].items;
    }
  }

  lemma {:induction false} StrictSize(s: seq<int>, all: set<int>)
    requires Strict(s) && forall x :: x in s ==> x in all
    ensures |s| <= |all|
  {
    if s != [] {
      var n := |s| - 1;
      assert s[n] in s;
      forall x | x in s[..n] ensures x in all - {s[n]} {
        assert x in s;
      }
      StrictSize(s[..n], all - {s[n]});
    }
  }

  /** Every page but the last is full, and no page has more rows than asked for. */
  lemma WalkPageSizes(
    tables: seq<Table>, changes: seq<seq<Change>>, user: int, limit: nat, pages: seq<Page>, i: nat)
    requires Walk(tables, changes, user, limit, pages) && i < |pages|
    ensures |pages[i].items| <= limit
    ensures i < |pages| - 1 ==> |pages[i].items| == limit
  {
    hide PageAt, ApplyAll, Selected, Strict;
    if i == 0 {
      PageFacts(tables[0], user, limit, None);
    } else {
      var j := i - 1;
      assert pages[j + 1] == PageAt(tables[j + 1], user, limit, pages[j].nextCursor);
      PageFacts(tables[i], user, limit, pages[j].nextCursor);
    }
  }

  /** A walk has at most one page more than the user's rows at its start fill. */
  lemma WalkEnds(tables: seq<Table>, changes: seq<seq<Change>>, user: int, limit: nat, pages: seq<Page>)
    requires Walk(tables, changes, user, limit, pages) && limit > 0
    ensures (|pages| - 1) * limit <= |Selected(tables[0], user, None)|
  {
    hide PageAt, ApplyAll, Selected;
    WalkFacts(tables, changes, user, limit, pages);
    ItemsLength(tables, changes, user, limit, pages);
    StrictSize(Items(pages), Selected(tables[0], user, None));
  }
}
