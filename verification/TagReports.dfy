/** What the importer's results say, in terms of what happened and not of how it is
    recorded: each result has the status of its tag's attempt, and the counts are the
    numbers of attempts of each kind. */
module TagReports {
  import opened Options
  import opened Text
  import opened TagImport
  import opened TagTheorems

  /** One result per attempted tag, in the order of the attempts, and then a failure
      without an id for each blocked tag. */
  lemma ReportsOutcomes(
    w: World, existing: Ids, results: seq<TaskResult>, relationIds: seq<seq<int>>, f: Final) returns (order: seq<Tag>)
    requires Reports(w, existing, results, relationIds, f)
    ensures multiset(order) == multiset(f.attempted) && |results| == |order| + |f.blocked|
    ensures forall i :: 0 <= i < |order| ==> Records(results[i], order[i], w.attempt(order[i]))
    ensures forall i :: 0 <= i < |f.blocked| ==>
              Records(results[|order| + i], f.blocked[i], Failure)
    ensures Sourced(w, existing, order, relationIds)
  {
    hide Sourced, Strip, Shown;
    order :|
      && multiset(order) == multiset(f.attempted)
      && results == Results(w, order) + BlockedResults(f.blocked)
      && Sourced(w, existing, order, relationIds);
  }

  // ---------- counts ----------

  predicate EndsAs(a: Attempt, status: Status) {
    match status
    case Created => a.New?
    case Skipped => a.Found?
    case Failed => a.Failure?
  }

  /** How many of the tags have an attempt that ends in this way. */
  function Attempts(w: World, tags: seq<Tag>, status: Status): nat {
    if tags == [] then 0
    else Attempts(w, tags[1..], status) + (if EndsAs(w.attempt(tags[0]), status) then 1 else 0)
  }

  lemma {:induction false} AttemptsConcat(w: World, a: seq<Tag>, b: seq<Tag>, status: Status)
    ensures Attempts(w, a + b, status) == Attempts(w, a, status) + Attempts(w, b, status)
  {
    if a == [] {
      assert a + b == b;
    } else {
      assert (a + b)[1..] == a[1..] + b;
      AttemptsConcat(w, a[1..], b, status);
    }
  }

  lemma {:induction false} AttemptsPermute(w: World, a: seq<Tag>, b: seq<Tag>, status: Status)
    requires multiset(a) == multiset(b)
    ensures Attempts(w, a, status) == Attempts(w, b, status)
    decreases |a|
  {
    hide Attempts;
    assert |a| == |multiset(b)|;
    if a == [] {
      assert b == [];
    } else {
      var t, rest := a[0], a[1..];
      assert t in multiset(a) && t in multiset(b);
      assert a == [] + [t] + rest;
      var c, d := Around(b, t);
      SameWithout(rest, t, c, d);
      AttemptsPermute(w, rest, c + d, status);
      AttemptsWithout(w, [], t, rest, status);
      AttemptsWithout(w, c, t, d, status);
      assert [] + rest == rest;
    }
  }

  lemma AttemptsWithout(w: World, c: seq<Tag>, t: Tag, d: seq<Tag>, status: Status)
    ensures Attempts(w, c + [t] + d, status)
         == Attempts(w, c + d, status) + (if EndsAs(w.attempt(t), status) then 1 else 0)
  {
    assert c + [t] + d == c + ([t] + d);
    AttemptsConcat(w, c, [t] + d, status);
    AttemptsConcat(w, c, d, status);
    assert ([t] + d)[1..] == d;
  }

  lemma {:induction false} CountConcat(a: seq<TaskResult>, b: seq<TaskResult>, status: Status)
    ensures Count(a + b, status) == Count(a, status) + Count(b, status)
  {
    if b == [] {
      assert a + b == a;
    } else {
      assert (a + b)[..|a + b| - 1] == a + b[..|b| - 1];
      CountConcat(a, b[..|b| - 1], status);
    }
  }

  lemma {:induction false} CountAttempts(w: World, results: seq<TaskResult>, tags: seq<Tag>, status: Status)
    requires |results| == |tags|
    requires forall i :: 0 <= i < |tags| ==> Records(results[i], tags[i], w.attempt(tags[i]))
    ensures Count(results, status) == Attempts(w, tags, status)
  {
    hide Records;
    if tags != [] {
      CountAttempts(w, results[1..], tags[1..], status);
      CountConcat([results[0]], results[1..], status);
      assert results == [results[0]] + results[1..];
      assert Records(results[0], tags[0], w.attempt(tags[0]));
      CountOne(results[0], tags[0], w.attempt(tags[0]), status);
    }
  }

  lemma CountOne(r: TaskResult, tag: Tag, a: Attempt, status: Status)
    requires Records(r, tag, a)
    ensures Count([r], status) == if EndsAs(a, status) then 1 else 0
  {
    assert [r][..0] == [];
  }

  lemma {:induction false} CountFailures(results: seq<TaskResult>, tags: seq<Tag>, status: Status)
    requires |results| == |tags|
    requires forall i :: 0 <= i < |tags| ==> Records(results[i], tags[i], Failure)
    ensures Count(results, status) == if status == Failed then |tags| else 0
  {
    hide Records;
    if tags != [] {
      var n := |tags| - 1;
      CountFailures(results[..n], tags[..n], status);
      assert Records(results[n], tags[n], Failure);
      CountOne(results[n], tags[n], Failure, status);
      CountConcat(results[..n], [results[n]], status);
      assert results == results[..n] + [results[n]];
    }
  }

  /** The counts of an import are the numbers of tags newly created, found after all, and
      failed or blocked. */
  lemma {:induction false} ReportsCounts(
    w: World, existing: Ids, results: seq<TaskResult>, relationIds: seq<seq<int>>, f: Final, status: Status)
    requires Reports(w, existing, results, relationIds, f)
    ensures Count(results, status)
         == Attempts(w, f.attempted, status) + (if status == Failed then |f.blocked| else 0)
  {
    hide Records, Reports, Sourced;
    var order := ReportsOutcomes(w, existing, results, relationIds, f);
    var n := |order|;
    CountAttempts(w, results[..n], order, status);
    AttemptsPermute(w, order, f.attempted, status);
    CountFailures(results[n..], f.blocked, status);
    CountConcat(results[..n], results[n..], status);
    assert results == results[..n] + results[n..];
  }

  // ---------- the first lookups and the preview ----------

  /** The id collected for a tag is the one its lookup gave. */
  lemma {:induction false} CollectedIds(w: World, seed: seq<Tag>, t: Tag)
    requires UniqueKeys(w, seed) && t in seed && w.lookup(t).Some?
    ensures StoreKey(w, t) in Collected(w, seed) && Collected(w, seed)[StoreKey(w, t)] == w.lookup(t).value
  {
    hide StoreKey;
    var n := |seed| - 1;
    assert seed == seed[..n] + [seed[n]];
    if t in seed[..n] {
      CollectedIds(w, seed[..n], t);
      assert StoreKey(w, t) != StoreKey(w, seed[n]);
    }
  }

  /** The tags found are those whose lookup gave an id, in seed order. */
  lemma {:induction false} FoundConcat(w: World, a: seq<Tag>, b: seq<Tag>)
    ensures FoundTags(w, a + b) == FoundTags(w, a) + FoundTags(w, b)
    ensures forall t: Tag :: FoundTags(w, [t]) == if w.lookup(t).Some? then [t] else []
  {
    forall t: Tag ensures FoundTags(w, [t]) == if w.lookup(t).Some? then [t] else [] {
      assert [t][..0] == [];
    }
    if b == [] {
      assert a + b == a;
    } else {
      assert (a + b)[..|a + b| - 1] == a + b[..|b| - 1];
      FoundConcat(w, a, b[..|b| - 1]);
    }
  }

  /** Some existing tag, or some tag of the seed, has that name. */
  ghost predicate Announced(w: World, seed: seq<Tag>, existing: Ids, name: string) {
    name in existing || exists u :: u in seed && TagKey(w, u) == name
  }

  /** The preview has one entry for each tag that was not found and no other: created if
      all names it relates to are announced, failed otherwise. */
  lemma PreviewMeaning(w: World, seed: seq<Tag>, existing: Ids, r: TaskResult)
    ensures r in PlanList(w, seed, existing, PlanRefs(w, seed, existing))
       <==> exists t :: t in seed && StoreKey(w, t) !in existing && EntryFor(w, seed, existing, t, r)
  {
    hide StoreKey, TagKey, EntryFor, PlanRefs;
    var refs := PlanRefs(w, seed, existing);
    PlanListElements(w, seed, existing, refs, r);
    forall t ensures EntryFor(w, seed, existing, t, r) <==> r == PlanResult(w, t, refs) {
      EntryIsPlanned(w, seed, existing, t, r);
    }
  }

  ghost predicate EntryFor(w: World, seed: seq<Tag>, existing: Ids, t: Tag, r: TaskResult) {
    && r.itemKey == Strip(Shown(t.name)) && r.entityId.None?
    && if forall x :: x in t.relations ==> Announced(w, seed, existing, TextKey(w, x)) then r.status == Created
       else r.status == Failed
  }

  lemma EntryIsPlanned(w: World, seed: seq<Tag>, existing: Ids, t: Tag, r: TaskResult)
    ensures EntryFor(w, seed, existing, t, r) <==> r == PlanResult(w, t, PlanRefs(w, seed, existing))
  {
    hide TagKey, TextKey;
    assert forall name :: Announced(w, seed, existing, name) <==> name in PlanRefs(w, seed, existing);
  }

  lemma {:induction false} PlanListElements(w: World, seed: seq<Tag>, existing: Ids, refs: set<string>, r: TaskResult)
    ensures r in PlanList(w, seed, existing, refs)
       <==> exists t :: t in seed && StoreKey(w, t) !in existing && r == PlanResult(w, t, refs)
  {
    hide StoreKey, PlanResult;
    if seed != [] {
      var n := |seed| - 1;
      PlanListElements(w, seed[..n], existing, refs, r);
      assert forall t :: t in seed <==> t in seed[..n] || t == seed[n];
    }
  }
}
