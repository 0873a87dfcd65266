/** What the tag scheduler computes, what it leaves blocked and why, and how the
    preview and the final counts relate to it. */
module TagTheorems {
  import opened Options
  import opened Text
  import opened TagImport

  /** `known` holds what exists and is closed under successful creation. */
  ghost predicate Closed(w: World, pending: seq<Tag>, existing: set<string>, known: set<string>) {
    && existing <= known
    && forall t :: t in pending && Needs(w, t) <= known && Success(w, t) ==> StoreKey(w, t) in known
  }

  lemma {:induction false} LayersFacts(w: World, pending: seq<Tag>, ids: Ids)
    ensures var f := Layers(w, pending, ids);
            && multiset(f.attempted) + multiset(f.blocked) == multiset(pending)
            && ids.Keys <= f.ids.Keys
            && (forall t :: t in f.attempted ==> t in pending && Needs(w, t) <= f.ids.Keys)
            && (forall t :: t in f.blocked ==> t in pending && !(Needs(w, t) <= f.ids.Keys))
            && (forall t :: t in f.attempted && Success(w, t) ==> StoreKey(w, t) in f.ids.Keys)
            && (forall k :: k in f.ids.Keys ==> k in ids.Keys || Learned(w, f.attempted, k))
    decreases |pending|
  {
    hide Needs, StoreKey, Success;
    var ready := ReadyTags(w, pending, ids.Keys);
    var blocked := BlockedTags(w, pending, ids.Keys);
    Split(w, pending, ids.Keys);
    if ready != [] {
      var ids' := Learn(w, ready, ids);
      LearnKeys(w, ready, ids);
      LayersFacts(w, blocked, ids');
      var rest := Layers(w, blocked, ids');
      var f := Layers(w, pending, ids);
      assert f.attempted == ready + rest.attempted;
      forall k | k in f.ids.Keys && k !in ids.Keys ensures Learned(w, f.attempted, k) {
        if k in ids' {
          var t :| t in ready && Success(w, t) && StoreKey(w, t) == k;
          assert t in f.attempted;
        } else {
          var t :| t in rest.attempted && Success(w, t) && StoreKey(w, t) == k;
          assert t in f.attempted;
        }
      }
    }
  }

  lemma {:induction false} LayersLeast(w: World, pending: seq<Tag>, ids: Ids, known: set<string>)
    requires Closed(w, pending, ids.Keys, known)
    ensures Layers(w, pending, ids).ids.Keys <= known
    decreases |pending|
  {
    hide Needs, StoreKey, Success;
    var ready := ReadyTags(w, pending, ids.Keys);
    var blocked := BlockedTags(w, pending, ids.Keys);
    Split(w, pending, ids.Keys);
    if ready != [] {
      var ids' := Learn(w, ready, ids);
      LearnKeys(w, ready, ids);
      LayersLeast(w, blocked, ids', known);
    }
  }

  /** The ids known at the end are the least set that holds what exists and is
      closed under successful creation; the tags attempted are exactly those whose
      relations all lie in it. */
  lemma LeastFixpoint(w: World, pending: seq<Tag>, ids: Ids)
    ensures var f := Layers(w, pending, ids);
            && Closed(w, pending, ids.Keys, f.ids.Keys)
            && (forall known :: Closed(w, pending, ids.Keys, known) ==> f.ids.Keys <= known)
            && (forall t :: t in f.attempted <==> t in pending && Needs(w, t) <= f.ids.Keys)
            && (forall t :: t in f.blocked <==> t in pending && !(Needs(w, t) <= f.ids.Keys))
            && multiset(f.attempted) + multiset(f.blocked) == multiset(pending)
  {
    hide Needs, StoreKey, Success, Layers;
    var f := Layers(w, pending, ids);
    LayersFacts(w, pending, ids);
    forall t | t in pending ensures t in f.attempted || t in f.blocked {
      assert t in multiset(f.attempted) + multiset(f.blocked);
    }
    forall known | Closed(w, pending, ids.Keys, known) ensures f.ids.Keys <= known {
      LayersLeast(w, pending, ids, known);
    }
  }

  /** The order of the seed decides neither what is known nor what is attempted. */
  lemma SeedOrderIrrelevant(w: World, a: seq<Tag>, b: seq<Tag>, ids: Ids)
    requires multiset(a) == multiset(b)
    ensures Layers(w, a, ids).ids.Keys == Layers(w, b, ids).ids.Keys
    ensures forall t :: t in Layers(w, a, ids).attempted <==> t in Layers(w, b, ids).attempted
  {
    hide Needs, StoreKey, Success, Layers;
    LeastFixpoint(w, a, ids);
    LeastFixpoint(w, b, ids);
    assert forall t :: (t in a <==> t in multiset(a)) && (t in b <==> t in multiset(b));
    var known := Layers(w, b, ids).ids.Keys;
    assert Closed(w, a, ids.Keys, known);
    assert Closed(w, b, ids.Keys, Layers(w, a, ids).ids.Keys);
  }

  // ---------- blocked tags ----------

  /** `t` relates to the tag `u`. */
  ghost predicate RelatesTo(w: World, t: Tag, u: Tag) { StoreKey(w, u) in Needs(w, t) }

  /** Every tag of the chain relates to the next one. */
  ghost predicate Chain(w: World, c: seq<Tag>) {
    forall i :: 0 <= i < |c| - 1 ==> RelatesTo(w, c[i], c[i + 1])
  }

  ghost predicate Cycle(w: World, c: seq<Tag>) {
    c != [] && Chain(w, c) && RelatesTo(w, c[|c| - 1], c[0])
  }

  ghost predicate Acyclic(w: World, tags: seq<Tag>) {
    forall c :: Cycle(w, c) ==> exists t :: t in c && t !in tags
  }

  /** `t` names something that neither exists nor is in the seed. */
  ghost predicate NamesUnknown(w: World, t: Tag, pending: seq<Tag>, existing: set<string>) {
    exists k :: k in Needs(w, t) && k !in existing && forall u :: u in pending ==> StoreKey(w, u) != k
  }

  ghost predicate Within(c: seq<Tag>, tags: seq<Tag>) { forall t :: t in c ==> t in tags }

  ghost function Elements(c: seq<Tag>): set<Tag> { set t | t in c }

  lemma {:induction false} ElementsCount(c: seq<Tag>)
    requires forall i, j :: 0 <= i < j < |c| ==> c[i] != c[j]
    ensures |Elements(c)| == |c|
  {
    if c != [] {
      var n := |c| - 1;
      ElementsCount(c[..n]);
      assert Elements(c) == Elements(c[..n]) + {c[n]};
      assert c[n] !in Elements(c[..n]);
    }
  }

  lemma SubsetCount(a: set<Tag>, b: set<Tag>)
    requires a <= b
    ensures |a| <= |b|
  {
    assert b == a + (b - a);
  }

  /** A chain of distinct tags of `tags`. */
  ghost predicate Path(w: World, tags: seq<Tag>, path: seq<Tag>) {
    && path != [] && Within(path, tags) && Chain(w, path)
    && forall i, j :: 0 <= i < j < |path| ==> path[i] != path[j]
  }

  lemma CloseCycle(w: World, tags: seq<Tag>, path: seq<Tag>, i: nat)
    requires Path(w, tags, path) && i < |path| && RelatesTo(w, path[|path| - 1], path[i])
    ensures Cycle(w, path[i..]) && Within(path[i..], tags)
  {
    hide RelatesTo;
    var c := path[i..];
    forall j | 0 <= j < |c| - 1 ensures RelatesTo(w, c[j], c[j + 1]) {
      assert c[j] == path[i + j] && c[j + 1] == path[i + j + 1];
    }
  }

  lemma ExtendPath(w: World, tags: seq<Tag>, path: seq<Tag>, next: Tag)
    requires Path(w, tags, path) && next in tags && next !in path
    requires RelatesTo(w, path[|path| - 1], next)
    ensures Path(w, tags, path + [next])
  {
    hide RelatesTo;
  }

  lemma PathBound(w: World, tags: seq<Tag>, path: seq<Tag>)
    requires Path(w, tags, path)
    ensures |path| <= |Elements(tags)|
  {
    ElementsCount(path);
    SubsetCount(Elements(path), Elements(tags));
  }

  ghost predicate Onward(w: World, tags: seq<Tag>) {
    forall t :: t in tags ==> exists u :: u in tags && RelatesTo(w, t, u)
  }

  lemma {:induction false} NextOnPath(w: World, tags: seq<Tag>, path: seq<Tag>) returns (next: Tag)
    requires Onward(w, tags) && Path(w, tags, path)
    ensures path != [] && next in tags && RelatesTo(w, path[|path| - 1], next)
  {
    hide RelatesTo, Chain;
    var last := path[|path| - 1];
    assert last in path;
    next :| next in tags && RelatesTo(w, last, next);
  }

  /** If every one of finitely many tags relates to one of them, following the
      relations runs into a cycle. */
  lemma FindCycle(w: World, tags: seq<Tag>, path: seq<Tag>) returns (c: seq<Tag>)
    requires Onward(w, tags) && Path(w, tags, path)
    ensures Cycle(w, c) && Within(c, tags)
    decreases |Elements(tags)| + 1 - |path|
  {
    hide RelatesTo, Cycle, Within, Path, Onward, Elements;
    PathBound(w, tags, path);
    var next := NextOnPath(w, tags, path);
    if i :| 0 <= i < |path| && path[i] == next {
      CloseCycle(w, tags, path, i);
      c := path[i..];
    } else {
      ExtendPath(w, tags, path, next);
      c := FindCycle(w, tags, path + [next]);
    }
  }

  ghost predicate WaitsForFailed(w: World, t: Tag, f: Final) {
    exists u :: u in f.attempted && !Success(w, u) && RelatesTo(w, t, u)
  }

  lemma BlockedSuccessor(w: World, pending: seq<Tag>, ids: Ids, t: Tag)
    requires t in Layers(w, pending, ids).blocked
    requires !NamesUnknown(w, t, pending, ids.Keys) && !WaitsForFailed(w, t, Layers(w, pending, ids))
    ensures exists u :: u in Layers(w, pending, ids).blocked && RelatesTo(w, t, u)
  {
    hide Layers, StoreKey, Success, Needs;
    var f := Layers(w, pending, ids);
    LeastFixpoint(w, pending, ids);
    var k :| k in Needs(w, t) && k !in f.ids.Keys;
    var u :| u in pending && StoreKey(w, u) == k;
    assert RelatesTo(w, t, u);
  }

  /** Blocked tags have a reason that can be shown: a blocked tag that names
      something outside the seed, one that relates to a tag whose creation failed,
      or a cycle of relations among blocked tags. */
  lemma BlockedWitness(w: World, pending: seq<Tag>, ids: Ids)
    requires Layers(w, pending, ids).blocked != []
    ensures var f := Layers(w, pending, ids);
            || (exists t :: t in f.blocked && NamesUnknown(w, t, pending, ids.Keys))
            || (exists t :: t in f.blocked && WaitsForFailed(w, t, f))
            || (exists c :: Cycle(w, c) && Within(c, f.blocked))
  {
    hide Layers, RelatesTo, NamesUnknown, WaitsForFailed, Cycle;
    var f := Layers(w, pending, ids);
    if forall t :: t in f.blocked ==> !NamesUnknown(w, t, pending, ids.Keys) && !WaitsForFailed(w, t, f) {
      forall t | t in f.blocked ensures exists u :: u in f.blocked && RelatesTo(w, t, u) {
        BlockedSuccessor(w, pending, ids, t);
      }
      assert Path(w, f.blocked, [f.blocked[0]]);
      var c := FindCycle(w, f.blocked, [f.blocked[0]]);
    }
  }

  ghost function Keys(w: World, tags: seq<Tag>): set<string> { set t | t in tags :: StoreKey(w, t) }

  lemma CycleSuccessor(w: World, c: seq<Tag>, t: Tag, known: set<string>)
    requires Cycle(w, c) && t in c && known !! Keys(w, c)
    ensures !(Needs(w, t) <= known)
  {
    hide StoreKey, Needs;
    var i :| 0 <= i < |c| && c[i] == t;
    var u := if i == |c| - 1 then c[0] else c[i + 1];
    assert RelatesTo(w, t, u);
    assert u in c && StoreKey(w, u) in Keys(w, c);
  }

  /** A cycle among new tags keeps all its tags out of the least fixpoint. */
  lemma CycleStaysOut(w: World, pending: seq<Tag>, ids: Ids, c: seq<Tag>)
    requires Distinct(w, pending)
    requires forall t :: t in pending ==> StoreKey(w, t) !in ids
    requires Cycle(w, c) && Within(c, pending)
    ensures forall t :: t in c ==> StoreKey(w, t) !in Layers(w, pending, ids).ids
  {
    hide Layers, StoreKey, Success, Needs, Cycle;
    LeastFixpoint(w, pending, ids);
    var all := Layers(w, pending, ids).ids.Keys;
    var known := all - Keys(w, c);
    forall t | t in pending && Needs(w, t) <= known && Success(w, t) ensures StoreKey(w, t) in known {
      if StoreKey(w, t) in Keys(w, c) {
        CycleSuccessor(w, c, t, known);
      }
    }
    assert Closed(w, pending, ids.Keys, known);
  }

  /** If no attempt fails, the import is complete exactly when every relation names
      a tag that exists or is in the seed and the new tags have no relation cycle. */
  lemma {:induction false} CompleteIff(w: World, pending: seq<Tag>, ids: Ids)
    requires Distinct(w, pending)
    requires forall t :: t in pending ==> StoreKey(w, t) !in ids
    requires forall t :: t in pending ==> Success(w, t)
    ensures Layers(w, pending, ids).blocked == []
       <==> (forall t :: t in pending ==> !NamesUnknown(w, t, pending, ids.Keys)) && Acyclic(w, pending)
  {
    hide Layers, StoreKey, Success, Needs, Cycle;
    var f := Layers(w, pending, ids);
    LeastFixpoint(w, pending, ids);
    LayersFacts(w, pending, ids);
    if f.blocked != [] {
      BlockedWitness(w, pending, ids);
      if c :| Cycle(w, c) && Within(c, f.blocked) {
        assert forall t :: t in c ==> t in pending;
      }
    } else {
      forall t | t in pending ensures !NamesUnknown(w, t, pending, ids.Keys) {
        forall k | k in Needs(w, t) && k !in ids.Keys ensures exists u :: u in pending && StoreKey(w, u) == k {
          assert t !in f.blocked;
          assert k in f.ids.Keys;
          assert Learned(w, f.attempted, k);
        }
      }
      forall c | Cycle(w, c) ensures exists t :: t in c && t !in pending {
        if Within(c, pending) {
          CycleNonEmpty(w, c);
          assert c[0] in c && c[0] in pending;
          CycleStaysOut(w, pending, ids, c);
        }
      }
    }
  }

  lemma CycleNonEmpty(w: World, c: seq<Tag>)
    requires Cycle(w, c)
    ensures c != []
  {}

  // ---------- when a key is missing ----------

  /** Everything the tag waits for is there, or will be. */
  ghost predicate ComesUp(w: World, t: Tag, pending: seq<Tag>, existing: set<string>) {
    forall known :: Closed(w, pending, existing, known) ==> Needs(w, t) <= known
  }

  /** The import stops on a missing key exactly when a tag that comes up has a relation
      without a usable name. */
  lemma MissingKeyIff(w: World, pending: seq<Tag>, ids: Ids)
    ensures MeetsUnnamed(w, Layers(w, pending, ids))
       <==> exists t :: t in pending && !Named(w, t) && ComesUp(w, t, pending, ids.Keys)
  {
    hide Layers, Needs, Named, Closed;
    LeastFixpoint(w, pending, ids);
    var f := Layers(w, pending, ids);
    forall t | t in pending ensures t in f.attempted <==> ComesUp(w, t, pending, ids.Keys) {}
  }

  /** When no attempt fails, for a closed seed without relation cycles: exactly when some
      new tag has such a relation, which can be seen before the import starts. */
  lemma {:induction false} MissingKeyWhenComplete(w: World, pending: seq<Tag>, ids: Ids)
    requires Distinct(w, pending)
    requires forall t :: t in pending ==> StoreKey(w, t) !in ids
    requires forall t :: t in pending ==> Success(w, t) && !NamesUnknown(w, t, pending, ids.Keys)
    requires Acyclic(w, pending)
    ensures MeetsUnnamed(w, Layers(w, pending, ids)) <==> exists t :: t in pending && !Named(w, t)
  {
    hide Layers, StoreKey, Success, Needs, Named, NamesUnknown, Acyclic, Closed, Distinct;
    CompleteIff(w, pending, ids);
    LeastFixpoint(w, pending, ids);
  }

  /** Of the relations the seed check lets through, the ones without a usable name are
      those whose name is not a string. */
  lemma NamedIffStrings(w: World, t: Tag)
    requires forall r :: r in t.relations ==> Strip(Shown(r)) != []
    requires forall c :: w.fold(c) != []
    ensures Named(w, t) <==> forall r :: r in t.relations ==> r.Text?
  {
    hide Normalize, Strip;
    forall r | r in t.relations && r.Text? ensures TextKey(w, r) != [] {
      NormalizeNonEmpty(w.fold, r.text);
    }
  }

  /** A seed that passes the check and stops the import: one tag, related to the number 1. */
  lemma MissingKeyExample(w: World)
    requires w.lookup(Tag(JsonText.Text("a"), [Other("1")])).None?
    ensures var seed := [Tag(JsonText.Text("a"), [Other("1")])];
            && UniqueKeys(w, seed) && (forall t :: t in seed ==> ItemKey(t) != [])
            && Collected(w, seed) == map[]
            && MeetsUnnamed(w, Layers(w, Pending(w, seed, map[]), map[]))
  {
    var t := Tag(JsonText.Text("a"), [Other("1")]);
    var seed := [t];
    assert seed[..0] == [];
    assert Strip("a") == "a";
    assert t.relations[0] in t.relations && !Named(w, t);
    assert Pending(w, seed, map[]) == seed;
    assert ComesUp(w, t, seed, {}) by { assert Needs(w, t) == {}; }
    MissingKeyIff(w, seed, map[]);
  }

  // ---------- from the seed to the import ----------

  lemma {:induction false} UniqueDistinct(w: World, tags: seq<Tag>)
    requires UniqueKeys(w, tags)
    ensures Distinct(w, tags)
  {
    hide StoreKey;
    if tags != [] {
      var n := |tags| - 1;
      UniqueDistinct(w, tags[..n]);
      assert tags == tags[..n] + [tags[n]];
      assert forall t :: t in tags[..n] ==> StoreKey(w, t) != StoreKey(w, tags[n]);
    }
  }

  lemma {:induction false} PendingFacts(w: World, seed: seq<Tag>, existing: Ids)
    ensures multiset(Pending(w, seed, existing)) <= multiset(seed)
    ensures forall t :: t in Pending(w, seed, existing) <==> t in seed && TagKey(w, t) !in existing
  {
    hide TagKey;
    if seed != [] {
      var n := |seed| - 1;
      PendingFacts(w, seed[..n], existing);
      assert seed == seed[..n] + [seed[n]];
    }
  }

  /** The demands of the import follow from the seed check, for the ids the first
      lookups collect or any others. */
  lemma CheckedSeed(w: World, seed: seq<Tag>, existing: Ids)
    requires UniqueKeys(w, seed) && forall t :: t in seed ==> ItemKey(t) != []
    requires forall c :: w.fold(c) != []
    ensures Distinct(w, Pending(w, seed, existing))
    ensures forall t :: t in seed ==> StoreKey(w, t) != []
    ensures [] !in Collected(w, seed)
  {
    CollectedKeys(w, seed);
    UniqueDistinct(w, seed);
    PendingFacts(w, seed, existing);
    DistinctPart(w, seed, Pending(w, seed, existing));
    forall t | t in seed ensures StoreKey(w, t) != [] {
      StripTwice(Shown(t.name));
      NormalizeNonEmpty(w.fold, ItemKey(t));
    }
  }

  lemma StripTwice(s: string)
    requires Strip(s) != []
    ensures Strip(Strip(s)) != []
  {
    LStripHead(s);
    RStripKeepsHead(LStrip(s));
  }

  lemma {:induction false} LStripHead(s: string)
    ensures LStrip(s) == [] || !IsSpace(LStrip(s)[0])
  {
    if s != [] && IsSpace(s[0]) {
      LStripHead(s[1..]);
    }
  }

  lemma {:induction false} RStripKeepsHead(s: string)
    requires s == [] || !IsSpace(s[0])
    ensures RStrip(s) == [] || (!IsSpace(RStrip(s)[0]) && !IsSpace(RStrip(s)[|RStrip(s)| - 1]))
  {
    if s != [] && IsSpace(s[|s| - 1]) {
      RStripKeepsHead(s[..|s| - 1]);
    }
  }

  // ---------- accounting ----------

  lemma {:induction false} CollectedKeys(w: World, seed: seq<Tag>)
    ensures forall k :: k in Collected(w, seed) <==> exists t :: t in seed && w.lookup(t).Some? && StoreKey(w, t) == k
  {
    hide StoreKey;
    if seed != [] {
      var n := |seed| - 1;
      CollectedKeys(w, seed[..n]);
      assert seed == seed[..n] + [seed[n]];
    }
  }

  /** A tag stays pending unless it was found and its name is a string. */
  lemma PendingIff(w: World, seed: seq<Tag>, t: Tag)
    requires UniqueKeys(w, seed) && t in seed && forall u :: u in seed ==> StoreKey(w, u) != []
    ensures TagKey(w, t) in Collected(w, seed) <==> t.name.Text? && w.lookup(t).Some?
  {
    CollectedKeys(w, seed);
    UniqueDistinct(w, seed);
    if t.name.Text? {
      StoreKeyOfString(w, t);
    }
  }

  function FoundNonStrings(w: World, seed: seq<Tag>): nat {
    if seed == [] then 0
    else
      var t := seed[|seed| - 1];
      FoundNonStrings(w, seed[..|seed| - 1]) + (if t.name.Other? && w.lookup(t).Some? then 1 else 0)
  }

  lemma {:induction false} CountTags(w: World, seed: seq<Tag>, existing: Ids)
    requires forall t :: t in seed ==> (TagKey(w, t) in existing <==> t.name.Text? && w.lookup(t).Some?)
    ensures |FoundTags(w, seed)| + |Pending(w, seed, existing)| == |seed| + FoundNonStrings(w, seed)
  {
    if seed != [] {
      var n := |seed| - 1;
      CountTags(w, seed[..n], existing);
      assert seed[n] in seed;
    }
  }

  /** A real run reports one result per tag found first and one per pending tag: in
      all the number of seed tags, plus one for each found tag whose name is not a
      string. So the counts add up to the seed exactly when there is no such tag. */
  lemma Accounting(w: World, seed: seq<Tag>)
    requires UniqueKeys(w, seed) && forall t :: t in seed ==> StoreKey(w, t) != []
    ensures var existing := Collected(w, seed);
            var f := Layers(w, Pending(w, seed, existing), existing);
            |FoundTags(w, seed)| + |f.attempted| + |f.blocked| == |seed| + FoundNonStrings(w, seed)
  {
    hide Layers, StoreKey, TagKey;
    var existing := Collected(w, seed);
    var pending := Pending(w, seed, existing);
    forall t | t in seed ensures TagKey(w, t) in existing <==> t.name.Text? && w.lookup(t).Some? {
      PendingIff(w, seed, t);
    }
    CountTags(w, seed, existing);
    LeastFixpoint(w, pending, existing);
    var f := Layers(w, pending, existing);
    assert |multiset(f.attempted) + multiset(f.blocked)| == |multiset(pending)|;
  }

  /** The preview always reports exactly one result per seed tag. */
  lemma PreviewAccounting(w: World, seed: seq<Tag>, refs: set<string>)
    requires UniqueKeys(w, seed)
    ensures |FoundTags(w, seed)| + |PlanList(w, seed, Collected(w, seed), refs)| == |seed|
  {
    hide StoreKey;
    UniqueDistinct(w, seed);
    CollectedKeys(w, seed);
    CountPlanned(w, seed, Collected(w, seed), refs);
  }

  lemma {:induction false} CountPlanned(w: World, seed: seq<Tag>, existing: Ids, refs: set<string>)
    requires forall t :: t in seed ==> (StoreKey(w, t) in existing <==> w.lookup(t).Some?)
    ensures |FoundTags(w, seed)| + |PlanList(w, seed, existing, refs)| == |seed|
  {
    hide StoreKey, PlanResult;
    if seed != [] {
      CountPlanned(w, seed[..|seed| - 1], existing, refs);
      assert seed[|seed| - 1] in seed;
    }
  }

  // ---------- the preview and the run ----------

  ghost predicate StringNames(w: World, seed: seq<Tag>) {
    forall t :: t in seed ==> t.name.Text? && Named(w, t)
  }

  /** With string names the run never meets a missing key, and every tag it attempts
      is one the preview announces as created. */
  lemma {:induction false} AttemptedIsPlanned(w: World, seed: seq<Tag>, existing: Ids)
    requires StringNames(w, seed)
    ensures var f := Layers(w, Pending(w, seed, existing), existing);
            forall t :: t in f.attempted ==> Named(w, t) && Planned(w, t, PlanRefs(w, seed, existing))
  {
    hide Layers, StoreKey, TagKey, TextKey;
    var pending := Pending(w, seed, existing);
    var f := Layers(w, pending, existing);
    LayersFacts(w, pending, existing);
    PendingFacts(w, seed, existing);
    forall t, r | t in f.attempted && r in t.relations ensures TextKey(w, r) in PlanRefs(w, seed, existing) {
      var k := TextKey(w, r);
      assert k in Needs(w, t);
      if k !in existing {
        var u :| u in f.attempted && Success(w, u) && StoreKey(w, u) == k;
        StoreKeyOfString(w, u);
      }
    }
  }

  /** For a closed seed without relation cycles, when no attempt fails, preview and
      run agree: both create, or find, every pending tag. */
  lemma {:induction false} PreviewAgrees(w: World, seed: seq<Tag>, existing: Ids)
    requires StringNames(w, seed) && UniqueKeys(w, seed)
    requires var pending := Pending(w, seed, existing);
             && (forall t :: t in pending ==> Success(w, t) && !NamesUnknown(w, t, pending, existing.Keys))
             && Acyclic(w, pending)
    ensures var pending := Pending(w, seed, existing);
            var f := Layers(w, pending, existing);
            && f.blocked == []
            && forall t :: t in pending ==> t in f.attempted && Planned(w, t, PlanRefs(w, seed, existing))
  {
    hide Layers, StoreKey, TagKey, Success, Acyclic, NamesUnknown, Planned, Named;
    var pending := Pending(w, seed, existing);
    PendingFacts(w, seed, existing);
    UniqueDistinct(w, seed);
    DistinctPart(w, seed, pending);
    forall t | t in pending ensures StoreKey(w, t) !in existing {
      StoreKeyOfString(w, t);
    }
    CompleteIff(w, pending, existing);
    AttemptedIsPlanned(w, seed, existing);
    LeastFixpoint(w, pending, existing);
  }

  /** The results of an import add up to the seed with those of the first lookups,
      however the tasks of each stage completed. */
  lemma ReportsAddUp(w: World, seed: seq<Tag>, results: seq<TaskResult>, relationIds: seq<seq<int>>)
    requires UniqueKeys(w, seed) && forall t :: t in seed ==> StoreKey(w, t) != []
    requires var existing := Collected(w, seed);
             Reports(w, existing, results, relationIds, Layers(w, Pending(w, seed, existing), existing))
    ensures |FoundTags(w, seed)| + |results| == |seed| + FoundNonStrings(w, seed)
  {
    hide Layers, Pending, Collected, StoreKey;
    Accounting(w, seed);
    var existing := Collected(w, seed);
    var f := Layers(w, Pending(w, seed, existing), existing);
    var order :|
      && multiset(order) == multiset(f.attempted)
      && results == Results(w, order) + BlockedResults(f.blocked)
      && Sourced(w, existing, order, relationIds);
    assert |order| == |multiset(f.attempted)|;
  }

  lemma {:induction false} PlanListHas(w: World, seed: seq<Tag>, existing: Ids, refs: set<string>, t: Tag)
    requires t in seed && StoreKey(w, t) !in existing
    ensures PlanResult(w, t, refs) in PlanList(w, seed, existing, refs)
  {
    hide StoreKey, PlanResult;
    var n := |seed| - 1;
    assert seed == seed[..n] + [seed[n]];
    if t in seed[..n] {
      PlanListHas(w, seed[..n], existing, refs, t);
    }
  }

  /** Whatever an import reports as created, the preview of the same seed reports as
      created. */
  lemma {:induction false} CreatedWasPlanned(
    w: World, seed: seq<Tag>, existing: Ids, f: Final, results: seq<TaskResult>, relationIds: seq<seq<int>>, i: nat)
    requires StringNames(w, seed) && f == Layers(w, Pending(w, seed, existing), existing)
    requires Reports(w, existing, results, relationIds, f)
    requires i < |results| && results[i].status.Created?
    ensures TaskResult(Created, results[i].itemKey, None)
            in PlanList(w, seed, existing, PlanRefs(w, seed, existing))
  {
    hide Layers, Pending, StoreKey, TagKey, ItemKey, Planned, PlanRefs, PlanList;
    var order :|
      && multiset(order) == multiset(f.attempted)
      && results == Results(w, order) + BlockedResults(f.blocked)
      && Sourced(w, existing, order, relationIds);
    assert i < |order|;
    var t := order[i];
    assert t in multiset(order);
    PendingFacts(w, seed, existing);
    LayersFacts(w, Pending(w, seed, existing), existing);
    AttemptedIsPlanned(w, seed, existing);
    StoreKeyOfString(w, t);
    PlanListHas(w, seed, existing, PlanRefs(w, seed, existing), t);
  }

  /** A seed of one number-named tag that exists already is counted twice. */
  lemma AccountingExample(w: World, t: Tag)
    requires t.name.Other? && w.lookup(t).Some? && StoreKey(w, t) != []
    ensures |FoundTags(w, [t])| + |Pending(w, [t], Collected(w, [t]))| == 2
  {
    hide StoreKey;
    assert [t][..0] == [];
    assert FoundTags(w, [t]) == [t];
    assert Collected(w, [t]).Keys == {StoreKey(w, t)};
  }
}
