/** The tag importer: a layered scheduler that creates each seed tag once every
    tag it relates to has an id. */
module TagImport {
  import opened Options
  import opened Text

  /** A JSON value where a name is expected; the seed check lets numbers through. */
  datatype JsonText = Text(text: string) | Other(shown: string)

  datatype Tag = Tag(name: JsonText, relations: seq<JsonText>)

  datatype Status = Created | Skipped | Failed

  datatype TaskResult = TaskResult(status: Status, itemKey: string, entityId: Option<int>)

  /** How an attempt to create a tag ends. */
  datatype Attempt = New(id: int) | Found(id: int) | Failure

  /** What the importer meets: the folding table, the first lookup of each tag and
      the outcome of each attempt to create one. A run makes at most one attempt per tag,
      so one outcome per tag covers every run. */
  datatype World = World(fold: char -> string, lookup: Tag -> Option<int>, attempt: Tag -> Attempt)

  type Ids = map<string, int>

  function Shown(v: JsonText): string {
    match v case Text(t) => t case Other(s) => s
  }

  /** The text of a name, or the empty key for anything but a string. */
  function TextKey(w: World, v: JsonText): string {
    if v.Text? then Normalize(w.fold, v.text) else []
  }

  function TagKey(w: World, tag: Tag): string { TextKey(w, tag.name) }

  function ItemKey(tag: Tag): string { Strip(Shown(tag.name)) }

  /** The key under which a created or found id is stored. */
  function StoreKey(w: World, tag: Tag): string { Normalize(w.fold, ItemKey(tag)) }

  lemma StoreKeyOfString(w: World, tag: Tag)
    requires tag.name.Text?
    ensures StoreKey(w, tag) == TagKey(w, tag)
  {
    NormalizeStrip(w.fold, tag.name.text);
  }

  predicate Success(w: World, tag: Tag) { !w.attempt(tag).Failure? }

  function ResultOf(w: World, tag: Tag): TaskResult {
    match w.attempt(tag)
    case New(id) => TaskResult(Created, ItemKey(tag), Some(id))
    case Found(id) => TaskResult(Skipped, ItemKey(tag), Some(id))
    case Failure => TaskResult(Failed, ItemKey(tag), None)
  }

  function BlockedResult(tag: Tag): TaskResult { TaskResult(Failed, ItemKey(tag), None) }

  function Results(w: World, tags: seq<Tag>): seq<TaskResult> {
    seq(|tags|, i requires 0 <= i < |tags| => ResultOf(w, tags[i]))
  }

  function BlockedResults(tags: seq<Tag>): seq<TaskResult> {
    seq(|tags|, i requires 0 <= i < |tags| => BlockedResult(tags[i]))
  }

  // ---------- relations ----------

  /** The keys a tag waits for; an empty key is not waited for. */
  function Needs(w: World, tag: Tag): set<string> {
    set r | r in tag.relations && TextKey(w, r) != [] :: TextKey(w, r)
  }

  /** All relations have a usable name. */
  predicate Named(w: World, tag: Tag) {
    forall r :: r in tag.relations ==> TextKey(w, r) != []
  }

  function UnresolvedIn(w: World, relations: seq<JsonText>, ids: Ids): seq<string> {
    if relations == [] then []
    else
      var rest := UnresolvedIn(w, relations[..|relations| - 1], ids);
      var r := relations[|relations| - 1];
      if TextKey(w, r) != [] && TextKey(w, r) !in ids then rest + [Strip(Shown(r))] else rest
  }

  lemma {:induction false} UnresolvedEmpty(w: World, relations: seq<JsonText>, ids: Ids)
    ensures UnresolvedIn(w, relations, ids) == []
       <==> forall r :: r in relations && TextKey(w, r) != [] ==> TextKey(w, r) in ids
  {
    if relations != [] {
      UnresolvedEmpty(w, relations[..|relations| - 1], ids);
      assert relations == relations[..|relations| - 1] + [relations[|relations| - 1]];
    }
  }

  method UnresolvedRelationNames(w: World, tag: Tag, ids: Ids) returns (unresolved: seq<string>)
    ensures unresolved == UnresolvedIn(w, tag.relations, ids)
    ensures unresolved == [] <==> Needs(w, tag) <= ids.Keys
  {
    unresolved := [];
    for i := 0 to |tag.relations|
      invariant unresolved == UnresolvedIn(w, tag.relations[..i], ids)
    {
      var r := tag.relations[i];
      var key := TextKey(w, r);
      assert tag.relations[..i + 1][..i] == tag.relations[..i];
      if key != [] && key !in ids {
        unresolved := unresolved + [Strip(Shown(r))];
      }
    }
    assert tag.relations[..|tag.relations|] == tag.relations;
    UnresolvedEmpty(w, tag.relations, ids);
    assert unresolved == [] ==> Needs(w, tag) <= ids.Keys;
    assert forall r :: r in tag.relations && TextKey(w, r) != [] ==> TextKey(w, r) in Needs(w, tag);
  }

  /** Looking every relation up; `None` stands for the missing dictionary key
      that stops the original. */
  function ResolveIds(w: World, relations: seq<JsonText>, ids: Ids): Option<seq<int>> {
    if relations == [] then Some([])
    else if TextKey(w, relations[0]) !in ids then None
    else match ResolveIds(w, relations[1..], ids)
      case None => None
      case Some(rest) => Some([ids[TextKey(w, relations[0])]] + rest)
  }

  lemma {:induction false} ResolveIdsIff(w: World, relations: seq<JsonText>, ids: Ids)
    ensures ResolveIds(w, relations, ids).Some? <==> forall r :: r in relations ==> TextKey(w, r) in ids
    ensures ResolveIds(w, relations, ids).Some? ==>
              && |ResolveIds(w, relations, ids).value| == |relations|
              && forall i :: 0 <= i < |relations| ==>
                && TextKey(w, relations[i]) in ids
                && ResolveIds(w, relations, ids).value[i] == ids[TextKey(w, relations[i])]
  {
    if relations != [] {
      ResolveIdsIff(w, relations[1..], ids);
      assert relations == [relations[0]] + relations[1..];
    }
  }

  /** A tag that waits for nothing resolves exactly when its relations are all named. */
  lemma ReadyResolvesIffNamed(w: World, tag: Tag, ids: Ids)
    requires Needs(w, tag) <= ids.Keys && [] !in ids
    ensures ResolveIds(w, tag.relations, ids).Some? <==> Named(w, tag)
  {
    ResolveIdsIff(w, tag.relations, ids);
    assert forall r :: r in tag.relations && TextKey(w, r) != [] ==> TextKey(w, r) in Needs(w, tag);
  }

  // ---------- the scheduler as a function ----------

  /** No tag twice, and no two tags with one key. */
  ghost predicate Distinct(w: World, tags: seq<Tag>) {
    && (forall t :: multiset(tags)[t] <= 1)
    && (forall t, u :: t in tags && u in tags && StoreKey(w, t) == StoreKey(w, u) ==> t == u)
  }

  function ReadyTags(w: World, pending: seq<Tag>, known: set<string>): seq<Tag> {
    if pending == [] then []
    else
      var rest := ReadyTags(w, pending[..|pending| - 1], known);
      var t := pending[|pending| - 1];
      if Needs(w, t) <= known then rest + [t] else rest
  }

  function BlockedTags(w: World, pending: seq<Tag>, known: set<string>): seq<Tag> {
    if pending == [] then []
    else
      var rest := BlockedTags(w, pending[..|pending| - 1], known);
      var t := pending[|pending| - 1];
      if Needs(w, t) <= known then rest else rest + [t]
  }

  lemma {:induction false} Split(w: World, pending: seq<Tag>, known: set<string>)
    ensures var ready, blocked := ReadyTags(w, pending, known), BlockedTags(w, pending, known);
            && multiset(ready) + multiset(blocked) == multiset(pending)
            && |ready| + |blocked| == |pending|
            && (forall t :: t in ready ==> t in pending && Needs(w, t) <= known)
            && (forall t :: t in blocked ==> t in pending && !(Needs(w, t) <= known))
  {
    hide Needs;
    if pending != [] {
      Split(w, pending[..|pending| - 1], known);
      assert pending == pending[..|pending| - 1] + [pending[|pending| - 1]];
    }
  }

  lemma DistinctPart(w: World, all: seq<Tag>, part: seq<Tag>)
    requires Distinct(w, all) && multiset(part) <= multiset(all)
    ensures Distinct(w, part)
  {
    hide StoreKey;
    assert forall t :: t in part ==> t in multiset(part) && t in multiset(all);
  }

  /** The ids known after the results of `tags` came in, in that order. */
  function Learn(w: World, tags: seq<Tag>, ids: Ids): Ids {
    if tags == [] then ids
    else
      var before := Learn(w, tags[..|tags| - 1], ids);
      var t := tags[|tags| - 1];
      if Success(w, t) then before[StoreKey(w, t) := w.attempt(t).id] else before
  }

  lemma {:induction false} LearnKeys(w: World, tags: seq<Tag>, ids: Ids)
    ensures forall k :: k in Learn(w, tags, ids) <==>
              k in ids || exists t :: t in tags && Success(w, t) && StoreKey(w, t) == k
  {
    hide StoreKey, Success;
    if tags != [] {
      var n := |tags| - 1;
      LearnKeys(w, tags[..n], ids);
      assert tags == tags[..n] + [tags[n]];
    }
  }

  ghost predicate Learned(w: World, tags: seq<Tag>, k: string) {
    exists t :: t in tags && Success(w, t) && StoreKey(w, t) == k
  }

  lemma {:induction false} LearnValues(w: World, tags: seq<Tag>, ids: Ids)
    requires Distinct(w, tags)
    ensures forall k :: k in Learn(w, tags, ids) <==> k in ids || Learned(w, tags, k)
    ensures forall t :: t in tags && Success(w, t) ==>
              StoreKey(w, t) in Learn(w, tags, ids) && Learn(w, tags, ids)[StoreKey(w, t)] == w.attempt(t).id
    ensures forall k :: k in ids && !Learned(w, tags, k) ==> Learn(w, tags, ids)[k] == ids[k]
  {
    hide StoreKey;
    LearnKeys(w, tags, ids);
    if tags != [] {
      var n := |tags| - 1;
      assert tags == tags[..n] + [tags[n]];
      DistinctPart(w, tags, tags[..n]);
      LearnValues(w, tags[..n], ids);
      assert multiset(tags)[tags[n]] == multiset(tags[..n])[tags[n]] + 1;
      assert tags[n] !in tags[..n];
    }
  }

  /** The order in which the results of a stage come in does not matter. */
  lemma LearnAnyOrder(w: World, a: seq<Tag>, b: seq<Tag>, ids: Ids)
    requires multiset(a) == multiset(b) && Distinct(w, a)
    ensures Learn(w, a, ids) == Learn(w, b, ids)
  {
    hide StoreKey, Success;
    DistinctPart(w, a, b);
    LearnValues(w, a, ids);
    LearnValues(w, b, ids);
    assert forall t :: t in a <==> t in multiset(a);
    assert forall t :: t in b <==> t in multiset(b);
    forall k ensures Learned(w, a, k) == Learned(w, b, k) {}
    forall k | k in Learn(w, a, ids) ensures Learn(w, a, ids)[k] == Learn(w, b, ids)[k] {
      if Learned(w, a, k) {
        var t :| t in a && Success(w, t) && StoreKey(w, t) == k;
        assert t in b;
      }
    }
  }

  /** Where the scheduler ends: the ids it knows, the tags it attempted (stage by
      stage) and the tags that stayed blocked. */
  datatype Final = Final(ids: Ids, attempted: seq<Tag>, blocked: seq<Tag>)

  function Layers(w: World, pending: seq<Tag>, ids: Ids): Final
    decreases |pending|
  {
    var ready := ReadyTags(w, pending, ids.Keys);
    var blocked := BlockedTags(w, pending, ids.Keys);
    if ready == [] then Final(ids, [], blocked)
    else
      Split(w, pending, ids.Keys);
      var rest := Layers(w, blocked, Learn(w, ready, ids));
      rest.(attempted := ready + rest.attempted)
  }

  function Pending(w: World, seed: seq<Tag>, existing: Ids): seq<Tag> {
    if seed == [] then []
    else
      var rest := Pending(w, seed[..|seed| - 1], existing);
      var t := seed[|seed| - 1];
      if TagKey(w, t) in existing then rest else rest + [t]
  }

  // ---------- the seed, the first lookups, the preview ----------

  predicate UniqueKeys(w: World, tags: seq<Tag>) {
    forall i, j :: 0 <= i < j < |tags| ==> StoreKey(w, tags[i]) != StoreKey(w, tags[j])
  }

  /** The part of the seed check that is about names. */
  method CheckNames(w: World, seedTags: seq<Tag>) returns (ok: bool)
    ensures ok <==> UniqueKeys(w, seedTags) && forall t :: t in seedTags ==> ItemKey(t) != []
  {
    hide StoreKey, ItemKey;
    var seen: set<string> := {};
    for i := 0 to |seedTags|
      invariant seen == set t | t in seedTags[..i] :: StoreKey(w, t)
      invariant UniqueKeys(w, seedTags[..i])
      invariant forall t :: t in seedTags[..i] ==> ItemKey(t) != []
    {
      var t := seedTags[i];
      assert seedTags[..i + 1] == seedTags[..i] + [t];
      if ItemKey(t) == [] {
        return false;
      }
      if StoreKey(w, t) in seen {
        var u :| u in seedTags[..i] && StoreKey(w, u) == StoreKey(w, t);
        return false;
      }
      seen := seen + {StoreKey(w, t)};
    }
    assert seedTags[..|seedTags|] == seedTags;
    ok := true;
  }

  function FoundTags(w: World, seed: seq<Tag>): seq<Tag> {
    if seed == [] then []
    else
      var rest := FoundTags(w, seed[..|seed| - 1]);
      var t := seed[|seed| - 1];
      if w.lookup(t).Some? then rest + [t] else rest
  }

  function Collected(w: World, seed: seq<Tag>): Ids {
    if seed == [] then map[]
    else
      var before := Collected(w, seed[..|seed| - 1]);
      var t := seed[|seed| - 1];
      match w.lookup(t)
      case None => before
      case Some(id) => before[StoreKey(w, t) := id]
  }

  method CollectExistingTagIds(w: World, seedTags: seq<Tag>) returns (ids: Ids, results: seq<TaskResult>)
    ensures ids == Collected(w, seedTags)
    ensures |results| == |FoundTags(w, seedTags)|
    ensures forall i :: 0 <= i < |results| ==>
      var t := FoundTags(w, seedTags)[i];
      results[i] == TaskResult(Skipped, ItemKey(t), w.lookup(t))
  {
    ids, results := map[], [];
    for i := 0 to |seedTags|
      invariant ids == Collected(w, seedTags[..i])
      invariant |results| == |FoundTags(w, seedTags[..i])|
      invariant forall j :: 0 <= j < |results| ==>
        var t := FoundTags(w, seedTags[..i])[j];
        results[j] == TaskResult(Skipped, ItemKey(t), w.lookup(t))
    {
      var t := seedTags[i];
      assert seedTags[..i + 1][..i] == seedTags[..i];
      var existing := w.lookup(t);
      if existing.Some? {
        ids := ids[StoreKey(w, t) := existing.value];
        results := results + [TaskResult(Skipped, ItemKey(t), existing)];
      }
    }
    assert seedTags[..|seedTags|] == seedTags;
  }

  /** The names the preview takes for resolvable: what exists and what is in the seed. */
  function PlanRefs(w: World, seed: seq<Tag>, existing: Ids): set<string> {
    existing.Keys + set t | t in seed :: TagKey(w, t)
  }

  lemma PlanRefsStep(w: World, seed: seq<Tag>, existing: Ids, t: Tag)
    ensures PlanRefs(w, seed + [t], existing) == PlanRefs(w, seed, existing) + {TagKey(w, t)}
  {
    hide TagKey;
    assert forall u :: u in seed + [t] <==> u in seed || u == t;
  }

  lemma PlanRefsStart(w: World, existing: Ids)
    ensures PlanRefs(w, [], existing) == existing.Keys
  {}

  predicate Planned(w: World, tag: Tag, refs: set<string>) {
    forall r :: r in tag.relations ==> TextKey(w, r) in refs
  }

  function PlanResult(w: World, tag: Tag, refs: set<string>): TaskResult {
    TaskResult(if Planned(w, tag, refs) then Created else Failed, ItemKey(tag), None)
  }

  function PlanList(w: World, seed: seq<Tag>, existing: Ids, refs: set<string>): seq<TaskResult> {
    if seed == [] then []
    else
      var rest := PlanList(w, seed[..|seed| - 1], existing, refs);
      var t := seed[|seed| - 1];
      if StoreKey(w, t) in existing then rest else rest + [PlanResult(w, t, refs)]
  }

  /** The preview of an import. */
  method PlanTagImports(w: World, seedTags: seq<Tag>, existing: Ids) returns (results: seq<TaskResult>)
    ensures results == PlanList(w, seedTags, existing, PlanRefs(w, seedTags, existing))
  {
    hide TagKey, StoreKey, Planned, PlanRefs;
    var refs := existing.Keys;
    PlanRefsStart(w, existing);
    for i := 0 to |seedTags|
      invariant refs == PlanRefs(w, seedTags[..i], existing)
    {
      assert seedTags[..i + 1] == seedTags[..i] + [seedTags[i]];
      PlanRefsStep(w, seedTags[..i], existing, seedTags[i]);
      refs := refs + {TagKey(w, seedTags[i])};
    }
    assert seedTags[..|seedTags|] == seedTags;
    results := [];
    for i := 0 to |seedTags|
      invariant results == PlanList(w, seedTags[..i], existing, refs)
    {
      assert seedTags[..i + 1][..i] == seedTags[..i];
      if StoreKey(w, seedTags[i]) !in existing {
        results := results + [PlanResult(w, seedTags[i], refs)];
      }
    }
  }

  function Count(results: seq<TaskResult>, status: Status): nat {
    if results == [] then 0
    else Count(results[..|results| - 1], status) + (if results[|results| - 1].status == status then 1 else 0)
  }

  method CountResults(results: seq<TaskResult>) returns (created: nat, skipped: nat, failed: nat)
    ensures created == Count(results, Created) && skipped == Count(results, Skipped) && failed == Count(results, Failed)
    ensures created + skipped + failed == |results|
  {
    created, skipped, failed := 0, 0, 0;
    for i := 0 to |results|
      invariant created == Count(results[..i], Created) && skipped == Count(results[..i], Skipped)
      invariant failed == Count(results[..i], Failed) && created + skipped + failed == i
    {
      assert results[..i + 1][..i] == results[..i];
      match results[i].status
      case Created => created := created + 1;
      case Skipped => skipped := skipped + 1;
      case Failed => failed := failed + 1;
    }
    assert results[..|results|] == results;
  }

  // ---------- the scheduler as the loop it is ----------

  /** How a run ends; `relationIds` are the ids posted with each attempted tag. */
  datatype ImportRun = Done(results: seq<TaskResult>, relationIds: seq<seq<int>>) | MissingKey

  /** The ids posted with each tag are those its relations' names have in `ids`. */
  predicate Resolved(w: World, tags: seq<Tag>, relationIds: seq<seq<int>>, ids: Ids) {
    && |relationIds| == |tags|
    && forall i :: 0 <= i < |tags| ==> ResolveIds(w, tags[i].relations, ids) == Some(relationIds[i])
  }

  /** The result records how the attempt for the tag ended. */
  ghost predicate Records(r: TaskResult, tag: Tag, a: Attempt) {
    && r.itemKey == Strip(Shown(tag.name))
    && (r.status == Created <==> a.New?)
    && (r.status == Skipped <==> a.Found?)
    && (r.status == Failed <==> a.Failure?)
    && (a.Failure? ==> r.entityId.None?)
    && (!a.Failure? ==> r.entityId == Some(a.id))
  }

  lemma ResultsRecord(w: World, order: seq<Tag>)
    ensures forall i :: 0 <= i < |order| ==> Records(Results(w, order)[i], order[i], w.attempt(order[i]))
  {}

  /** One stage: the relations of each ready tag are looked up, the tag is
      attempted, and the results come in in any order. A missing key ends the run. */
  method RunStage(w: World, ready: seq<Tag>, ids: Ids)
    returns (results: seq<TaskResult>, relationIds: seq<seq<int>>, missing: bool, ghost order: seq<Tag>)
    ensures missing <==> exists t :: t in ready && ResolveIds(w, t.relations, ids).None?
    ensures !missing ==> multiset(order) == multiset(ready) && results == Results(w, order)
    ensures !missing ==> Resolved(w, order, relationIds, ids)
    ensures !missing ==> forall i :: 0 <= i < |order| ==> Records(results[i], order[i], w.attempt(order[i]))
  {
    hide ResolveIds, Records;
    results, relationIds, order := [], [], [];
    var tasks := multiset(ready);
    while tasks != multiset{}
      invariant multiset(order) + tasks == multiset(ready)
      invariant results == Results(w, order) && Resolved(w, order, relationIds, ids)
      decreases |tasks|
    {
      var t :| t in tasks;
      var resolved := ResolveIds(w, t.relations, ids);
      if resolved.None? {
        assert t in multiset(ready);
        return results, relationIds, true, order;
      }
      tasks := tasks - multiset{t};
      results := results + [ResultOf(w, t)];
      relationIds := relationIds + [resolved.value];
      order := order + [t];
    }
    forall t | t in ready ensures t in order {
      assert t in multiset(ready);
      assert t in multiset(order);
    }
    ResultsRecord(w, order);
    missing := false;
  }

  /** Storing the ids of a stage's results in the order they came in. */
  method StoreIds(w: World, stageResults: seq<TaskResult>, ids: Ids, ghost order: seq<Tag>) returns (known: Ids)
    requires stageResults == Results(w, order)
    ensures known == Learn(w, order, ids)
  {
    known := ids;
    for i := 0 to |stageResults|
      invariant known == Learn(w, order[..i], ids)
    {
      assert order[..i + 1][..i] == order[..i];
      var result := stageResults[i];
      if result.entityId.Some? {
        known := known[Normalize(w.fold, result.itemKey) := result.entityId.value];
      }
    }
    assert order[..|stageResults|] == order;
  }

  /** The failures reported for the tags still blocked when nothing is ready. */
  method FailBlocked(blocked: seq<Tag>) returns (results: seq<TaskResult>)
    ensures results == BlockedResults(blocked)
  {
    results := [];
    for i := 0 to |blocked|
      invariant results == BlockedResults(blocked[..i])
    {
      results := results + [BlockedResult(blocked[i])];
    }
    assert blocked[..|blocked|] == blocked;
  }

  method CollectPending(w: World, seedTags: seq<Tag>, existing: Ids) returns (pending: seq<Tag>)
    ensures pending == Pending(w, seedTags, existing)
  {
    pending := [];
    for i := 0 to |seedTags|
      invariant pending == Pending(w, seedTags[..i], existing)
    {
      assert seedTags[..i + 1][..i] == seedTags[..i];
      if TagKey(w, seedTags[i]) !in existing {
        pending := pending + [seedTags[i]];
      }
    }
    assert seedTags[..|seedTags|] == seedTags;
  }

  method Partition(w: World, pending: seq<Tag>, ids: Ids) returns (ready: seq<Tag>, blocked: seq<Tag>)
    ensures ready == ReadyTags(w, pending, ids.Keys) && blocked == BlockedTags(w, pending, ids.Keys)
  {
    hide Needs;
    ready, blocked := [], [];
    for i := 0 to |pending|
      invariant ready == ReadyTags(w, pending[..i], ids.Keys)
      invariant blocked == BlockedTags(w, pending[..i], ids.Keys)
    {
      assert pending[..i + 1][..i] == pending[..i];
      var unresolved := UnresolvedRelationNames(w, pending[i], ids);
      if unresolved != [] {
        blocked := blocked + [pending[i]];
      } else {
        ready := ready + [pending[i]];
      }
    }
    assert pending[..|pending|] == pending;
  }

  lemma LayersStep(w: World, pending: seq<Tag>, ids: Ids)
    requires Distinct(w, pending) && [] !in ids
    requires forall t :: t in pending ==> StoreKey(w, t) != []
    ensures var ready := ReadyTags(w, pending, ids.Keys);
            var blocked := BlockedTags(w, pending, ids.Keys);
            && Distinct(w, ready) && Distinct(w, blocked)
            && (forall t :: t in blocked ==> StoreKey(w, t) != [])
            && [] !in Learn(w, ready, ids)
            && ((exists t :: t in ready && ResolveIds(w, t.relations, ids).None?)
                <==> exists t :: t in ready && !Named(w, t))
            && |blocked| == |pending| - |ready|
            && (ready == [] ==> Layers(w, pending, ids) == Final(ids, [], blocked))
            && (ready != [] ==>
                  var rest := Layers(w, blocked, Learn(w, ready, ids));
                  Layers(w, pending, ids) == rest.(attempted := ready + rest.attempted))
  {
    hide StoreKey, Needs, Named, ResolveIds, Success;
    var ready := ReadyTags(w, pending, ids.Keys);
    var blocked := BlockedTags(w, pending, ids.Keys);
    Split(w, pending, ids.Keys);
    DistinctPart(w, pending, ready);
    DistinctPart(w, pending, blocked);
    LearnKeys(w, ready, ids);
    forall t | t in ready ensures ResolveIds(w, t.relations, ids).Some? <==> Named(w, t) {
      ReadyResolvesIffNamed(w, t, ids);
    }
  }

  /** `id` is what `k` had at the start, or what the attempt of one of `tags` of that
      key returned. */
  ghost predicate IdSource(w: World, existing: Ids, tags: seq<Tag>, k: string, id: int) {
    || (k in existing && existing[k] == id)
    || exists u :: u in tags && Success(w, u) && StoreKey(w, u) == k && w.attempt(u).id == id
  }

  /** Every id posted with a tag has its source before that tag. */
  ghost predicate Sourced(w: World, existing: Ids, order: seq<Tag>, relationIds: seq<seq<int>>) {
    && |relationIds| == |order|
    && forall i :: 0 <= i < |order| ==> SourcedAt(w, existing, order[..i], order[i], relationIds[i])
  }

  ghost predicate SourcedAt(w: World, existing: Ids, before: seq<Tag>, tag: Tag, relationIds: seq<int>) {
    && |relationIds| == |tag.relations|
    && forall j :: 0 <= j < |relationIds| ==>
         IdSource(w, existing, before, TextKey(w, tag.relations[j]), relationIds[j])
  }

  ghost predicate KnownSourced(w: World, existing: Ids, order: seq<Tag>, ids: Ids) {
    forall k :: k in ids ==> IdSource(w, existing, order, k, ids[k])
  }

  lemma SourceStays(w: World, existing: Ids, tags: seq<Tag>, more: seq<Tag>, k: string, id: int)
    requires IdSource(w, existing, tags, k, id) && forall t :: t in tags ==> t in more
    ensures IdSource(w, existing, more, k, id)
  {
    hide StoreKey, Success;
  }

  lemma StageSourced(
    w: World, existing: Ids, order: seq<Tag>, relationIds: seq<seq<int>>, ids: Ids,
    stage: seq<Tag>, stageIds: seq<seq<int>>)
    requires Sourced(w, existing, order, relationIds) && KnownSourced(w, existing, order, ids)
    requires Resolved(w, stage, stageIds, ids)
    ensures Sourced(w, existing, order + stage, relationIds + stageIds)
  {
    hide IdSource, StoreKey, ResolveIds;
    var all, given := order + stage, relationIds + stageIds;
    forall i | 0 <= i < |all| ensures SourcedAt(w, existing, all[..i], all[i], given[i]) {
      if i < |order| {
        assert all[..i] == order[..i];
      } else {
        var t := stage[i - |order|];
        ResolveIdsIff(w, t.relations, ids);
        forall j | 0 <= j < |given[i]|
          ensures IdSource(w, existing, all[..i], TextKey(w, t.relations[j]), given[i][j])
        {
          assert order == all[..i][..|order|];
          SourceStays(w, existing, order, all[..i], TextKey(w, t.relations[j]), given[i][j]);
        }
      }
    }
  }

  lemma LearnSourced(w: World, existing: Ids, order: seq<Tag>, ids: Ids, stage: seq<Tag>)
    requires KnownSourced(w, existing, order, ids) && Distinct(w, stage)
    ensures KnownSourced(w, existing, order + stage, Learn(w, stage, ids))
  {
    hide StoreKey, Success, Learn, Distinct;
    LearnValues(w, stage, ids);
    var known := Learn(w, stage, ids);
    forall k | k in known ensures IdSource(w, existing, order + stage, k, known[k]) {
      if Learned(w, stage, k) {
        var t :| t in stage && Success(w, t) && StoreKey(w, t) == k;
        assert t in order + stage;
      } else {
        SourceStays(w, existing, order, order + stage, k, ids[k]);
      }
    }
  }

  /** One result for each attempted tag, in some order, then one failure for each blocked
      tag; and with each attempted tag the ids its relations had by then. */
  ghost predicate Reports(
    w: World, existing: Ids, results: seq<TaskResult>, relationIds: seq<seq<int>>, f: Final)
  {
    exists order ::
      && multiset(order) == multiset(f.attempted)
      && results == Results(w, order) + BlockedResults(f.blocked)
      && Sourced(w, existing, order, relationIds)
  }

  /** A tag that comes up has a relation without a usable name. */
  ghost predicate MeetsUnnamed(w: World, f: Final) {
    exists t :: t in f.attempted && !Named(w, t)
  }

  /** The tag import. */
  method ImportTags(w: World, seedTags: seq<Tag>, existing: Ids) returns (r: ImportRun)
    requires Distinct(w, Pending(w, seedTags, existing)) && [] !in existing
    requires forall t :: t in Pending(w, seedTags, existing) ==> StoreKey(w, t) != []
    ensures var f := Layers(w, Pending(w, seedTags, existing), existing);
            && (r.MissingKey? <==> MeetsUnnamed(w, f))
            && (r.Done? ==> Reports(w, existing, r.results, r.relationIds, f))
  {
    hide StoreKey, Needs, Named, ResolveIds, Success, Distinct, Layers, Results, BlockedResults, Learn;
    hide ReadyTags, BlockedTags, Resolved, Sourced, KnownSourced;
    NoTags(w, existing);
    NothingSourced(w, existing);
    var results: seq<TaskResult>, relationIds: seq<seq<int>> := [], [];
    ghost var order: seq<Tag> := [];
    var pending := CollectPending(w, seedTags, existing);
    var ids := existing;
    ghost var f := Layers(w, pending, existing);
    ghost var stages: seq<Tag> := [];
    while pending != []
      invariant Distinct(w, pending) && [] !in ids
      invariant forall t :: t in pending ==> StoreKey(w, t) != []
      invariant var rest := Layers(w, pending, ids); f == rest.(attempted := stages + rest.attempted)
      invariant forall t :: t in stages ==> Named(w, t)
      invariant multiset(order) == multiset(stages) && results == Results(w, order)
      invariant Sourced(w, existing, order, relationIds) && KnownSourced(w, existing, order, ids)
      decreases |pending|
    {
      LayersStep(w, pending, ids);
      var ready, blocked := Partition(w, pending, ids);
      if ready == [] {
        var failures := FailBlocked(blocked);
        assert Reports(w, existing, results + failures, relationIds, f);
        return Done(results + failures, relationIds);
      }
      var stageResults, stageIds, missing, stageOrder := RunStage(w, ready, ids);
      assert forall t :: t in ready ==> t in f.attempted;
      if missing {
        return MissingKey;
      }
      DistinctPart(w, ready, stageOrder);
      StageSourced(w, existing, order, relationIds, ids, stageOrder, stageIds);
      LearnSourced(w, existing, order, ids, stageOrder);
      results, relationIds := results + stageResults, relationIds + stageIds;
      LearnAnyOrder(w, ready, stageOrder, ids);
      ids := StoreIds(w, stageResults, ids, stageOrder);
      pending := blocked;
      ResultsConcat(w, order, stageOrder);
      order := order + stageOrder;
      ghost var rest := Layers(w, blocked, ids);
      assert stages + (ready + rest.attempted) == (stages + ready) + rest.attempted;
      stages := stages + ready;
    }
    NoTags(w, ids);
    assert results == Results(w, order) + BlockedResults([]);
    return Done(results, relationIds);
  }

  lemma NothingSourced(w: World, existing: Ids)
    ensures Sourced(w, existing, [], []) && KnownSourced(w, existing, [], existing)
  {}

  lemma NoTags(w: World, ids: Ids)
    ensures Layers(w, [], ids) == Final(ids, [], []) && Results(w, []) == [] && BlockedResults([]) == []
  {}

  lemma ResultsConcat(w: World, a: seq<Tag>, b: seq<Tag>)
    ensures Results(w, a + b) == Results(w, a) + Results(w, b)
  {}
}
