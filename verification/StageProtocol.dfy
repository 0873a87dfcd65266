/** A stage of the importer as a protocol: one task per item takes the lock of its
    key, then a permit, runs the artist worker (look the name up, create it if it is
    not there), and gives both back. Tasks interleave at every suspension point. */
module StageProtocol {
  import opened Text

  datatype Outcome = Created(id: int) | Skipped(id: int) | Failed

  datatype Worker = Looking | Posting(attempt: nat)

  datatype Phase = Waiting | Locked | Running(worker: Worker) | Finished(outcome: Outcome)

  /** The stage: folding table, number of permits and the names of the items. */
  datatype Stage = Stage(fold: char -> string, concurrency: nat, items: seq<string>)

  type Rows = map<int, string>

  datatype Sys = Sys(phases: seq<Phase>, locks: map<string, nat>, free: nat, rows: Rows, results: seq<nat>)

  function Key(st: Stage, i: nat): string
    requires i < |st.items|
  {
    Normalize(st.fold, st.items[i])
  }

  /** Attempts of one request: the first and three retries. */
  const LAST_ATTEMPT: nat := 3

  /** The artists the lookup takes for the one asked for. */
  function Matches(st: Stage, rows: Rows, name: string): set<int> {
    set id | id in rows && Normalize(st.fold, rows[id]) == Normalize(st.fold, name)
  }

  /** One step of task `i`; the server and the network decide what the worker sees. */
  datatype Step =
    | TakeLock(i: nat)
    | TakePermit(i: nat)
    | LookupAnswers(i: nat)
    | LookupFails(i: nat)
    | PostOk(i: nat, id: int)
    | PostLost(i: nat, id: int)
    | PostTooMany(i: nat)
    | PostFails(i: nat)

  predicate At(st: Stage, s: Sys, i: nat, phase: Phase) {
    i < |s.phases| && |s.phases| == |st.items| && s.phases[i] == phase
  }

  predicate IsPosting(st: Stage, s: Sys, i: nat) {
    && i < |s.phases| && |s.phases| == |st.items|
    && s.phases[i].Running? && s.phases[i].worker.Posting?
  }

  predicate Enabled(st: Stage, s: Sys, step: Step) {
    match step
    case TakeLock(i) => At(st, s, i, Waiting) && Key(st, i) !in s.locks
    case TakePermit(i) => At(st, s, i, Locked) && s.free > 0
    case LookupAnswers(i) => At(st, s, i, Running(Looking))
    case LookupFails(i) => At(st, s, i, Running(Looking))
    case PostOk(i, id) => IsPosting(st, s, i) && id !in s.rows
    case PostLost(i, id) => IsPosting(st, s, i) && id !in s.rows
    case PostTooMany(i) => IsPosting(st, s, i)
    case PostFails(i) => IsPosting(st, s, i)
  }

  /** The worker of task `i` returns: permit and lock are given back, the result is recorded. */
  function Finish(st: Stage, s: Sys, i: nat, outcome: Outcome, rows: Rows): Sys
    requires i < |s.phases| == |st.items|
  {
    Sys(s.phases[i := Finished(outcome)], s.locks - {Key(st, i)}, s.free + 1, rows, s.results + [i])
  }

  ghost function Next(st: Stage, s: Sys, step: Step): Sys
    requires Enabled(st, s, step)
  {
    match step
    case TakeLock(i) => s.(phases := s.phases[i := Locked], locks := s.locks[Key(st, i) := i])
    case TakePermit(i) => s.(phases := s.phases[i := Running(Looking)], free := s.free - 1)
    case LookupFails(i) => Finish(st, s, i, Failed, s.rows)
    case LookupAnswers(i) =>
      var found := Matches(st, s.rows, Strip(st.items[i]));
      if found == {} then s.(phases := s.phases[i := Running(Posting(0))])
      else if id :| found == {id} then Finish(st, s, i, Skipped(id), s.rows)
      else Finish(st, s, i, Failed, s.rows)
    case PostOk(i, id) => Finish(st, s, i, Created(id), s.rows[id := Strip(st.items[i])])
    case PostLost(i, id) => Finish(st, s, i, Failed, s.rows[id := Strip(st.items[i])])
    case PostTooMany(i) =>
      var a := s.phases[i].worker.attempt;
      if a < LAST_ATTEMPT then s.(phases := s.phases[i := Running(Posting(a + 1))])
      else Finish(st, s, i, Failed, s.rows)
    case PostFails(i) => Finish(st, s, i, Failed, s.rows)
  }

  function Begin(st: Stage, rows: Rows): Sys {
    Sys(seq(|st.items|, _ => Waiting), map[], st.concurrency, rows, [])
  }

  ghost predicate Possible(st: Stage, s: Sys, steps: seq<Step>)
    decreases |steps|
  {
    steps == [] || (Enabled(st, s, steps[0]) && Possible(st, Next(st, s, steps[0]), steps[1..]))
  }

  ghost function After(st: Stage, s: Sys, steps: seq<Step>): Sys
    requires Possible(st, s, steps)
    decreases |steps|
  {
    if steps == [] then s else After(st, Next(st, s, steps[0]), steps[1..])
  }

  // ---------- what every reachable state satisfies ----------

  predicate Holds(p: Phase) { p.Locked? || p.Running? }

  ghost function RunningTasks(s: Sys): set<nat> {
    set i: nat | i < |s.phases| && s.phases[i].Running?
  }

  ghost predicate Unique(st: Stage, rows: Rows) {
    forall a, b :: a in rows && b in rows && Normalize(st.fold, rows[a]) == Normalize(st.fold, rows[b]) ==> a == b
  }

  ghost predicate LocksOk(st: Stage, s: Sys) {
    && |s.phases| == |st.items|
    && (forall k :: k in s.locks ==>
          s.locks[k] < |st.items| && Key(st, s.locks[k]) == k && Holds(s.phases[s.locks[k]]))
    && (forall i :: 0 <= i < |st.items| && Holds(s.phases[i]) ==> Key(st, i) in s.locks && s.locks[Key(st, i)] == i)
  }

  ghost predicate PermitsOk(st: Stage, s: Sys) {
    s.free + |RunningTasks(s)| == st.concurrency
  }

  ghost predicate ResultsOk(s: Sys) {
    && (forall i, j :: 0 <= i < j < |s.results| ==> s.results[i] != s.results[j])
    && (forall i: nat :: i in s.results <==> i < |s.phases| && s.phases[i].Finished?)
  }

  /** `outcome` carries the id of a row of that key. */
  predicate Backed(st: Stage, rows: Rows, key: string, outcome: Outcome) {
    outcome.Failed? || (outcome.id in rows && Normalize(st.fold, rows[outcome.id]) == key)
  }

  ghost predicate RowsOk(st: Stage, s: Sys)
    requires |s.phases| == |st.items|
  {
    && Unique(st, s.rows)
    && (forall i :: 0 <= i < |st.items| && s.phases[i].Running? && s.phases[i].worker.Posting? ==>
          && s.phases[i].worker.attempt <= LAST_ATTEMPT
          && forall id :: id in s.rows ==> Normalize(st.fold, s.rows[id]) != Key(st, i))
    && (forall i :: 0 <= i < |st.items| && s.phases[i].Finished? ==>
          Backed(st, s.rows, Key(st, i), s.phases[i].outcome))
  }

  ghost predicate Inv(st: Stage, s: Sys) {
    LocksOk(st, s) && PermitsOk(st, s) && ResultsOk(s) && RowsOk(st, s)
  }

  lemma BeginOk(st: Stage, rows: Rows)
    requires Unique(st, rows)
    ensures Inv(st, Begin(st, rows))
  {
    assert RunningTasks(Begin(st, rows)) == {};
  }

  lemma KeepsLocks(st: Stage, s: Sys, step: Step)
    requires LocksOk(st, s) && Enabled(st, s, step)
    ensures LocksOk(st, Next(st, s, step))
  {
    hide Normalize, Matches, Key, Strip;
    var i, s' := step.i, Next(st, s, step);
    assert forall j :: 0 <= j < |s.phases| && j != i ==> s'.phases[j] == s.phases[j];
    assert Holds(s.phases[i]) ==> Key(st, i) in s.locks;
    if step.TakeLock? {
      assert s'.locks == s.locks[Key(st, i) := i] && Holds(s'.phases[i]);
    } else if s'.phases[i].Finished? {
      assert s'.locks == s.locks - {Key(st, i)} && !Holds(s'.phases[i]);
    } else {
      assert s'.locks == s.locks && Holds(s'.phases[i]);
    }
  }

  lemma KeepsPermits(st: Stage, s: Sys, step: Step)
    requires PermitsOk(st, s) && Enabled(st, s, step)
    ensures PermitsOk(st, Next(st, s, step))
  {
    hide RunningTasks, Matches, Key, Strip;
    var i, s' := step.i, Next(st, s, step);
    PhaseChange(s, s', i, s'.phases[i]);
  }

  /** One phase changes: the running tasks gain or lose that task. */
  lemma PhaseChange(s: Sys, s': Sys, i: nat, p: Phase)
    requires i < |s.phases| && s'.phases == s.phases[i := p]
    ensures |RunningTasks(s')| == |RunningTasks(s)|
         + (if p.Running? then 1 else 0) - (if s.phases[i].Running? then 1 else 0)
  {
    var before, after := RunningTasks(s), RunningTasks(s');
    assert i in before <==> s.phases[i].Running?;
    assert i in after <==> p.Running?;
    assert forall k :: k != i ==> (k in before <==> k in after);
    assert before - {i} == after - {i};
    SizeWithout(before, i);
    SizeWithout(after, i);
  }

  lemma SizeWithout(tasks: set<nat>, i: nat)
    ensures |tasks| == |tasks - {i}| + if i in tasks then 1 else 0
  {
    if i in tasks {
      assert tasks == tasks - {i} + {i};
    } else {
      assert tasks == tasks - {i};
    }
  }

  lemma KeepsResults(st: Stage, s: Sys, step: Step)
    requires ResultsOk(s) && Enabled(st, s, step)
    ensures ResultsOk(Next(st, s, step))
  {
    hide Matches, Key;
  }

  lemma KeepsRows(st: Stage, s: Sys, step: Step)
    requires LocksOk(st, s) && RowsOk(st, s) && Enabled(st, s, step)
    ensures RowsOk(st, Next(st, s, step))
  {
    hide Normalize, Strip;
    var i, s' := step.i, Next(st, s, step);
    NormalizeStrip(st.fold, st.items[i]);
    var found := Matches(st, s.rows, Strip(st.items[i]));
    assert forall id :: id in s.rows && Normalize(st.fold, s.rows[id]) == Key(st, i) ==> id in found;
    assert Unique(st, s'.rows);
    assert forall id :: id in s.rows ==> id in s'.rows && s'.rows[id] == s.rows[id];
    assert step.LookupAnswers? ==> forall id :: found == {id} ==> id in found;
    forall j | 0 <= j < |st.items| && s'.phases[j].Running? && s'.phases[j].worker.Posting?
      ensures s'.phases[j].worker.attempt <= LAST_ATTEMPT
      ensures forall id :: id in s'.rows ==> Normalize(st.fold, s'.rows[id]) != Key(st, j)
    {
      if j != i {
        assert s.phases[j] == s'.phases[j];
        assert Holds(s.phases[j]) && (Holds(s.phases[i]) ==> Key(st, i) != Key(st, j));
      }
    }
    forall j | 0 <= j < |st.items| && s'.phases[j].Finished?
      ensures Backed(st, s'.rows, Key(st, j), s'.phases[j].outcome)
    {
      if j != i {
        assert s.phases[j] == s'.phases[j];
      }
    }
  }

  lemma KeepsInv(st: Stage, s: Sys, step: Step)
    requires Inv(st, s) && Enabled(st, s, step)
    ensures Inv(st, Next(st, s, step))
  {
    hide LocksOk, PermitsOk, ResultsOk, RowsOk, Next, Enabled;
    KeepsLocks(st, s, step);
    KeepsPermits(st, s, step);
    KeepsResults(st, s, step);
    KeepsRows(st, s, step);
  }

  lemma {:induction false} Reachable(st: Stage, s: Sys, steps: seq<Step>)
    requires Inv(st, s) && Possible(st, s, steps)
    ensures Inv(st, After(st, s, steps))
    decreases |steps|
  {
    hide Inv, Next, Enabled;
    if steps != [] {
      KeepsInv(st, s, steps[0]);
      Reachable(st, Next(st, s, steps[0]), steps[1..]);
    }
  }
}
