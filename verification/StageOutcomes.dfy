/** How each task of an import stage ends, decided by the steps it took: failed only by
    a failing step or four refusals, skipped exactly when its lookup found the artist,
    and created exactly by a successful request. */
module StageOutcomes {
  import opened Options
  import opened Text
  import opened StageProtocol
  import opened StageTheorems

  /** A step by which task `i` fails. */
  predicate FailsTask(step: Step, i: nat) {
    step.i == i && (step.LookupFails? || step.PostFails? || step.PostLost?)
  }

  ghost predicate Failing(steps: seq<Step>, i: nat) {
    exists step :: step in steps && FailsTask(step, i)
  }

  /** How often the server refused task `i` with status 429. */
  function Refusals(steps: seq<Step>, i: nat): nat {
    if steps == [] then 0
    else Refusals(steps[..|steps| - 1], i) + (if steps[|steps| - 1] == PostTooMany(i) then 1 else 0)
  }

  ghost predicate Posted(steps: seq<Step>, i: nat) {
    exists id :: PostOk(i, id) in steps
  }

  // ---------- what the history says of a task ----------

  ghost predicate TaskOk(s: Sys, h: seq<Step>, i: nat)
    requires i < |s.phases|
  {
    match s.phases[i]
    case Finished(Failed) => (Failing(h, i) || Refusals(h, i) == 4) && !Posted(h, i)
    case Finished(Created(id)) =>
      !Failing(h, i) && Refusals(h, i) < 4 && forall x :: PostOk(i, x) in h <==> x == id
    case Running(Posting(a)) => !Failing(h, i) && !Posted(h, i) && Refusals(h, i) == a < 4
    case _ => !Failing(h, i) && !Posted(h, i) && Refusals(h, i) == 0
  }

  lemma HistoryStep(h: seq<Step>, step: Step, i: nat)
    ensures Failing(h + [step], i) <==> Failing(h, i) || FailsTask(step, i)
    ensures Refusals(h + [step], i) == Refusals(h, i) + (if step == PostTooMany(i) then 1 else 0)
    ensures forall id :: PostOk(i, id) in h + [step] <==> PostOk(i, id) in h || PostOk(i, id) == step
    ensures Posted(h + [step], i) <==> Posted(h, i) || (step.PostOk? && step.i == i)
  {
    var more := h + [step];
    assert more[..|more| - 1] == h;
    assert forall x :: x in more <==> x in h || x == step;
    if Posted(h, i) {
      var id :| PostOk(i, id) in h;
      assert PostOk(i, id) in more;
    }
    if step.PostOk? && step.i == i {
      assert PostOk(i, step.id) in more;
    }
  }

  /** A lookup that is answered in a state with unique names. */
  lemma LookupOutcome(st: Stage, s: Sys, i: nat)
    requires Inv(st, s) && Enabled(st, s, LookupAnswers(i))
    ensures forall id :: id in s.rows && Normalize(st.fold, s.rows[id]) == Key(st, i) ==>
              Next(st, s, LookupAnswers(i)).phases[i] == Finished(Skipped(id))
    ensures (forall id :: id in s.rows ==> Normalize(st.fold, s.rows[id]) != Key(st, i)) ==>
              Next(st, s, LookupAnswers(i)).phases[i] == Running(Posting(0))
  {
    hide Normalize, Strip, PermitsOk, ResultsOk;
    NormalizeStrip(st.fold, st.items[i]);
    var found := Matches(st, s.rows, Strip(st.items[i]));
    assert forall id :: id in found <==> id in s.rows && Normalize(st.fold, s.rows[id]) == Key(st, i);
    assert Unique(st, s.rows);
    forall id | id in s.rows && Normalize(st.fold, s.rows[id]) == Key(st, i)
      ensures Next(st, s, LookupAnswers(i)).phases[i] == Finished(Skipped(id))
    {
      assert id in found && forall x :: x in found ==> x == id;
      if found - {id} != {} {
        var x := Element(found - {id});
      }
      assert found == {id};
      assert forall x :: found == {x} ==> x in found;
    }
    if forall id :: id in s.rows ==> Normalize(st.fold, s.rows[id]) != Key(st, i) {
      if found != {} {
        var x := Element(found);
      }
    }
  }

  lemma OtherTask(st: Stage, s: Sys, step: Step, i: nat)
    requires Enabled(st, s, step) && i < |s.phases| && step.i != i
    ensures |Next(st, s, step).phases| == |s.phases| && Next(st, s, step).phases[i] == s.phases[i]
  {
    hide Matches, Key, Strip;
  }

  /** A task's own step other than an answered lookup. */
  lemma OwnStep(st: Stage, s: Sys, h: seq<Step>, step: Step)
    requires Enabled(st, s, step) && step.i < |s.phases| && !step.LookupAnswers?
    requires TaskOk(s, h, step.i)
    ensures step.i < |Next(st, s, step).phases| && TaskOk(Next(st, s, step), h + [step], step.i)
  {
    hide Matches, Key, Strip, Failing, Posted, Refusals, FailsTask;
    HistoryStep(h, step, step.i);
    assert FailsTask(step, step.i) <==> step.LookupFails? || step.PostFails? || step.PostLost? by {
      FailsOwn(step);
    }
    if step.PostOk? {
      NotPosted(h, step.i);
    }
  }

  lemma FailsOwn(step: Step)
    ensures FailsTask(step, step.i) <==> step.LookupFails? || step.PostFails? || step.PostLost?
  {}

  lemma NotPosted(h: seq<Step>, i: nat)
    ensures !Posted(h, i) ==> forall id :: PostOk(i, id) !in h
  {}

  lemma TaskStep(st: Stage, s: Sys, h: seq<Step>, step: Step, i: nat)
    requires Inv(st, s) && Enabled(st, s, step) && i < |s.phases|
    requires TaskOk(s, h, i)
    ensures i < |Next(st, s, step).phases| && TaskOk(Next(st, s, step), h + [step], i)
  {
    if step.i != i {
      hide Next, Enabled, Failing, Posted, Refusals, Inv;
      OtherTask(st, s, step, i);
      HistoryStep(h, step, i);
      assert !FailsTask(step, i);
    } else if step.LookupAnswers? {
      hide Failing, Posted, Refusals, Inv, Matches, Key, Next;
      HistoryStep(h, step, i);
      LookupOutcome(st, s, i);
      AfterLookup(st, s, i);
      assert !FailsTask(step, i);
    } else {
      hide TaskOk, Inv, Next, Enabled;
      OwnStep(st, s, h, step);
    }
  }

  lemma AfterLookup(st: Stage, s: Sys, i: nat)
    requires Inv(st, s) && Enabled(st, s, LookupAnswers(i))
    ensures var s' := Next(st, s, LookupAnswers(i));
            && i < |s'.phases|
            && (s'.phases[i] == Running(Posting(0)) || (s'.phases[i].Finished? && s'.phases[i].outcome.Skipped?))
  {
    hide Next, Normalize, PermitsOk, ResultsOk, RowsOk;
    KeepsInv(st, s, LookupAnswers(i));
    LookupOutcome(st, s, i);
  }

  lemma {:induction false} History(st: Stage, s: Sys, h: seq<Step>, steps: seq<Step>, i: nat)
    requires Inv(st, s) && Possible(st, s, steps) && i < |s.phases| && TaskOk(s, h, i)
    ensures Inv(st, After(st, s, steps)) && i < |After(st, s, steps).phases|
    ensures TaskOk(After(st, s, steps), h + steps, i)
    decreases |steps|
  {
    hide Inv, Next, Enabled, TaskOk;
    if steps == [] {
      assert h + [] == h;
    } else {
      KeepsInv(st, s, steps[0]);
      TaskStep(st, s, h, steps[0], i);
      History(st, Next(st, s, steps[0]), h + [steps[0]], steps[1..], i);
      assert h + steps == h + [steps[0]] + steps[1..];
    }
  }

  /** Over any run from unique names: a task has failed exactly if it took a failing step or
      was refused four times, and it has created an artist exactly if a request of its
      succeeded, with the id that one returned. */
  lemma OutcomesIff(st: Stage, rows: Rows, steps: seq<Step>, i: nat)
    requires Unique(st, rows) && Possible(st, Begin(st, rows), steps) && i < |st.items|
    ensures var s := After(st, Begin(st, rows), steps);
            && |s.phases| == |st.items|
            && (s.phases[i] == Finished(Failed) <==> Failing(steps, i) || Refusals(steps, i) == 4)
            && (forall id :: s.phases[i] == Finished(Created(id)) <==> PostOk(i, id) in steps)
  {
    hide After, Possible, Refusals, RowsOk, ResultsOk, PermitsOk;
    var s0 := Begin(st, rows);
    BeginOk(st, rows);
    assert Refusals([], i) == 0 by { NoRefusals(i); }
    assert TaskOk(s0, [], i);
    History(st, s0, [], steps, i);
    assert [] + steps == steps;
    NotPosted(steps, i);
  }

  lemma NoRefusals(i: nat)
    ensures Refusals([], i) == 0
  {}

  // ---------- lookups ----------

  /** What can become of a phase: nothing more once finished, and no skipping once the
      lookup found nothing. */
  predicate Leads(p: Phase, q: Phase) {
    && (p.Finished? ==> q == p)
    && (p.Running? && p.worker.Posting? ==>
          (q.Running? && q.worker.Posting?) || (q.Finished? && !q.outcome.Skipped?))
  }

  lemma LeadsStep(st: Stage, s: Sys, step: Step, i: nat)
    requires Enabled(st, s, step) && i < |s.phases|
    ensures i < |Next(st, s, step).phases| && Leads(s.phases[i], Next(st, s, step).phases[i])
  {
    hide Matches, Key, Strip;
  }

  lemma {:induction false} LeadsOn(st: Stage, s: Sys, steps: seq<Step>, i: nat)
    requires Possible(st, s, steps) && i < |s.phases|
    ensures i < |After(st, s, steps).phases| && Leads(s.phases[i], After(st, s, steps).phases[i])
    decreases |steps|
  {
    hide Next, Enabled;
    if steps != [] {
      LeadsStep(st, s, steps[0], i);
      LeadsOn(st, Next(st, s, steps[0]), steps[1..], i);
    }
  }

  lemma {:induction false} InParts(st: Stage, s: Sys, a: seq<Step>, b: seq<Step>)
    requires Possible(st, s, a + b)
    ensures Possible(st, s, a) && Possible(st, After(st, s, a), b)
    ensures After(st, s, a + b) == After(st, After(st, s, a), b)
    decreases |a|
  {
    hide Next, Enabled;
    if a == [] {
      assert a + b == b;
    } else {
      assert (a + b)[1..] == a[1..] + b;
      InParts(st, Next(st, s, a[0]), a[1..], b);
    }
  }

  /** A task is skipped exactly with the id of the artist that had its name when its
      lookup was answered, whatever came before and after. */
  lemma SkippedIff(st: Stage, rows: Rows, before: seq<Step>, after: seq<Step>, i: nat, id: int)
    requires Unique(st, rows) && Possible(st, Begin(st, rows), before + ([LookupAnswers(i)] + after))
    ensures Possible(st, Begin(st, rows), before)
    ensures var s := After(st, Begin(st, rows), before);
            var s' := After(st, Begin(st, rows), before + ([LookupAnswers(i)] + after));
            && i < |s'.phases| && i < |st.items|
            && (s'.phases[i] == Finished(Skipped(id))
                <==> id in s.rows && Normalize(st.fold, s.rows[id]) == Key(st, i))
  {
    hide Possible, After, Next, Normalize, Inv;
    var s0, steps := Begin(st, rows), [LookupAnswers(i)] + after;
    BeginOk(st, rows);
    InParts(st, s0, before, steps);
    var s := After(st, s0, before);
    Reachable(st, s0, before);
    FirstStep(st, s, LookupAnswers(i), after);
    var s1 := Next(st, s, LookupAnswers(i));
    LookupOutcome(st, s, i);
    AfterLookup(st, s, i);
    LeadsOn(st, s1, after, i);
  }

  lemma FirstStep(st: Stage, s: Sys, step: Step, steps: seq<Step>)
    requires Possible(st, s, [step] + steps)
    ensures Enabled(st, s, step) && Possible(st, Next(st, s, step), steps)
    ensures After(st, s, [step] + steps) == After(st, Next(st, s, step), steps)
  {
    hide Enabled, Next;
    assert ([step] + steps)[1..] == steps;
  }

  // ---------- rows ----------

  /** Some request of task `i` made row `id`, whether its answer arrived or not. */
  ghost predicate Made(steps: seq<Step>, i: nat, id: int) {
    PostOk(i, id) in steps || PostLost(i, id) in steps
  }

  ghost predicate RowsFrom(st: Stage, rows: Rows, s: Sys, h: seq<Step>) {
    && |s.phases| == |st.items|
    && (forall id :: id in rows ==> id in s.rows && s.rows[id] == rows[id])
    && (forall i: nat, id :: Made(h, i, id) ==> i < |st.items| && id in s.rows && s.rows[id] == Strip(st.items[i]))
    && (forall id :: id in s.rows && id !in rows ==> exists i: nat :: Made(h, i, id))
  }

  lemma MadeStep(h: seq<Step>, step: Step)
    ensures forall i: nat, id :: Made(h + [step], i, id)
                 <==> Made(h, i, id) || PostOk(i, id) == step || PostLost(i, id) == step
  {}

  lemma RowsStep(st: Stage, rows: Rows, s: Sys, h: seq<Step>, step: Step)
    requires RowsFrom(st, rows, s, h) && Enabled(st, s, step)
    ensures RowsFrom(st, rows, Next(st, s, step), h + [step])
  {
    hide Matches, Key, Strip, Made;
    MadeStep(h, step);
    var s' := Next(st, s, step);
    forall id | id in s'.rows && id !in rows ensures exists i: nat :: Made(h + [step], i, id) {
      if id in s.rows {
        var i: nat :| Made(h, i, id);
        assert Made(h + [step], i, id);
      } else {
        assert Made(h + [step], step.i, id);
      }
    }
  }

  lemma {:induction false} RowsHistory(st: Stage, rows: Rows, s: Sys, h: seq<Step>, steps: seq<Step>)
    requires RowsFrom(st, rows, s, h) && Possible(st, s, steps)
    ensures RowsFrom(st, rows, After(st, s, steps), h + steps)
    decreases |steps|
  {
    hide RowsFrom, Next, Enabled;
    if steps == [] {
      assert h + [] == h;
    } else {
      RowsStep(st, rows, s, h, steps[0]);
      RowsHistory(st, rows, Next(st, s, steps[0]), h + [steps[0]], steps[1..]);
      assert h + steps == h + [steps[0]] + steps[1..];
    }
  }

  /** The rows after a run are those before it and, under the stripped name of its item,
      one for each request that had an effect. */
  lemma RowsIff(st: Stage, rows: Rows, steps: seq<Step>)
    requires Possible(st, Begin(st, rows), steps)
    ensures RowsFrom(st, rows, After(st, Begin(st, rows), steps), steps)
  {
    hide After, Possible;
    RowsHistory(st, rows, Begin(st, rows), [], steps);
    assert [] + steps == steps;
  }

  // ---------- a run that succeeds ----------

  /** The first `k` tasks are done, the others have not begun. */
  ghost predicate Between(st: Stage, s: Sys, k: nat) {
    && Inv(st, s) && k <= |st.items| == |s.phases|
    && (forall i :: 0 <= i < k ==> Succeeded(s, i))
    && (forall i :: k <= i < |st.items| ==> s.phases[i] == Waiting)
  }

  lemma NobodyHolds(st: Stage, s: Sys, k: nat)
    requires Between(st, s, k)
    ensures s.locks == map[] && s.free == st.concurrency
  {
    forall i: nat | i < |st.items| ensures !Holds(s.phases[i]) {
      if i < k {
        assert Succeeded(s, i);
      }
    }
    assert RunningTasks(s) == {};
  }

  lemma Fresh(rows: Rows) returns (id: int)
    ensures id !in rows
  {
    id := FreshFor(rows.Keys);
  }

  lemma {:induction false} FreshFor(ids: set<int>) returns (id: int)
    ensures forall x :: x in ids ==> x < id
  {
    id := 0;
    if ids != {} {
      var y := Element(ids);
      id := FreshFor(ids - {y});
      assert forall x :: x in ids ==> x == y || x in ids - {y};
      if id <= y {
        id := y + 1;
      }
    }
  }

  /** The next task takes its lock and permit, and looks its artist up. */
  lemma OneTask(st: Stage, s: Sys, k: nat) returns (steps: seq<Step>)
    requires Between(st, s, k) && k < |st.items| && st.concurrency > 0
    ensures Possible(st, s, steps) && Between(st, After(st, s, steps), k + 1)
  {
    hide Inv, Key, Strip;
    NobodyHolds(st, s, k);
    var s1 := Next(st, s, TakeLock(k));
    KeepsInv(st, s, TakeLock(k));
    var s2 := Next(st, s1, TakePermit(k));
    KeepsInv(st, s1, TakePermit(k));
    var s3 := Next(st, s2, LookupAnswers(k));
    KeepsInv(st, s2, LookupAnswers(k));
    AfterLookup(st, s2, k);
    OtherTasks(st, s2, LookupAnswers(k));
    assert forall i :: 0 <= i < k ==> Succeeded(s, i) && s1.phases[i] == s2.phases[i] == s3.phases[i] == s.phases[i];
    if s3.phases[k].Finished? {
      steps := [TakeLock(k), TakePermit(k), LookupAnswers(k)] + [];
      Three(st, s, TakeLock(k), TakePermit(k), LookupAnswers(k), []);
    } else {
      var id := Fresh(s3.rows);
      KeepsInv(st, s3, PostOk(k, id));
      OtherTasks(st, s3, PostOk(k, id));
      var rest := [PostOk(k, id)] + [];
      steps := [TakeLock(k), TakePermit(k), LookupAnswers(k)] + rest;
      Prepend(st, s3, PostOk(k, id), []);
      Three(st, s, TakeLock(k), TakePermit(k), LookupAnswers(k), rest);
      assert forall i :: 0 <= i < k ==> Next(st, s3, PostOk(k, id)).phases[i] == s.phases[i];
    }
  }

  lemma OtherTasks(st: Stage, s: Sys, step: Step)
    requires Enabled(st, s, step)
    ensures |Next(st, s, step).phases| == |s.phases|
    ensures forall i :: 0 <= i < |s.phases| && i != step.i ==> Next(st, s, step).phases[i] == s.phases[i]
  {
    hide Matches, Key, Strip;
  }

  lemma Prepend(st: Stage, s: Sys, step: Step, steps: seq<Step>)
    requires Enabled(st, s, step) && Possible(st, Next(st, s, step), steps)
    ensures Possible(st, s, [step] + steps)
    ensures After(st, s, [step] + steps) == After(st, Next(st, s, step), steps)
  {
    hide Enabled, Next;
    assert ([step] + steps)[1..] == steps;
  }

  lemma Three(st: Stage, s: Sys, a: Step, b: Step, c: Step, rest: seq<Step>)
    requires Enabled(st, s, a) && Enabled(st, Next(st, s, a), b)
    requires Enabled(st, Next(st, Next(st, s, a), b), c)
    requires Possible(st, Next(st, Next(st, Next(st, s, a), b), c), rest)
    ensures Possible(st, s, [a, b, c] + rest)
    ensures After(st, s, [a, b, c] + rest) == After(st, Next(st, Next(st, Next(st, s, a), b), c), rest)
  {
    hide Enabled, Next, Possible, After;
    var s1 := Next(st, s, a);
    var s2 := Next(st, s1, b);
    Prepend(st, s2, c, rest);
    Prepend(st, s1, b, [c] + rest);
    Prepend(st, s, a, [b] + ([c] + rest));
    assert [a, b, c] + rest == [a] + ([b] + ([c] + rest));
  }

  /** From unique names every stage has a run in which every item succeeds. */
  lemma {:induction false} CanSucceed(st: Stage, rows: Rows, k: nat) returns (steps: seq<Step>)
    requires Unique(st, rows) && st.concurrency > 0 && k <= |st.items|
    ensures Possible(st, Begin(st, rows), steps) && Between(st, After(st, Begin(st, rows), steps), k)
  {
    hide Inv;
    if k == 0 {
      BeginOk(st, rows);
      steps := [];
    } else {
      hide Between, Possible, After;
      var first := CanSucceed(st, rows, k - 1);
      var more := OneTask(st, After(st, Begin(st, rows), first), k - 1);
      Joined(st, Begin(st, rows), first, more);
      steps := first + more;
    }
  }

  lemma {:induction false} Joined(st: Stage, s: Sys, a: seq<Step>, b: seq<Step>)
    requires Possible(st, s, a) && Possible(st, After(st, s, a), b)
    ensures Possible(st, s, a + b) && After(st, s, a + b) == After(st, After(st, s, a), b)
    decreases |a|
  {
    hide Next, Enabled;
    if a == [] {
      assert a + b == b;
    } else {
      assert (a + b)[1..] == a[1..] + b;
      Joined(st, Next(st, s, a[0]), a[1..], b);
    }
  }

  // ---------- running again ----------

  /** A second run in which task `j` takes no failing step and is not refused four times
      skips it with the id its item had in the first run. */
  lemma SecondRunSkips(
    st: Stage, rows: Rows, first: seq<Step>, s: Sys, again: Stage, second: seq<Step>, s': Sys, i: nat, j: nat)
    requires RanTwice(st, rows, first, s, again, second, s')
    requires i < |st.items| && j < |again.items| && Key(st, i) == Key(again, j)
    requires Succeeded(s, i)
    requires j < |s'.phases| && s'.phases[j].Finished?
    requires !Failing(second, j) && Refusals(second, j) < 4
    ensures s'.phases[j] == Finished(Skipped(s.phases[i].outcome.id))
  {
    hide Normalize, Failing, Refusals;
    BothRuns(st, rows, first, s, again, second, s');
    OutcomesIff(again, s.rows, second, j);
    SecondRunSameId(st, rows, first, s, again, second, s', i, j);
  }
}
