/** What every run of an import stage guarantees, whatever the interleaving. */
module StageTheorems {
  import opened Text
  import opened StageProtocol

  // ---------- exclusion and progress ----------

  /** Never more workers than permits, and never two for one key. */
  lemma Exclusion(st: Stage, rows: Rows, steps: seq<Step>)
    requires Unique(st, rows) && Possible(st, Begin(st, rows), steps)
    ensures var s := After(st, Begin(st, rows), steps);
            && |s.phases| == |st.items|
            && |RunningTasks(s)| <= st.concurrency
            && forall i, j :: i in RunningTasks(s) && j in RunningTasks(s) && Key(st, i) == Key(st, j) ==> i == j
  {
    hide After, Possible, Key, RowsOk, ResultsOk;
    BeginOk(st, rows);
    Reachable(st, Begin(st, rows), steps);
  }

  /** Taking the lock before the permit cannot deadlock: while a task is unfinished,
      some step is possible. */
  lemma Progress(st: Stage, s: Sys)
    requires Inv(st, s) && st.concurrency > 0
    requires exists i :: 0 <= i < |st.items| && !s.phases[i].Finished?
    ensures exists step :: Enabled(st, s, step)
  {
    hide RowsOk, ResultsOk, Key;
    var i :| 0 <= i < |st.items| && !s.phases[i].Finished?;
    if r :| r in RunningTasks(s) {
      if s.phases[r].worker.Looking? {
        assert Enabled(st, s, LookupFails(r));
      } else {
        assert Enabled(st, s, PostFails(r));
      }
    } else {
      assert RunningTasks(s) == {};
      if l :| 0 <= l < |st.items| && s.phases[l].Locked? {
        assert Enabled(st, s, TakePermit(l));
      } else {
        forall l: nat | l < |st.items| ensures !Holds(s.phases[l]) {
          assert l !in RunningTasks(s);
        }
        assert Enabled(st, s, TakeLock(i));
      }
    }
  }

  // ---------- termination ----------

  function Weight(p: Phase): nat {
    match p
    case Waiting => 7
    case Locked => 6
    case Running(Looking) => 5
    case Running(Posting(a)) => if a <= LAST_ATTEMPT then 4 - a else 1
    case Finished(_) => 0
  }

  function Work(phases: seq<Phase>): nat {
    if phases == [] then 0 else Work(phases[..|phases| - 1]) + Weight(phases[|phases| - 1])
  }

  lemma {:induction false} WorkUpdate(phases: seq<Phase>, i: nat, p: Phase)
    requires i < |phases|
    ensures Work(phases[i := p]) == Work(phases) - Weight(phases[i]) + Weight(p)
  {
    hide Weight;
    var n := |phases| - 1;
    if i == n {
      assert phases[i := p][..n] == phases[..n];
    } else {
      assert phases[i := p][..n] == phases[..n][i := p];
      WorkUpdate(phases[..n], i, p);
    }
  }

  /** Every step leaves less work. */
  lemma StepsCost(st: Stage, s: Sys, step: Step)
    requires Inv(st, s) && Enabled(st, s, step)
    ensures Work(Next(st, s, step).phases) < Work(s.phases)
  {
    hide LocksOk, PermitsOk, ResultsOk, Unique, Backed, Key, Matches;
    var i := step.i;
    WorkUpdate(s.phases, i, Next(st, s, step).phases[i]);
  }

  lemma {:induction false} RunLength(st: Stage, s: Sys, steps: seq<Step>)
    requires Inv(st, s) && Possible(st, s, steps)
    ensures |steps| + Work(After(st, s, steps).phases) <= Work(s.phases)
    decreases |steps|
  {
    hide Inv, Next, Enabled, Work;
    if steps != [] {
      KeepsInv(st, s, steps[0]);
      StepsCost(st, s, steps[0]);
      RunLength(st, Next(st, s, steps[0]), steps[1..]);
    }
  }

  lemma {:induction false} WorkOfWaiting(phases: seq<Phase>)
    requires forall i :: 0 <= i < |phases| ==> phases[i] == Waiting
    ensures Work(phases) == 7 * |phases|
  {
    if phases != [] {
      WorkOfWaiting(phases[..|phases| - 1]);
    }
  }

  /** A stage takes at most seven steps per item; when no step is left, every task is
      finished and the results name each item exactly once. */
  lemma StageEnds(st: Stage, rows: Rows, steps: seq<Step>)
    requires Unique(st, rows) && Possible(st, Begin(st, rows), steps) && st.concurrency > 0
    ensures |steps| <= 7 * |st.items|
    ensures var s := After(st, Begin(st, rows), steps);
            && |s.phases| == |st.items|
            && ((forall step :: !Enabled(st, s, step)) ==>
              && (forall i :: 0 <= i < |st.items| ==> s.phases[i].Finished? && i in s.results)
              && (forall i :: i in s.results ==> i < |st.items|)
              && (forall i, j :: 0 <= i < j < |s.results| ==> s.results[i] != s.results[j])
              && s.free == st.concurrency && s.locks == map[])
  {
    hide After, Possible, Key, RowsOk, Enabled, Work;
    var b := Begin(st, rows);
    BeginOk(st, rows);
    Reachable(st, b, steps);
    RunLength(st, b, steps);
    WorkOfWaiting(b.phases);
    var s := After(st, b, steps);
    if forall step :: !Enabled(st, s, step) {
      if exists i :: 0 <= i < |st.items| && !s.phases[i].Finished? {
        Progress(st, s);
      }
      assert RunningTasks(s) == {};
    }
  }

  // ---------- the rows ----------

  /** At most one artist per normalized name, after any interleaving, lost answers,
      refusals and failures included. */
  lemma NamesStayUnique(st: Stage, rows: Rows, steps: seq<Step>)
    requires Unique(st, rows) && Possible(st, Begin(st, rows), steps)
    ensures Unique(st, After(st, Begin(st, rows), steps).rows)
  {
    hide After, Possible;
    BeginOk(st, rows);
    Reachable(st, Begin(st, rows), steps);
  }

  /** All finished, not failed tasks of one name carry the same id. */
  lemma OneIdPerName(st: Stage, rows: Rows, steps: seq<Step>, i: nat, j: nat)
    requires Unique(st, rows) && Possible(st, Begin(st, rows), steps)
    requires i < |st.items| && j < |st.items| && Key(st, i) == Key(st, j)
    requires var s := After(st, Begin(st, rows), steps);
             && |s.phases| == |st.items|
             && s.phases[i].Finished? && !s.phases[i].outcome.Failed?
             && s.phases[j].Finished? && !s.phases[j].outcome.Failed?
    ensures var s := After(st, Begin(st, rows), steps);
            s.phases[i].outcome.id == s.phases[j].outcome.id
  {
    hide After, Possible, Key;
    BeginOk(st, rows);
    Reachable(st, Begin(st, rows), steps);
  }

  // ---------- running again ----------

  /** What a run adds to the rows `start` it began with: rows named like items, and a task
      that created something created a new row. */
  ghost predicate Grown(st: Stage, start: Rows, s: Sys) {
    && |s.phases| == |st.items|
    && (forall id :: id in start ==> id in s.rows && s.rows[id] == start[id])
    && (forall id :: id in s.rows && id !in start ==> NamedLikeAnItem(st, s.rows[id]))
    && (forall i :: 0 <= i < |s.phases| && s.phases[i].Finished? && s.phases[i].outcome.Created? ==>
          s.phases[i].outcome.id !in start)
  }

  ghost predicate NamedLikeAnItem(st: Stage, name: string) {
    exists i: nat :: i < |st.items| && Key(st, i) == Normalize(st.fold, name)
  }

  lemma GrownStep(st: Stage, start: Rows, s: Sys, step: Step)
    requires Grown(st, start, s) && Enabled(st, s, step)
    ensures Grown(st, start, Next(st, s, step))
  {
    hide Normalize, Strip, Matches, NamedLikeAnItem;
    OwnName(st, step.i);
  }

  lemma OwnName(st: Stage, i: nat)
    requires i < |st.items|
    ensures NamedLikeAnItem(st, Strip(st.items[i]))
  {
    NormalizeStrip(st.fold, st.items[i]);
    assert Key(st, i) == Normalize(st.fold, Strip(st.items[i]));
  }

  lemma {:induction false} StaysGrown(st: Stage, start: Rows, s: Sys, steps: seq<Step>)
    requires Grown(st, start, s) && Possible(st, s, steps)
    ensures Grown(st, start, After(st, s, steps))
    decreases |steps|
  {
    hide Grown, Next, Enabled;
    if steps != [] {
      GrownStep(st, start, s, steps[0]);
      StaysGrown(st, start, Next(st, s, steps[0]), steps[1..]);
    }
  }

  /** Task `i` has finished without failing. */
  predicate Succeeded(s: Sys, i: nat) {
    i < |s.phases| && s.phases[i].Finished? && !s.phases[i].outcome.Failed?
  }

  /** The state after a first run, and after a second one on the rows it left, with
      other permits, items and interleaving; either may have stopped anywhere. */
  ghost predicate RanTwice(
    st: Stage, rows: Rows, first: seq<Step>, s: Sys, again: Stage, second: seq<Step>, s': Sys)
  {
    && Unique(st, rows) && again.fold == st.fold
    && Possible(st, Begin(st, rows), first) && s == After(st, Begin(st, rows), first)
    && Possible(again, Begin(again, s.rows), second) && s' == After(again, Begin(again, s.rows), second)
  }

  lemma BothRuns(st: Stage, rows: Rows, first: seq<Step>, s: Sys, again: Stage, second: seq<Step>, s': Sys)
    requires RanTwice(st, rows, first, s, again, second, s')
    ensures again.fold == st.fold && Inv(st, s) && Inv(again, s') && Grown(again, s.rows, s')
  {
    hide After, Possible, Normalize;
    BeginOk(st, rows);
    Reachable(st, Begin(st, rows), first);
    BeginOk(again, s.rows);
    Reachable(again, Begin(again, s.rows), second);
    StaysGrown(again, s.rows, Begin(again, s.rows), second);
  }

  /** Whatever failed besides: an item that did not fail in the first run is never created
      again. An item `j` of that name in the second run fails or is skipped, with the id
      the first run reported. */
  lemma SecondRunSameId(
    st: Stage, rows: Rows, first: seq<Step>, s: Sys, again: Stage, second: seq<Step>, s': Sys, i: nat, j: nat)
    requires RanTwice(st, rows, first, s, again, second, s')
    requires i < |st.items| && j < |again.items| && Key(st, i) == Key(again, j)
    requires Succeeded(s, i)
    ensures Succeeded(s', j) ==> s'.phases[j].outcome == Skipped(s.phases[i].outcome.id)
  {
    hide Normalize, RanTwice;
    BothRuns(st, rows, first, s, again, second, s');
    assert Backed(st, s.rows, Key(st, i), s.phases[i].outcome);
    if Succeeded(s', j) {
      assert Backed(again, s'.rows, Key(again, j), s'.phases[j].outcome);
      assert s'.phases[j].outcome.id == s.phases[i].outcome.id;
    }
  }

  /** What the second run adds to the rows is named like one of its items, and like no
      item that did not fail in the first run. */
  lemma SecondRunAddsOnlyFailed(
    st: Stage, rows: Rows, first: seq<Step>, s: Sys, again: Stage, second: seq<Step>, s': Sys, id: int)
    requires RanTwice(st, rows, first, s, again, second, s')
    requires id in s'.rows && id !in s.rows
    ensures NamedLikeAnItem(again, s'.rows[id])
    ensures forall i: nat :: i < |st.items| && Succeeded(s, i) ==> Key(st, i) != Normalize(st.fold, s'.rows[id])
  {
    hide Normalize, RanTwice, NamedLikeAnItem;
    BothRuns(st, rows, first, s, again, second, s');
    forall i: nat | i < |st.items| && Succeeded(s, i) ensures Key(st, i) != Normalize(st.fold, s'.rows[id]) {
      assert Backed(st, s.rows, Key(st, i), s.phases[i].outcome);
    }
  }

  /** In particular, if no item failed, running the same items again changes nothing. */
  lemma SecondRunCreatesNothing(
    st: Stage, rows: Rows, first: seq<Step>, s: Sys, again: Stage, second: seq<Step>, s': Sys)
    requires RanTwice(st, rows, first, s, again, second, s') && again.items == st.items
    requires forall i: nat :: i < |st.items| ==> Succeeded(s, i)
    ensures s'.rows == s.rows
    ensures forall j: nat :: j < |again.items| && Succeeded(s', j) ==> s'.phases[j].outcome.Skipped?
  {
    hide Normalize, RanTwice, NamedLikeAnItem;
    BothRuns(st, rows, first, s, again, second, s');
    forall id | id in s'.rows ensures id in s.rows {
      if id !in s.rows {
        SecondRunAddsOnlyFailed(st, rows, first, s, again, second, s', id);
        NotLikeAny(st, again, s'.rows[id]);
      }
    }
    assert forall id :: id in s.rows ==> id in s'.rows && s'.rows[id] == s.rows[id];
    assert s'.rows == s.rows;
    forall j: nat | j < |again.items| && Succeeded(s', j) ensures s'.phases[j].outcome.Skipped? {
      assert Key(st, j) == Key(again, j);
      SecondRunSameId(st, rows, first, s, again, second, s', j, j);
    }
  }

  lemma NotLikeAny(st: Stage, again: Stage, name: string)
    requires again.fold == st.fold && again.items == st.items
    requires forall i: nat :: i < |st.items| ==> Key(st, i) != Normalize(st.fold, name)
    ensures !NamedLikeAnItem(again, name)
  {
    hide Normalize;
    assert forall i: nat :: i < |st.items| ==> Key(again, i) == Key(st, i);
  }
}
