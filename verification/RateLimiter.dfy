/** The importers' client-side rate limiter. Its lock makes calls take effect one
    after the other; the clock only moves forward and a sleep lasts at least as
    long as asked. Times and delays are reals. */
module RateLimiter {
  function Max(a: real, b: real): real { if a < b then b else a }

  /** The two deadlines the limiter keeps. */
  datatype Deadlines = Deadlines(nextReady: real, cooldownUntil: real)

  function ReadyAt(d: Deadlines): real { Max(d.nextReady, d.cooldownUntil) }

  function Granted(interval: real, d: Deadlines, now: real): Deadlines {
    d.(nextReady := Max(now, ReadyAt(d)) + interval)
  }

  function BackedOff(d: Deadlines, now: real, delay: real): Deadlines {
    if delay <= 0.0 then d
    else
      var until := Max(now, ReadyAt(d)) + delay;
      Deadlines(Max(d.nextReady, until), until)
  }

  class AsyncRateLimiter {
    const interval: real
    var nextReady: real
    var cooldownUntil: real

    function State(): Deadlines
      reads this
    {
      Deadlines(nextReady, cooldownUntil)
    }

    constructor (reqPerSec: real)
      requires reqPerSec > 0.0
      ensures interval == 1.0 / reqPerSec && State() == Deadlines(0.0, 0.0)
    {
      interval := 1.0 / reqPerSec;
      nextReady, cooldownUntil := 0.0, 0.0;
    }

    /** Called at `called`; `woken` is the clock after the sleep, if there is one.
        The grant falls when the call returns. */
    method Acquire(called: real, woken: real) returns (granted: real)
      requires called < ReadyAt(State()) ==> woken >= called + (ReadyAt(State()) - called)
      modifies this`nextReady
      ensures State() == Granted(interval, old(State()), granted)
      ensures granted == if called < ReadyAt(old(State())) then woken else called
      ensures granted >= ReadyAt(old(State()))
    {
      var now := called;
      var readyAt := Max(nextReady, cooldownUntil);
      if now < readyAt {
        now := woken;
      }
      nextReady := Max(now, readyAt) + interval;
      return now;
    }

    method Backoff(now: real, delay: real)
      modifies this`nextReady, this`cooldownUntil
      ensures State() == BackedOff(old(State()), now, delay)
    {
      if delay <= 0.0 {
        return;
      }
      var cooldownStart := Max(Max(now, nextReady), cooldownUntil);
      cooldownUntil := cooldownStart + delay;
      nextReady := Max(nextReady, cooldownUntil);
    }
  }

  // ---------- whole runs ----------

  /** A grant at a time, or a backoff of some delay ordered at a time. */
  datatype Event = Grant(at: real) | Backoff(at: real, delay: real)

  function Apply(interval: real, d: Deadlines, e: Event): Deadlines {
    match e
    case Grant(at) => Granted(interval, d, at)
    case Backoff(at, delay) => BackedOff(d, at, delay)
  }

  /** The events of a run from `d`, no earlier than `clock`: grants wait for the deadlines. */
  predicate Run(interval: real, d: Deadlines, clock: real, events: seq<Event>)
    decreases |events|
  {
    events != [] ==>
      && events[0].at >= clock
      && (events[0].Grant? ==> events[0].at >= ReadyAt(d))
      && Run(interval, Apply(interval, d, events[0]), events[0].at, events[1..])
  }

  /** The time the events have bought: one interval a grant, its delay a backoff. */
  function Bought(interval: real, events: seq<Event>): real {
    if events == [] then 0.0
    else
      (match events[0] case Grant(_) => interval case Backoff(_, delay) => Max(delay, 0.0))
      + Bought(interval, events[1..])
  }

  lemma {:induction false} WaitFor(interval: real, d: Deadlines, clock: real, events: seq<Event>, k: nat)
    requires interval > 0.0 && Run(interval, d, clock, events)
    requires k < |events| && events[k].Grant?
    ensures events[k].at >= ReadyAt(d) + Bought(interval, events[..k])
    decreases |events|
  {
    if k > 0 {
      WaitFor(interval, Apply(interval, d, events[0]), events[0].at, events[1..], k - 1);
      assert events[..k][1..] == events[1..][..k - 1];
    }
  }

  lemma {:induction false} RunFrom(interval: real, d: Deadlines, clock: real, events: seq<Event>, j: nat)
    returns (d': Deadlines, clock': real)
    requires Run(interval, d, clock, events) && j <= |events|
    ensures Run(interval, d', clock', events[j..])
    decreases |events|
  {
    if j == 0 {
      assert events[0..] == events;
      return d, clock;
    }
    d', clock' := RunFrom(interval, Apply(interval, d, events[0]), events[0].at, events[1..], j - 1);
    assert events[1..][j - 1..] == events[j..];
  }

  /** Two grants are at least as far apart as the intervals and backoff delays
      between them add up to: the main law of the limiter. */
  lemma Spacing(interval: real, d: Deadlines, clock: real, events: seq<Event>, j: nat, k: nat)
    requires interval > 0.0 && Run(interval, d, clock, events)
    requires j < k < |events| && events[j].Grant? && events[k].Grant?
    ensures events[k].at - events[j].at >= Bought(interval, events[j..k])
  {
    var d', clock' := RunFrom(interval, d, clock, events, j);
    var tail := events[j..];
    WaitFor(interval, Apply(interval, d', tail[0]), tail[0].at, tail[1..], k - j - 1);
    assert tail[1..][..k - j - 1] == events[j..k][1..];
    assert tail[0] == events[j] && tail[1..][k - j - 1] == events[k];
  }

  function Grants(events: seq<Event>): nat {
    if events == [] then 0 else (if events[0].Grant? then 1 else 0) + Grants(events[1..])
  }

  lemma {:induction false} BoughtByGrants(interval: real, events: seq<Event>)
    requires interval > 0.0
    ensures Bought(interval, events) >= (Grants(events) as real) * interval
    decreases |events|
  {
    if events != [] {
      BoughtByGrants(interval, events[1..]);
    }
  }

  /** `n + 1` grants span at least `n` intervals. */
  lemma Throughput(interval: real, d: Deadlines, clock: real, events: seq<Event>, j: nat, k: nat)
    requires interval > 0.0 && Run(interval, d, clock, events)
    requires j < k < |events| && events[j].Grant? && events[k].Grant?
    ensures events[k].at - events[j].at >= (Grants(events[j..k]) as real) * interval
  {
    hide Run, Bought, Grants;
    Spacing(interval, d, clock, events, j, k);
    BoughtByGrants(interval, events[j..k]);
  }

  /** No grant falls before the end of a backoff ordered before it, nor before the
      ends of all the backoffs and grants in between put end to end. */
  lemma BackoffHolds(interval: real, d: Deadlines, clock: real, events: seq<Event>, j: nat, k: nat)
    requires interval > 0.0 && Run(interval, d, clock, events)
    requires j < k < |events| && events[j].Backoff? && events[j].delay > 0.0 && events[k].Grant?
    ensures events[k].at >= events[j].at + Bought(interval, events[j..k])
  {
    var d', clock' := RunFrom(interval, d, clock, events, j);
    var tail := events[j..];
    WaitFor(interval, Apply(interval, d', tail[0]), tail[0].at, tail[1..], k - j - 1);
    assert tail[1..][..k - j - 1] == events[j..k][1..];
    assert tail[0] == events[j] && tail[1..][k - j - 1] == events[k];
  }

  // ---------- one variable is enough ----------

  /** The limiter with a single deadline. */
  function SimpleApply(interval: real, ready: real, e: Event): real {
    match e
    case Grant(at) => Max(at, ready) + interval
    case Backoff(at, delay) => if delay <= 0.0 then ready else Max(at, ready) + delay
  }

  predicate SimpleRun(interval: real, ready: real, clock: real, events: seq<Event>)
    decreases |events|
  {
    events != [] ==>
      && events[0].at >= clock
      && (events[0].Grant? ==> events[0].at >= ready)
      && SimpleRun(interval, SimpleApply(interval, ready, events[0]), events[0].at, events[1..])
  }

  function After(interval: real, d: Deadlines, events: seq<Event>): Deadlines
    decreases |events|
  {
    if events == [] then d else After(interval, Apply(interval, d, events[0]), events[1..])
  }

  /** The next slot is never before the end of the cooldown. */
  lemma {:induction false} SlotAfterCooldown(interval: real, d: Deadlines, events: seq<Event>)
    requires interval > 0.0 && d.nextReady >= d.cooldownUntil
    ensures var d' := After(interval, d, events);
            d'.nextReady >= d'.cooldownUntil && ReadyAt(d') == d'.nextReady
    decreases |events|
  {
    if events != [] {
      SlotAfterCooldown(interval, Apply(interval, d, events[0]), events[1..]);
    }
  }

  /** The limiter allows exactly the runs of the limiter with one deadline. */
  lemma {:induction false} RefinesSimple(interval: real, d: Deadlines, clock: real, events: seq<Event>)
    requires interval > 0.0 && d.nextReady >= d.cooldownUntil
    ensures Run(interval, d, clock, events) <==> SimpleRun(interval, d.nextReady, clock, events)
    decreases |events|
  {
    if events != [] {
      var e := events[0];
      var d' := Apply(interval, d, e);
      assert d'.nextReady == SimpleApply(interval, d.nextReady, e);
      RefinesSimple(interval, d', e.at, events[1..]);
    }
  }
}
