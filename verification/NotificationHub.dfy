/** The notification hub: one broadcast channel per user with a subscriber count, and
    a clean-up that removes channels that have been empty long enough. */
module NotificationHub {
  import opened Options

  /** A channel; `sender` identifies the broadcast sender, times are clock readings. */
  datatype ChannelEntry = ChannelEntry(sender: nat, subscriberCount: nat, lastEmptyAt: Option<nat>)

  type Channels = map<int, ChannelEntry>

  /** One hour, in seconds. */
  const CHANNEL_TTL: nat := 3600

  /** Time between two clock readings, 0 if they are out of order. */
  function DurationSince(now: nat, earlier: nat): nat { if now >= earlier then now - earlier else 0 }

  predicate Expired(entry: ChannelEntry, now: nat) {
    && entry.subscriberCount == 0
    && entry.lastEmptyAt.Some?
    && DurationSince(now, entry.lastEmptyAt.value) >= CHANNEL_TTL
  }

  function Subscribed(channels: Channels, user: int, newSender: nat): Channels {
    if user in channels then
      channels[user := channels[user].(subscriberCount := channels[user].subscriberCount + 1, lastEmptyAt := None)]
    else
      channels[user := ChannelEntry(newSender, 1, None)]
  }

  function Unsubscribed(channels: Channels, user: int, now: nat): Channels {
    if user !in channels then channels
    else
      var n := channels[user].subscriberCount;
      var left := if n == 0 then 0 else n - 1;
      var entry := channels[user].(subscriberCount := left);
      channels[user := if left == 0 then entry.(lastEmptyAt := Some(now)) else entry]
  }

  function RemovedIfExpired(channels: Channels, user: int, now: nat): Channels {
    if user in channels && Expired(channels[user], now) then channels - {user} else channels
  }

  class Hub {
    var channels: Channels

    constructor ()
      ensures channels == map[]
    {
      channels := map[];
    }

    /** The sender to attach the new receiver to. */
    method Subscribe(user: int, newSender: nat) returns (sender: nat)
      modifies this
      ensures channels == Subscribed(old(channels), user, newSender)
      ensures user in channels && sender == channels[user].sender
    {
      if user in channels {
        var entry := channels[user];
        entry := entry.(subscriberCount := entry.subscriberCount + 1);
        entry := entry.(lastEmptyAt := None);
        channels := channels[user := entry];
        sender := entry.sender;
      } else {
        var entry := ChannelEntry(newSender, 0, None);
        entry := entry.(subscriberCount := 1, lastEmptyAt := None);
        channels := channels[user := entry];
        sender := entry.sender;
      }
    }

    /** The sender a message goes to, if the user has a channel. */
    method Publish(user: int) returns (sender: Option<nat>)
      ensures sender == if user in channels then Some(channels[user].sender) else None
    {
      if user in channels {
        return Some(channels[user].sender);
      }
      return None;
    }

    method Unsubscribe(user: int, now: nat)
      modifies this
      ensures channels == Unsubscribed(old(channels), user, now)
    {
      if user !in channels {
        return;
      }
      var entry := channels[user];
      entry := entry.(subscriberCount := if entry.subscriberCount == 0 then 0 else entry.subscriberCount - 1);
      if entry.subscriberCount == 0 {
        entry := entry.(lastEmptyAt := Some(now));
      }
      channels := channels[user := entry];
    }

    /** The removal half of the clean-up: each candidate is checked again. */
    method RemoveExpired(candidates: seq<int>, now: nat)
      modifies this
      ensures forall u :: u in channels <==> u in old(channels) && !(u in candidates && Expired(old(channels)[u], now))
      ensures forall u :: u in channels ==> channels[u] == old(channels)[u]
    {
      for i := 0 to |candidates|
        invariant forall u :: u in channels ==> u in old(channels) && channels[u] == old(channels)[u]
        invariant forall u :: u in old(channels) ==>
          (u in channels <==> u !in candidates[..i] || !Expired(old(channels)[u], now))
      {
        channels := RemovedIfExpired(channels, candidates[i], now);
      }
      assert candidates[..|candidates|] == candidates;
    }
  }

  // ---------- all interleavings ----------

  /** A subscription: its receiver is attached a moment after the entry was counted up. */
  datatype Guard = Guard(user: int, sender: nat, attached: bool)

  /** The clean-up pass under way: its clock reading and the users it has picked. */
  datatype Pass = Pass(now: nat, picked: set<int>)

  datatype State = State(
    channels: Channels, guards: map<nat, Guard>, nextSender: nat, clock: nat, pass: Option<Pass>)

  datatype Step =
    | Tick(seconds: nat)
    | Subscribe(guard: nat, user: int)
    | Attach(guard: nat)
    | DropGuard(guard: nat)
    | BeginPass
    | Pick(user: int)
    | Remove(user: int)
    | EndPass

  const EMPTY := State(map[], map[], 0, 0, None)

  predicate Enabled(s: State, step: Step) {
    match step
    case Tick(_) => true
    case Subscribe(g, _) => g !in s.guards
    case Attach(g) => g in s.guards && !s.guards[g].attached
    case DropGuard(g) => g in s.guards && s.guards[g].attached
    case BeginPass => s.pass.None?
    case Pick(u) => s.pass.Some? && u in s.channels && Expired(s.channels[u], s.pass.value.now)
    case Remove(u) => s.pass.Some? && u in s.pass.value.picked
    case EndPass => s.pass.Some?
  }

  function Next(s: State, step: Step): State
    requires Enabled(s, step)
  {
    match step
    case Tick(seconds) => s.(clock := s.clock + seconds)
    case Subscribe(g, u) =>
      var channels := Subscribed(s.channels, u, s.nextSender);
      var guard := Guard(u, channels[u].sender, false);
      s.(channels := channels, guards := s.guards[g := guard], nextSender := s.nextSender + 1)
    case Attach(g) => s.(guards := s.guards[g := s.guards[g].(attached := true)])
    case DropGuard(g) =>
      s.(channels := Unsubscribed(s.channels, s.guards[g].user, s.clock), guards := s.guards - {g})
    case BeginPass => s.(pass := Some(Pass(s.clock, {})))
    case Pick(u) => s.(pass := Some(s.pass.value.(picked := s.pass.value.picked + {u})))
    case Remove(u) => s.(channels := RemovedIfExpired(s.channels, u, s.pass.value.now))
    case EndPass => s.(pass := None)
  }

  /** A run: `states[k]` becomes `states[k + 1]` by `steps[k]`. */
  ghost predicate Run(states: seq<State>, steps: seq<Step>) {
    && |states| == |steps| + 1
    && states[0] == EMPTY
    && forall k :: 0 <= k < |steps| ==> Enabled(states[k], steps[k]) && states[k + 1] == Next(states[k], steps[k])
  }

  function LiveGuards(s: State, user: int): set<nat> {
    set g | g in s.guards && s.guards[g].user == user
  }

  /** The count is that of the guards, and the entry is marked empty iff there are none. */
  ghost predicate CountedEntry(s: State, u: int)
    requires u in s.channels
  {
    var entry := s.channels[u];
    && entry.subscriberCount == |LiveGuards(s, u)|
    && (entry.lastEmptyAt.Some? <==> entry.subscriberCount == 0)
    && (entry.lastEmptyAt.Some? ==> entry.lastEmptyAt.value <= s.clock)
  }

  ghost predicate Counted(s: State) {
    && (forall u :: u in s.channels ==> CountedEntry(s, u))
    && (s.pass.Some? ==> s.pass.value.now <= s.clock)
  }

  ghost predicate Attached(s: State) {
    && (forall g :: g in s.guards ==>
          s.guards[g].user in s.channels && s.channels[s.guards[g].user].sender == s.guards[g].sender)
    && (forall u :: u in s.channels ==> s.channels[u].sender < s.nextSender)
    && (forall u, v :: u in s.channels && v in s.channels && s.channels[u].sender == s.channels[v].sender ==> u == v)
  }

  ghost predicate Inv(s: State) { Counted(s) && Attached(s) }

  lemma LiveGuardsStep(s: State, step: Step, user: int)
    requires Enabled(s, step)
    ensures LiveGuards(Next(s, step), user)
         == if step.Subscribe? && step.user == user then LiveGuards(s, user) + {step.guard}
            else if step.DropGuard? && s.guards[step.guard].user == user then LiveGuards(s, user) - {step.guard}
            else LiveGuards(s, user)
  {}

  lemma KeepsCounted(s: State, step: Step)
    requires Inv(s) && Enabled(s, step)
    ensures Counted(Next(s, step))
  {
    hide LiveGuards, Attached;
    var s' := Next(s, step);
    forall u | u in s'.channels ensures CountedEntry(s', u) {
      if u !in s.channels {
        NoChannelNoGuards(s, u);
      }
      KeepsEntry(s, step, u);
    }
  }

  lemma KeepsEntry(s: State, step: Step, u: int)
    requires Enabled(s, step) && u in Next(s, step).channels
    requires if u in s.channels then CountedEntry(s, u) else LiveGuards(s, u) == {}
    ensures CountedEntry(Next(s, step), u)
  {
    hide LiveGuards;
    CountStep(s, step, u);
    match step {
      case Subscribe(g, v) =>
        assert v != u ==> Next(s, step).channels[u] == s.channels[u];
      case DropGuard(g) =>
        assert s.guards[g].user != u ==> Next(s, step).channels[u] == s.channels[u];
      case _ =>
        assert Next(s, step).channels[u] == s.channels[u];
    }
  }

  lemma CountStep(s: State, step: Step, u: int)
    requires Enabled(s, step)
    ensures |LiveGuards(Next(s, step), u)|
         == if step.Subscribe? && step.user == u then |LiveGuards(s, u)| + 1
            else if step.DropGuard? && s.guards[step.guard].user == u then |LiveGuards(s, u)| - 1
            else |LiveGuards(s, u)|
  {
    hide LiveGuards, Next;
    LiveGuardsStep(s, step, u);
    GuardOf(s, step, u);
  }

  /** The guard a step adds or drops, among those of user `u`. */
  lemma GuardOf(s: State, step: Step, u: int)
    requires Enabled(s, step)
    ensures step.Subscribe? ==> step.guard !in LiveGuards(s, u)
    ensures step.DropGuard? && s.guards[step.guard].user == u ==> step.guard in LiveGuards(s, u)
  {}

  lemma NoChannelNoGuards(s: State, u: int)
    requires Attached(s) && u !in s.channels
    ensures LiveGuards(s, u) == {}
  {}

  lemma KeepsAttached(s: State, step: Step)
    requires Inv(s) && Enabled(s, step)
    ensures Attached(Next(s, step))
  {
    if step.Remove? && step.user in s.channels && Expired(s.channels[step.user], s.pass.value.now) {
      assert LiveGuards(s, step.user) == {};
      forall g | g in s.guards ensures s.guards[g].user != step.user {
        assert g !in LiveGuards(s, step.user);
      }
    }
  }

  lemma KeepsInv(s: State, step: Step)
    requires Inv(s) && Enabled(s, step)
    ensures Inv(Next(s, step))
  {
    hide Counted, Attached, Next, Enabled;
    KeepsCounted(s, step);
    KeepsAttached(s, step);
  }

  lemma {:induction false} InvAlways(states: seq<State>, steps: seq<Step>, k: nat)
    requires Run(states, steps) && k < |states|
    ensures Inv(states[k])
  {
    hide Inv, Next, Enabled;
    if k == 0 {
      EmptyOk();
    } else {
      InvAlways(states, steps, k - 1);
      KeepsInv(states[k - 1], steps[k - 1]);
    }
  }

  lemma EmptyOk()
    ensures Inv(EMPTY)
  {}

  /** In every reachable state a channel counts its live subscriptions, has an empty-since
      time exactly when there are none, and is the one every live subscription of its
      user listens to. */
  lemma HubInvariant(states: seq<State>, steps: seq<Step>, k: nat, user: int)
    requires Run(states, steps) && k < |states|
    ensures var s := states[k];
            if user in s.channels then
              && s.channels[user].subscriberCount == |LiveGuards(s, user)|
              && (s.channels[user].lastEmptyAt.Some? <==> LiveGuards(s, user) == {})
              && (forall g :: g in s.guards ==>
                    (s.guards[g].sender == s.channels[user].sender <==> s.guards[g].user == user))
            else
              LiveGuards(s, user) == {}
  {
    InvAlways(states, steps, k);
  }

  // ---------- whom a message reaches ----------

  /** Nobody but `user` has to do with `sender`, now or later. */
  ghost predicate Only(s: State, sender: nat, user: int) {
    && sender < s.nextSender
    && (forall g :: g in s.guards && s.guards[g].sender == sender ==> s.guards[g].user == user)
    && (forall u :: u in s.channels && s.channels[u].sender == sender ==> u == user)
  }

  lemma OnlyStep(s: State, step: Step, sender: nat, user: int)
    requires Only(s, sender, user) && Enabled(s, step)
    ensures Only(Next(s, step), sender, user)
  {}

  /** Senders are never used again, for this user's later channels or anyone's. */
  lemma {:induction false} OnlyStays(
    states: seq<State>, steps: seq<Step>, j: nat, k: nat, sender: nat, user: int)
    requires Run(states, steps) && j <= k < |states|
    requires Only(states[j], sender, user)
    ensures Only(states[k], sender, user)
    decreases k - j
  {
    hide Only, Next, Enabled;
    if j < k {
      OnlyStays(states, steps, j, k - 1, sender, user);
      OnlyStep(states[k - 1], steps[k - 1], sender, user);
    }
  }

  /** The subscription is there, and the user's, from state `j` to state `k`. */
  ghost predicate LiveThrough(states: seq<State>, g: nat, user: int, j: nat, k: nat) {
    && j <= k < |states|
    && forall m :: j <= m <= k ==> g in states[m].guards && states[m].guards[g].user == user
  }

  lemma {:induction false} SenderStays(states: seq<State>, steps: seq<Step>, j: nat, k: nat, g: nat, user: int)
    requires Run(states, steps) && LiveThrough(states, g, user, j, k)
    ensures states[k].guards[g].sender == states[j].guards[g].sender
    decreases k - j
  {
    hide Enabled;
    if j < k {
      SenderStays(states, steps, j, k - 1, g, user);
      var before := k - 1;
      assert states[before + 1] == Next(states[before], steps[before]) && g in states[before + 1].guards;
      GuardKept(states[before], steps[before], g);
    }
  }

  lemma GuardKept(s: State, step: Step, g: nat)
    requires Enabled(s, step) && g in s.guards && g in Next(s, step).guards
    ensures Next(s, step).guards[g].sender == s.guards[g].sender
    ensures Next(s, step).guards[g].attached <==> s.guards[g].attached || step == Attach(g)
  {}

  /** Publishing takes the sender in state `j` and sends in some later state `k`. The
      message reaches nobody but subscriptions of `user`, whatever happens in between. */
  lemma ReachesOnlyUser(states: seq<State>, steps: seq<Step>, j: nat, k: nat, user: int, g: nat)
    requires Run(states, steps) && j <= k < |states|
    requires user in states[j].channels && g in states[k].guards
    requires states[k].guards[g].sender == states[j].channels[user].sender
    ensures states[k].guards[g].user == user
  {
    hide Next, Enabled;
    InvAlways(states, steps, j);
    OnlyStays(states, steps, j, k, states[j].channels[user].sender, user);
  }

  /** And it reaches every subscription of `user` that is live all that time: while there
      is one, there is a channel to take the sender from, and it is that subscription's. */
  lemma ReachesLive(states: seq<State>, steps: seq<Step>, j: nat, k: nat, user: int, g: nat)
    requires Run(states, steps) && LiveThrough(states, g, user, j, k)
    ensures user in states[j].channels
    ensures states[k].guards[g].sender == states[j].channels[user].sender
  {
    hide Next, Enabled;
    InvAlways(states, steps, j);
    SenderStays(states, steps, j, k, g, user);
  }

  /** A subscription can be made, attached and dropped at any time, and when it is gone the
      user's subscribers are counted as before. */
  lemma Session(s: State, g: nat, user: int)
    requires Inv(s) && g !in s.guards
    ensures Enabled(s, Subscribe(g, user))
    ensures var s1 := Next(s, Subscribe(g, user));
            && g in s1.guards && s1.guards[g].user == user && !s1.guards[g].attached
            && Enabled(s1, Attach(g))
            && var s2 := Next(s1, Attach(g));
            && s2.guards[g].attached && Enabled(s2, DropGuard(g))
            && var s3 := Next(s2, DropGuard(g));
            && s3.guards == s.guards && user in s3.channels
            && s3.channels[user].subscriberCount
               == (if user in s.channels then s.channels[user].subscriberCount else 0)
  {
    assert s.guards[g := Guard(user, 0, true)] - {g} == s.guards;
  }

  // ---------- why a channel goes ----------

  /** From state `j` to state `k` the channel of `user` is there, unused. */
  ghost predicate EmptyThrough(states: seq<State>, user: int, j: nat, k: nat) {
    && j <= k < |states|
    && user in states[k].channels
    && forall m :: j <= m <= k ==>
      && user in states[m].channels && states[m].channels[user].subscriberCount == 0
      && states[m].channels[user].sender == states[k].channels[user].sender
  }

  /** How a recorded empty-since time comes to be in a state. */
  lemma EmptyStep(s: State, step: Step, user: int)
    requires Inv(s) && Enabled(s, step)
    requires var s' := Next(s, step); user in s'.channels && s'.channels[user].lastEmptyAt.Some?
    ensures var s' := Next(s, step);
            || s'.channels[user].lastEmptyAt == Some(s'.clock)
            || (user in s.channels && s.channels[user] == s'.channels[user])
  {}

  /** The recorded time is the time at which the channel became empty for good. */
  lemma {:induction false} EmptySince(states: seq<State>, steps: seq<Step>, k: nat, user: int) returns (j: nat)
    requires Run(states, steps) && k < |states|
    requires user in states[k].channels && states[k].channels[user].lastEmptyAt.Some?
    ensures EmptyThrough(states, user, j, k)
    ensures states[j].clock == states[k].channels[user].lastEmptyAt.value
  {
    hide Next, Enabled, Attached;
    InvAlways(states, steps, k);
    assert k > 0;
    InvAlways(states, steps, k - 1);
    EmptyStep(states[k - 1], steps[k - 1], user);
    if states[k].channels[user].lastEmptyAt == Some(states[k].clock) {
      j := k;
    } else {
      j := EmptySince(states, steps, k - 1, user);
    }
  }

  /** A channel is removed only after it has been empty, without interruption, for at
      least the time to live. */
  lemma RemovedOnlyAfterTtl(states: seq<State>, steps: seq<Step>, k: nat, user: int) returns (j: nat)
    requires Run(states, steps) && k < |steps|
    requires user in states[k].channels && user !in states[k + 1].channels
    ensures EmptyThrough(states, user, j, k)
    ensures states[k].clock - states[j].clock >= 3600
  {
    InvAlways(states, steps, k);
    j := EmptySince(states, steps, k, user);
  }

  /** While nobody comes or goes, the empty-since time stays as it is. */
  lemma {:induction false} EmptyTimeStays(states: seq<State>, steps: seq<Step>, j: nat, k: nat, user: int)
    requires Run(states, steps) && Unused(states, user, j, k)
    ensures states[k].channels[user].lastEmptyAt == states[j].channels[user].lastEmptyAt
    decreases k - j
  {
    hide Next, Enabled, Unused;
    if j < k {
      var m := k - 1;
      UnusedPart(states, user, j, k);
      EmptyTimeStays(states, steps, j, m, user);
      assert states[m + 1] == Next(states[m], steps[m]);
      UnusedStep(states[m], steps[m], user);
    }
  }

  lemma UnusedPart(states: seq<State>, user: int, j: nat, k: nat)
    requires Unused(states, user, j, k) && j < k
    ensures Unused(states, user, j, k - 1)
    ensures user in states[k - 1].channels && user in states[k].channels
    ensures LiveGuards(states[k - 1], user) == {} && LiveGuards(states[k], user) == {}
  {}

  /** From state `j` to state `k` the user has a channel and no live subscription. */
  ghost predicate Unused(states: seq<State>, user: int, j: nat, k: nat)
    ensures Unused(states, user, j, k) ==> j <= k < |states| && user in states[j].channels && user in states[k].channels
  {
    && j <= k < |states|
    && forall m :: j <= m <= k ==> user in states[m].channels && LiveGuards(states[m], user) == {}
  }

  lemma UnusedStep(s: State, step: Step, user: int)
    requires Enabled(s, step) && user in s.channels && user in Next(s, step).channels
    requires LiveGuards(s, user) == {} && LiveGuards(Next(s, step), user) == {}
    ensures Next(s, step).channels[user] == s.channels[user]
  {
    hide LiveGuards;
    GuardOf(s, step, user);
    LiveGuardsStep(s, step, user);
  }

  /** A channel nobody has used for an hour, by the clock of the clean-up pass, can be
      picked by it, and once picked is gone after its removal step. */
  lemma RemovedAfterTtl(states: seq<State>, steps: seq<Step>, j: nat, k: nat, user: int)
    requires Run(states, steps) && Unused(states, user, j, k)
    requires states[k].pass.Some? && states[k].pass.value.now >= states[j].clock + 3600
    ensures Enabled(states[k], Pick(user))
    ensures user in states[k].pass.value.picked ==>
              Enabled(states[k], Remove(user)) && user !in Next(states[k], Remove(user)).channels
  {
    hide Next, Unused, LiveGuards;
    InvAlways(states, steps, j);
    InvAlways(states, steps, k);
    EmptyTimeStays(states, steps, j, k, user);
    UnusedEnds(states, user, j, k);
    assert Expired(states[k].channels[user], states[k].pass.value.now);
    if user in states[k].pass.value.picked {
      RemoveGoes(states[k], user);
    }
  }

  lemma UnusedEnds(states: seq<State>, user: int, j: nat, k: nat)
    requires Unused(states, user, j, k)
    ensures LiveGuards(states[j], user) == {} && LiveGuards(states[k], user) == {}
  {}

  lemma RemoveGoes(s: State, user: int)
    requires Enabled(s, Remove(user)) && user in s.channels && Expired(s.channels[user], s.pass.value.now)
    ensures user !in Next(s, Remove(user)).channels
  {}
}
