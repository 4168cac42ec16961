// Countdown timers of a node (core/include/tcNode.h), whose callbacks may add
// and cancel timers of the same node while they are processed. Times are exact
// reals, in seconds.
module Timers {
  import opened Basics
  import Words

  datatype Timer = Timer(
    id: nat,
    remaining: real,
    interval: real,
    repeating: bool,
    catchUp: bool,
    maxCatchUp: int,
    createdUpdate: nat,
    pending: bool,
    stepCreated: bool,
    created: real)

  /** The clocks as one call sees them; `updateTime` is NO_TIME in a tree that is driven by hand. */
  datatype Moment = Moment(now: real, inUpdate: bool, updateTime: real, fixedStep: bool, updateCount: nat, dt: real)

  const NO_TIME: real := 0.0
  const DUE_EPSILON: real := 0.000000001
  const MANY_CALLS: real := 18000000000000000000.0
  const UINT64_MAX: nat := 0xFFFF_FFFF_FFFF_FFFF

  /** What a callback does to the timers of its node, one call at a time. */
  datatype Op =
    | CallAfter(delay: real, now: real)
    | CallEvery(interval: real, now: real)
    | CallEveryCatchUp(interval: real, maxCatchUp: int, now: real)
    | Cancel(id: nat)
    | CancelAll

  /** The history of a node's timers. */
  datatype Event =
    | Added(t: Timer)
    | Cancelled(id: nat)
    | Charged(id: nat, amount: real)
    | Due(id: nat, intervals: nat)
    | Fired(id: nat)

  datatype State = State(timers: seq<Timer>, next: nat, lastCharged: Option<nat>, calls: nat, events: seq<Event>)

  // ---- the timer list, read as a map from ids to timers ----

  function Find(ts: seq<Timer>, id: nat): (r: Option<Timer>)
    ensures r.Some? ==> r.value.id == id && r.value in ts
    ensures r.None? ==> forall i :: 0 <= i < |ts| ==> ts[i].id != id
  {
    if ts == [] then None
    else if ts[0].id == id then Some(ts[0])
    else Find(ts[1..], id)
  }

  function Without(ts: seq<Timer>, id: nat): seq<Timer> {
    if ts == [] then []
    else if ts[0].id == id then Without(ts[1..], id)
    else [ts[0]] + Without(ts[1..], id)
  }

  /** Every id stands for one timer, and was handed out before `next`. */
  ghost predicate Keyed(ts: seq<Timer>, next: nat) {
    ts != [] ==> ts[0].id < next && Find(ts[1..], ts[0].id) == None && Keyed(ts[1..], next)
  }

  lemma {:induction false} KeyedFind(ts: seq<Timer>, next: nat, id: nat)
    requires Keyed(ts, next) && id >= next
    ensures Find(ts, id) == None
  {
    if ts != [] {
      KeyedFind(ts[1..], next, id);
    }
  }

  lemma {:induction false} KeyedAppend(ts: seq<Timer>, next: nat, t: Timer, later: nat)
    requires Keyed(ts, next) && next <= t.id < later
    ensures Keyed(ts + [t], later)
  {
    if ts != [] {
      KeyedAppend(ts[1..], next, t, later);
      assert (ts + [t])[1..] == ts[1..] + [t];
      FindAppend(ts[1..], t, ts[0].id);
    } else {
      assert [t][1..] == [];
    }
  }

  lemma {:induction false} KeyedWithout(ts: seq<Timer>, next: nat, id: nat)
    requires Keyed(ts, next)
    ensures Keyed(Without(ts, id), next)
  {
    if ts != [] {
      KeyedWithout(ts[1..], next, id);
      FindWithout(ts[1..], id, ts[0].id);
    }
  }

  lemma {:induction false} FindWithout(ts: seq<Timer>, id: nat, x: nat)
    ensures Find(Without(ts, id), x) == if x == id then None else Find(ts, x)
  {
    if ts != [] {
      FindWithout(ts[1..], id, x);
    }
  }

  lemma {:induction false} FindAppend(ts: seq<Timer>, t: Timer, x: nat)
    ensures Find(ts + [t], x) == if Find(ts, x).Some? then Find(ts, x) else if t.id == x then Some(t) else None
  {
    if ts == [] {
    } else {
      assert (ts + [t])[1..] == ts[1..] + [t];
      FindAppend(ts[1..], t, x);
    }
  }

  /** In-place assignment to the timer with the id of `t`. */
  function Put(ts: seq<Timer>, t: Timer): seq<Timer> {
    if ts == [] then []
    else if ts[0].id == t.id then [t] + ts[1..]
    else [ts[0]] + Put(ts[1..], t)
  }

  lemma {:induction false} FindPut(ts: seq<Timer>, next: nat, t: Timer, x: nat)
    requires Keyed(ts, next)
    ensures Keyed(Put(ts, t), next)
    ensures Find(Put(ts, t), x) == if x == t.id && Find(ts, x).Some? then Some(t) else Find(ts, x)
  {
    if ts != [] {
      FindPut(ts[1..], next, t, x);
      if ts[0].id != t.id {
        FindPut(ts[1..], next, t, ts[0].id);
      }
    }
  }

  lemma {:induction false} PutAt(ts: seq<Timer>, k: nat, t: Timer)
    requires k < |ts| && ts[k].id == t.id && forall j :: 0 <= j < k ==> ts[j].id != t.id
    ensures ts[k := t] == Put(ts, t)
  {
    if k > 0 {
      PutAt(ts[1..], k - 1, t);
    }
  }

  lemma {:induction false} ChargeAllAt(ts: seq<Timer>, m: Moment, already: bool)
    ensures |ChargeAll(ts, m, already)| == |ts|
    ensures forall i :: 0 <= i < |ts| ==> ChargeAll(ts, m, already)[i] == Charged1(ts[i], m, already)
  {
    if ts != [] {
      ChargeAllAt(ts[1..], m, already);
    }
  }

  // ---- the history, read backwards ----

  function IdOf(e: Event): nat {
    match e
    case Added(t) => t.id
    case Cancelled(id) => id
    case Charged(id, _) => id
    case Due(id, _) => id
    case Fired(id) => id
  }

  /** What the history says about one id. */
  datatype Past = Past(
    fires: nat,        // calls made
    total: real,       // time charged
    dues: nat,         // intervals that came due
    cancelled: bool,
    flooded: bool,     // more intervals came due in one update than a 64-bit counter is trusted with
    oneShot: bool,     // added as a one-shot timer
    quiet: bool,       // nothing fired after it was cancelled
    unheard: bool)     // no event yet

  const NOTHING := Past(0, 0.0, 0, false, false, false, true, true)

  function Next(p: Past, e: Event, x: nat): Past {
    if IdOf(e) != x then p
    else
      var q := p.(unheard := false);
      match e
      case Added(t) => q.(oneShot := p.oneShot || !t.repeating)
      case Cancelled(_) => q.(cancelled := true)
      case Charged(_, c) => q.(total := p.total + c)
      case Due(_, n) => q.(dues := p.dues + n, flooded := p.flooded || n as real >= MANY_CALLS)
      case Fired(_) => q.(fires := p.fires + 1, quiet := p.quiet && !p.cancelled)
  }

  function History(ev: seq<Event>, x: nat): Past {
    if ev == [] then NOTHING else Next(History(ev[..|ev| - 1], x), ev[|ev| - 1], x)
  }

  lemma {:induction false} UnheardMeans(ev: seq<Event>, x: nat)
    requires History(ev, x).unheard
    ensures History(ev, x) == NOTHING
  {
    if ev != [] {
      UnheardMeans(ev[..|ev| - 1], x);
    }
  }

  lemma Snoc(ev: seq<Event>, e: Event, x: nat)
    ensures History(ev + [e], x) == Next(History(ev, x), e, x)
  {
    assert (ev + [e])[..|ev + [e]| - 1] == ev;
  }

  /** All there is to say about one id. */
  datatype Record = Record(timer: Option<Timer>, past: Past)

  function Look(s: State, x: nat): Record {
    Record(Find(s.timers, x), History(s.events, x))
  }

  // ---- the operations ----

  function NewTimer(id: nat, delay: real, interval: real, repeating: bool, catchUp: bool, maxCatchUp: int,
                    now: real, m: Moment): Timer
  {
    var created := if m.inUpdate && now < m.updateTime then m.updateTime else now;
    var inFixedStep := m.inUpdate && m.fixedStep;
    Timer(id, delay, interval, repeating, catchUp, maxCatchUp, m.updateCount, !inFixedStep, inFixedStep, created)
  }

  function AddTimer(s: State, delay: real, interval: real, repeating: bool, catchUp: bool, maxCatchUp: int,
                    now: real, m: Moment): State
  {
    var t := NewTimer(s.next, delay, interval, repeating, catchUp, maxCatchUp, now, m);
    s.(timers := s.timers + [t], next := s.next + 1, events := s.events + [Added(t)])
  }

  /** A timer that was never handed out cannot be cancelled. */
  function CancelTimer(s: State, id: nat): State {
    s.(timers := Without(s.timers, id), events := if id < s.next then s.events + [Cancelled(id)] else s.events)
  }

  function Cancels(ts: seq<Timer>): seq<Event> {
    if ts == [] then [] else Cancels(ts[..|ts| - 1]) + [Cancelled(ts[|ts| - 1].id)]
  }

  function CancelAllTimers(s: State): State {
    s.(timers := [], events := s.events + Cancels(s.timers))
  }

  function Do(s: State, op: Op, m: Moment): State {
    match op
    case CallAfter(delay, now) => AddTimer(s, delay, 0.0, false, false, 0, now, m)
    case CallEvery(interval, now) => AddTimer(s, interval, interval, true, false, 0, now, m)
    case CallEveryCatchUp(interval, max, now) => AddTimer(s, interval, interval, true, true, max, now, m)
    case Cancel(id) => CancelTimer(s, id)
    case CancelAll => CancelAllTimers(s)
  }

  function Run(s: State, ops: seq<Op>, m: Moment): State
    decreases |ops|
  {
    if ops == [] then s else Run(Do(s, ops[0], m), ops[1..], m)
  }

  /** What the callbacks do: the body of the k-th call over the whole run. */
  type Script = nat -> seq<Op>

  function Call(s: State, id: nat, script: Script, m: Moment): State {
    Run(s.(calls := s.calls + 1, events := s.events + [Fired(id)]), script(s.calls), m)
  }

  /** Up to `n` calls, until the callback cancels its own timer. */
  function Repeat(s: State, id: nat, n: nat, script: Script, m: Moment): State
    decreases n
  {
    if n == 0 then s
    else
      var s' := Call(s, id, script, m);
      if Find(s'.timers, id) == None then s' else Repeat(s', id, n - 1, script, m)
  }

  /** Intervals that came due before the latest one. */
  function Skipped(t: Timer): nat
    requires t.interval > 0.0
  {
    if -t.remaining > 0.0 then
      QuotientPositive(-t.remaining, t.interval);
      (-t.remaining / t.interval + DUE_EPSILON).Floor
    else 0
  }

  lemma QuotientPositive(a: real, b: real)
    requires a > 0.0 && b > 0.0
    ensures a / b > 0.0
  {
  }

  function Advanced(t: Timer): Timer {
    t.(remaining := if t.interval > 0.0 then t.remaining + t.interval * (Skipped(t) as real + 1.0) else 0.0)
  }

  function CallCount(t: Timer): (n: nat)
    ensures n >= 1
  {
    var all := if !t.repeating || t.interval <= 0.0 || !t.catchUp then 1
               else if Skipped(t) as real + 1.0 < MANY_CALLS then Skipped(t) + 1 else UINT64_MAX;
    if t.repeating && t.catchUp && t.maxCatchUp > 0 && all > t.maxCatchUp then t.maxCatchUp else all
  }

  /** Calls in one update: one, but for a catch-up timer all the intervals that came due, up to its limit. */
  lemma CallCountIs(t: Timer)
    ensures !(t.repeating && t.catchUp && t.interval > 0.0) ==> CallCount(t) == 1
    ensures t.repeating && t.catchUp && t.interval > 0.0 && Skipped(t) as real + 1.0 < MANY_CALLS ==>
              CallCount(t) == if 0 < t.maxCatchUp < Skipped(t) + 1 then t.maxCatchUp else Skipped(t) + 1
    ensures t.repeating && t.catchUp && t.maxCatchUp > 0 ==> CallCount(t) <= t.maxCatchUp
  {
  }

  function FireId(s: State, id: nat, script: Script, m: Moment): State {
    match Find(s.timers, id)
    case None => s
    case Some(t) =>
      if t.repeating then
        Repeat(Advance(s, t), id, CallCount(t), script, m)
      else
        Call(s.(timers := Without(s.timers, id)), id, script, m)
  }

  function Advance(s: State, t: Timer): State {
    s.(timers := Put(s.timers, Advanced(t)),
       events := if t.interval > 0.0 then s.events + [Due(t.id, Skipped(t) + 1)] else s.events)
  }

  function FireAll(s: State, ids: seq<nat>, script: Script, m: Moment): State
    decreases |ids|
  {
    if ids == [] then s else FireAll(FireId(s, ids[0], script, m), ids[1..], script, m)
  }

  function Min(a: real, b: real): real {
    if b < a then b else a
  }

  /** What one update takes off a timer. */
  function Charge(t: Timer, m: Moment, already: bool): real {
    if already then 0.0
    else if t.pending && m.updateTime != NO_TIME then
      if m.updateTime > t.created then Min(m.dt, m.updateTime - t.created) else 0.0
    else if t.createdUpdate != m.updateCount then
      if t.stepCreated && m.updateTime != NO_TIME && !m.fixedStep then
        var since := m.updateTime - t.created;
        Min(m.dt, if since > 0.0 then since else 0.0)
      else m.dt
    else 0.0
  }

  function Charged1(t: Timer, m: Moment, already: bool): Timer {
    var counted := t.pending && m.updateTime != NO_TIME;
    var c := Charge(t, m, already);
    t.(pending := if already then t.pending
                  else if counted then t.pending && !(m.updateTime > t.created)
                  else t.pending && t.createdUpdate == m.updateCount,
       stepCreated := t.stepCreated && (already || counted || t.createdUpdate == m.updateCount),
       remaining := if c > 0.0 then t.remaining - c else t.remaining)
  }

  function ChargeAll(ts: seq<Timer>, m: Moment, already: bool): seq<Timer> {
    if ts == [] then [] else [Charged1(ts[0], m, already)] + ChargeAll(ts[1..], m, already)
  }

  function ChargeEvent(t: Timer, m: Moment, already: bool): seq<Event> {
    if Charge(t, m, already) > 0.0 then [Event.Charged(t.id, Charge(t, m, already))] else []
  }

  function Charges(ts: seq<Timer>, m: Moment, already: bool): seq<Event> {
    if ts == [] then [] else ChargeEvent(ts[0], m, already) + Charges(ts[1..], m, already)
  }

  function Ready(ts: seq<Timer>): seq<nat> {
    if ts == [] then [] else ReadyId(ts[0]) + Ready(ts[1..])
  }

  function ReadyId(t: Timer): seq<nat> {
    if t.remaining <= DUE_EPSILON then [t.id] else []
  }

  lemma PrefixStep(goal: seq<Timer>, all: seq<Timer>, i: nat)
    requires i < |goal| == |all|
    ensures (goal[..i] + all[i..])[i] == all[i]
    ensures (goal[..i] + all[i..])[i := goal[i]] == goal[..i + 1] + all[i + 1..]
  {
  }

  lemma Regroup(a: seq<nat>, b: seq<nat>, c: seq<nat>)
    ensures a + b + c == a + (b + c)
    ensures a + [] == a
  {
  }

  lemma ReadyStep(ts: seq<Timer>, i: nat)
    requires i < |ts|
    ensures Ready(ts[i..]) == ReadyId(ts[i]) + Ready(ts[i + 1..])
  {
    assert ts[i..][1..] == ts[i + 1..];
  }

  /** The first `i` timers are charged, and those of them that are due are in `ready`; sealed. */
  ghost predicate Charging(ts: seq<Timer>, ready: seq<nat>, i: nat, all: seq<Timer>, m: Moment, already: bool) {
    forall o: nat {:trigger Words.Opened(o)} :: Words.Opened(o) ==>
      var goal := ChargeAll(all, m, already);
      i <= |all| == |goal| && ts == goal[..i] + all[i..] && ready + Ready(goal[i..]) == Ready(goal)
  }

  lemma ChargingStarts(all: seq<Timer>, m: Moment, already: bool)
    ensures Charging(all, [], 0, all, m, already)
  {
    ChargeAllAt(all, m, already);
    var goal := ChargeAll(all, m, already);
    assert goal[0..] == goal && all[0..] == all;
  }

  lemma ChargingEnds(ts: seq<Timer>, ready: seq<nat>, all: seq<Timer>, m: Moment, already: bool)
    requires Charging(ts, ready, |all|, all, m, already)
    ensures ts == ChargeAll(all, m, already) && ready == Ready(ts)
  {
    assert Words.Opened(0);
    var goal := ChargeAll(all, m, already);
    assert goal[..|all|] == goal && all[|all|..] == [] && goal[|all|..] == [];
    Regroup(ready, [], []);
  }

  /** The countdown of one update. */
  function Count(s: State, m: Moment): State {
    var already := s.lastCharged == Some(m.updateCount);
    s.(lastCharged := Some(m.updateCount), timers := ChargeAll(s.timers, m, already),
       events := s.events + Charges(s.timers, m, already))
  }

  function Process(s: State, script: Script, m: Moment): State {
    if s.timers == [] then s
    else
      var counted := Count(s, m);
      FireAll(counted, Ready(counted.timers), script, m)
  }

  // ---- what holds of every id in every run ----

  /** A cancelled timer is gone and never fires again; a one-shot timer fires at most once. */
  ghost predicate Sound(s: State, x: nat) {
    var r := Look(s, x);
    && (x >= s.next ==> r.past.unheard && r.timer == None)
    && (r.past.cancelled ==> r.timer == None)
    && r.past.quiet
    && (r.timer.Some? ==> r.timer.value.repeating == !r.past.oneShot)
    && (r.past.oneShot ==> r.past.fires + (if r.timer.Some? then 1 else 0) <= 1)
  }

  ghost function Times(n: nat, interval: real): real {
    n as real * interval
  }

  /** The phase is kept: what came due and what was charged account for the
    * time left, and an unlimited catch-up timer called for every interval. */
  ghost predicate Even(t: Timer, p: Past, owed: nat) {
    t.repeating && t.interval > 0.0 ==>
      && Times(p.dues, t.interval) == p.total + t.remaining - t.interval
      && (t.catchUp && t.maxCatchUp <= 0 && !p.flooded ==> p.fires + owed == p.dues)
  }

  ghost predicate Balanced(s: State, x: nat) {
    var r := Look(s, x);
    r.timer.Some? ==> Even(r.timer.value, r.past, 0)
  }

  function Cancel1(r: Record): Record {
    Record(None, r.past.(cancelled := true, unheard := false))
  }

  /** Sealed: `KeptNow`. */
  ghost predicate Kept(s: State, s': State, x: nat) {
    forall o: nat {:trigger Words.Opened(o)} :: Words.Opened(o) ==> KeptNow(s, s', x)
  }

  /** What every operation keeps: an id that was already handed out keeps its record, or is cancelled. */
  ghost predicate KeptNow(s: State, s': State, x: nat) {
    var r, r' := Look(s, x), Look(s', x);
    && Keyed(s'.timers, s'.next) && Sound(s', x) && s.next <= s'.next
    && r'.past.fires == r.past.fires
    && (x < s.next ==> r' == r || r' == Cancel1(r))
    && (Balanced(s, x) ==> Balanced(s', x))
  }

  lemma KeptMeans(s: State, s': State, x: nat)
    requires Kept(s, s', x)
    ensures Keyed(s'.timers, s'.next) && Sound(s', x)
  {
    assert Words.Opened(0);
  }

  lemma KeptTwice(s: State, s': State, s'': State, x: nat)
    requires Kept(s, s', x) && Kept(s', s'', x)
    ensures Kept(s, s'', x)
  {
    assert Words.Opened(0);
  }

  lemma KeptSame(s: State, x: nat)
    requires Keyed(s.timers, s.next) && Sound(s, x)
    ensures Kept(s, s, x)
  {
  }

  lemma AddKeeps(s: State, t: Timer, x: nat)
    requires Keyed(s.timers, s.next) && t.id == s.next && Sound(s, x)
    requires t.repeating ==> t.remaining == t.interval
    ensures Kept(s, s.(timers := s.timers + [t], next := s.next + 1, events := s.events + [Added(t)]), x)
  {
    assert Words.Opened(0);
    var s' := s.(timers := s.timers + [t], next := s.next + 1, events := s.events + [Added(t)]);
    AddLook(s, t, x);
    if x == t.id {
      AddedIsKept(s, s', t);
    }
  }

  lemma AddedIsKept(s: State, s': State, t: Timer)
    requires t.id == s.next && Sound(s, t.id) && (t.repeating ==> t.remaining == t.interval)
    requires s' == s.(timers := s.timers + [t], next := s.next + 1, events := s.events + [Added(t)])
    requires Keyed(s.timers, s.next)
    ensures Kept(s, s', t.id)
  {
    assert Words.Opened(0);
    AddLook(s, t, t.id);
    UnheardMeans(s.events, t.id);
    assert Even(t, Look(s', t.id).past, 0);
  }

  /** A timer added in an update gets an id that was never used, and that update takes nothing off
    * it; no other timer changes. */
  lemma NewTimerWaits(s: State, delay: real, interval: real, repeating: bool, catchUp: bool, maxCatchUp: int,
                      now: real, m: Moment, later: Moment, already: bool, x: nat)
    requires Valid(s) && m.inUpdate && later.updateCount == m.updateCount && later.updateTime == m.updateTime
    ensures var s' := AddTimer(s, delay, interval, repeating, catchUp, maxCatchUp, now, m);
            && Find(s.timers, s.next) == None && History(s.events, s.next) == NOTHING
            && Find(s'.timers, s.next).Some? && Charge(Find(s'.timers, s.next).value, later, already) == 0.0
            && Find(s'.timers, s.next).value.remaining == delay
            && (x != s.next ==> Look(s', x) == Look(s, x))
  {
    assert Words.Opened(0);
    assert At(s, s.next);
    UnheardMeans(s.events, s.next);
    var t := NewTimer(s.next, delay, interval, repeating, catchUp, maxCatchUp, now, m);
    AddLook(s, t, x);
    AddLook(s, t, s.next);
  }

  lemma AddLook(s: State, t: Timer, x: nat)
    requires Keyed(s.timers, s.next) && t.id == s.next
    ensures var s' := s.(timers := s.timers + [t], next := s.next + 1, events := s.events + [Added(t)]);
            && Keyed(s'.timers, s'.next)
            && Look(s', x) == if x == t.id then Record(Some(t), Next(History(s.events, x), Added(t), x)) else Look(s, x)
  {
    KeyedAppend(s.timers, s.next, t, s.next + 1);
    FindAppend(s.timers, t, x);
    KeyedFind(s.timers, s.next, t.id);
    Snoc(s.events, Added(t), x);
  }

  lemma CancelKeeps(s: State, id: nat, x: nat)
    requires Keyed(s.timers, s.next) && Sound(s, x)
    ensures Kept(s, CancelTimer(s, id), x)
  {
    CancelLook(s, id, x);
  }

  lemma CancelLook(s: State, id: nat, x: nat)
    requires Keyed(s.timers, s.next) && (x >= s.next ==> Find(s.timers, x) == None)
    ensures Keyed(CancelTimer(s, id).timers, s.next)
    ensures Look(CancelTimer(s, id), x) == if x == id && id < s.next then Cancel1(Look(s, x)) else Look(s, x)
  {
    KeyedWithout(s.timers, s.next, id);
    FindWithout(s.timers, id, x);
    Snoc(s.events, Cancelled(id), x);
  }

  lemma {:induction false} CancelsLook(ev: seq<Event>, ts: seq<Timer>, x: nat)
    ensures History(ev + Cancels(ts), x) ==
            if Find(ts, x) == None then History(ev, x) else History(ev, x).(cancelled := true, unheard := false)
  {
    if ts == [] {
      assert ev + Cancels(ts) == ev;
    } else {
      var init, t := ts[..|ts| - 1], ts[|ts| - 1];
      CancelsLook(ev, init, x);
      Snoc(ev + Cancels(init), Cancelled(t.id), x);
      assert ev + Cancels(ts) == ev + Cancels(init) + [Cancelled(t.id)];
      assert ts == init + [t];
      FindAppend(init, t, x);
    }
  }

  lemma CancelAllKeeps(s: State, x: nat)
    requires Keyed(s.timers, s.next) && Sound(s, x)
    ensures Kept(s, CancelAllTimers(s), x)
  {
    assert Words.Opened(0);
    CancelsLook(s.events, s.timers, x);
  }

  lemma DoKeeps(s: State, op: Op, m: Moment, x: nat)
    requires Keyed(s.timers, s.next) && Sound(s, x)
    ensures Kept(s, Do(s, op, m), x)
  {
    assert Words.Opened(0);
    match op
    case CallAfter(delay, now) => AddKeeps(s, NewTimer(s.next, delay, 0.0, false, false, 0, now, m), x);
    case CallEvery(interval, now) => AddKeeps(s, NewTimer(s.next, interval, interval, true, false, 0, now, m), x);
    case CallEveryCatchUp(interval, max, now) => AddKeeps(s, NewTimer(s.next, interval, interval, true, true, max, now, m), x);
    case Cancel(id) => CancelKeeps(s, id, x);
    case CancelAll => CancelAllKeeps(s, x);
  }

  lemma {:induction false} RunKeeps(s: State, ops: seq<Op>, m: Moment, x: nat)
    requires Keyed(s.timers, s.next) && Sound(s, x)
    ensures Kept(s, Run(s, ops, m), x)
    decreases |ops|
  {
    if ops == [] {
      KeptSame(s, x);
    } else {
      var s1 := Do(s, ops[0], m);
      DoKeeps(s, ops[0], m, x);
      KeptMeans(s, s1, x);
      RunKeeps(s1, ops[1..], m, x);
      KeptTwice(s, s1, Run(s1, ops[1..], m), x);
    }
  }

  /** One call for `id`, which is still listed, or was just taken off as a one-shot. */
  lemma CallKeeps(s: State, id: nat, script: Script, m: Moment, x: nat)
    requires Keyed(s.timers, s.next) && Sound(s, x) && id < s.next
    requires x == id ==> !Look(s, x).past.cancelled
    requires x == id && Look(s, x).past.oneShot ==> Look(s, x).past.fires == 0 && Look(s, x).timer == None
    ensures x != id ==> Kept(s, Call(s, id, script, m), x)
    ensures x == id ==> Called(s, Call(s, id, script, m), x, 1)
  {
    assert Words.Opened(0);
    Snoc(s.events, Fired(id), x);
    var s1 := s.(calls := s.calls + 1, events := s.events + [Fired(id)]);
    RunKeeps(s1, script(s.calls), m, x);
  }

  /** Sealed: `CalledNow`. */
  ghost predicate Called(s: State, s': State, id: nat, n: nat) {
    forall o: nat {:trigger Words.Opened(o)} :: Words.Opened(o) ==> CalledNow(s, s', id, n)
  }

  /** `n` more calls with the timer as it was, or at most `n` and the timer cancelled. */
  ghost predicate CalledNow(s: State, s': State, id: nat, n: nat) {
    var r, r' := Look(s, id), Look(s', id);
    && Keyed(s'.timers, s'.next) && Sound(s', id) && s.next <= s'.next
    && r.past.fires <= r'.past.fires <= r.past.fires + n && (n > 0 ==> r.past.fires < r'.past.fires)
    && r'.past.dues == r.past.dues && r'.past.total == r.past.total && r'.past.flooded == r.past.flooded
    && ((r'.timer == r.timer && r'.past.fires == r.past.fires + n) || (r'.timer == None && r'.past.cancelled))
  }

  /** The calls of one due timer: all of them, unless the timer is cancelled on the way. */
  lemma {:induction false} RepeatCalls(s: State, id: nat, n: nat, script: Script, m: Moment)
    requires Keyed(s.timers, s.next) && Sound(s, id)
    requires Find(s.timers, id).Some? && Find(s.timers, id).value.repeating
    ensures Called(s, Repeat(s, id, n, script, m), id, n)
    decreases n
  {
    assert Words.Opened(0);
    if n > 0 {
      var s1 := Call(s, id, script, m);
      CallKeeps(s, id, script, m, id);
      if Find(s1.timers, id).Some? {
        RepeatCalls(s1, id, n - 1, script, m);
      }
    }
  }

  lemma {:induction false} RepeatKeeps(s: State, id: nat, n: nat, script: Script, m: Moment, x: nat)
    requires Keyed(s.timers, s.next) && Sound(s, x) && Sound(s, id) && x != id
    requires Find(s.timers, id).Some? && Find(s.timers, id).value.repeating
    ensures Kept(s, Repeat(s, id, n, script, m), x)
    decreases n
  {
    if n == 0 {
      KeptSame(s, x);
    } else {
      var s1 := Call(s, id, script, m);
      CallKeeps(s, id, script, m, x);
      KeptMeans(s, s1, x);
      CallKeeps(s, id, script, m, id);
      if Find(s1.timers, id).Some? {
        StillListed(s, s1, id);
        RepeatKeeps(s1, id, n - 1, script, m, x);
        KeptTwice(s, s1, Repeat(s1, id, n - 1, script, m), x);
      }
    }
  }

  lemma StillListed(s: State, s': State, id: nat)
    requires Called(s, s', id, 1) && Find(s'.timers, id).Some?
    ensures Sound(s', id) && Find(s'.timers, id) == Find(s.timers, id)
  {
    assert Words.Opened(0);
  }

  lemma AdvanceKeeps(s: State, t: Timer, x: nat)
    requires Keyed(s.timers, s.next) && Sound(s, x) && Find(s.timers, t.id) == Some(t) && t.repeating
    ensures Keyed(Advance(s, t).timers, s.next) && Sound(Advance(s, t), x)
    ensures x != t.id ==> Look(Advance(s, t), x) == Look(s, x)
    ensures x == t.id ==> Look(Advance(s, t), x).timer == Some(Advanced(t))
    ensures Look(Advance(s, t), x).past.fires == Look(s, x).past.fires
  {
    FindPut(s.timers, s.next, Advanced(t), x);
    if t.interval > 0.0 {
      Snoc(s.events, Due(t.id, Skipped(t) + 1), x);
    }
  }

  /** Moving the due time on keeps the books, with the calls still owed. */
  lemma AdvanceBalances(s: State, t: Timer)
    requires Even(t, History(s.events, t.id), 0) && t.repeating
    ensures Even(Advanced(t), History(Advance(s, t).events, t.id), CallCount(t))
  {
    AdvanceHistory(s, t);
    if t.interval > 0.0 {
      EvenLater(t, History(s.events, t.id));
    } else {
      assert Advanced(t).interval <= 0.0;
    }
  }

  lemma AdvanceHistory(s: State, t: Timer)
    ensures History(Advance(s, t).events, t.id) ==
            if t.interval > 0.0 then Next(History(s.events, t.id), Due(t.id, Skipped(t) + 1), t.id) else History(s.events, t.id)
  {
    if t.interval > 0.0 {
      Snoc(s.events, Due(t.id, Skipped(t) + 1), t.id);
    }
  }

  lemma EvenLater(t: Timer, p: Past)
    requires t.interval > 0.0 && t.repeating && Even(t, p, 0)
    ensures Even(Advanced(t), Next(p, Due(t.id, Skipped(t) + 1), t.id), CallCount(t))
  {
    TimesAdds(p.dues, Skipped(t) + 1, t.interval);
    AllCalls(t);
  }

  lemma TimesAdds(a: nat, b: nat, interval: real)
    ensures Times(a + b, interval) == Times(a, interval) + interval * b as real
  {
  }

  lemma AllCalls(t: Timer)
    requires t.repeating && t.interval > 0.0
    ensures t.catchUp && t.maxCatchUp <= 0 && (Skipped(t) + 1) as real < MANY_CALLS ==> CallCount(t) == Skipped(t) + 1
  {
  }

  /** A listed timer is called at least once, and as often as it is due, unless it is cancelled
    * by its own calls. */
  ghost predicate FiredAsDue(s: State, s': State, x: nat) {
    var r, r' := Look(s, x), Look(s', x);
    match r.timer
    case None => r' == r
    case Some(t) =>
      && r.past.fires < r'.past.fires <= r.past.fires + CallCount(t)
      && (r'.past.fires == r.past.fires + CallCount(t) || r'.past.cancelled)
  }

  /** Firing one due timer leaves the record of any other. */
  lemma FireOther(s: State, id: nat, script: Script, m: Moment, x: nat)
    requires Keyed(s.timers, s.next) && Sound(s, x) && Sound(s, id) && x != id
    ensures Kept(s, FireId(s, id, script, m), x)
  {
    assert Words.Opened(0);
    match Find(s.timers, id)
    case None =>
    case Some(t) =>
      if t.repeating {
        AdvanceKeeps(s, t, x);
        AdvanceKeeps(s, t, id);
        RepeatKeeps(Advance(s, t), id, CallCount(t), script, m, x);
      } else {
        KeyedWithout(s.timers, s.next, id);
        FindWithout(s.timers, id, x);
        CallKeeps(s.(timers := Without(s.timers, id)), id, script, m, x);
      }
  }

  lemma FireSelf(s: State, id: nat, script: Script, m: Moment)
    requires Keyed(s.timers, s.next) && Sound(s, id) && Balanced(s, id)
    ensures var s' := FireId(s, id, script, m);
            Keyed(s'.timers, s'.next) && s.next <= s'.next && Sound(s', id) && Balanced(s', id) && FiredAsDue(s, s', id)
  {
    assert Words.Opened(0);
    match Find(s.timers, id)
    case None =>
    case Some(t) =>
      if t.repeating {
        AdvanceKeeps(s, t, id);
        RepeatCalls(Advance(s, t), id, CallCount(t), script, m);
        AdvanceBalances(s, t);
      } else {
        KeyedWithout(s.timers, s.next, id);
        FindWithout(s.timers, id, id);
        CallKeeps(s.(timers := Without(s.timers, id)), id, script, m, id);
      }
  }

  // ---- whole batches ----

  ghost predicate At(s: State, x: nat) {
    Sound(s, x) && Balanced(s, x)
  }

  /** Sealed: `ValidNow`. */
  ghost predicate Valid(s: State) {
    forall o: nat {:trigger Words.Opened(o)} :: Words.Opened(o) ==> ValidNow(s)
  }

  ghost predicate ValidNow(s: State) {
    Keyed(s.timers, s.next) && forall x: nat {:trigger At(s, x)} :: At(s, x)
  }

  lemma FireValid(s: State, id: nat, script: Script, m: Moment)
    requires Valid(s)
    ensures Valid(FireId(s, id, script, m))
  {
    assert Words.Opened(0);
    assert At(s, id);
    FireSelf(s, id, script, m);
    forall x: nat ensures At(FireId(s, id, script, m), x) {
      assert At(s, x);
      if x != id {
        FireOther(s, id, script, m, x);
      }
    }
  }

  lemma {:induction false} FireAllValid(s: State, ids: seq<nat>, script: Script, m: Moment)
    requires Valid(s)
    ensures Valid(FireAll(s, ids, script, m))
    decreases |ids|
  {
    if ids != [] {
      FireValid(s, ids[0], script, m);
      FireAllValid(FireId(s, ids[0], script, m), ids[1..], script, m);
    }
  }

  ghost predicate NoRepeat(ids: seq<nat>) {
    ids != [] ==> ids[0] !in ids[1..] && NoRepeat(ids[1..])
  }

  /** A batch leaves what is not in it: nothing else fires. */
  lemma {:induction false} FireAllOthers(s: State, ids: seq<nat>, script: Script, m: Moment, x: nat)
    requires Valid(s) && x !in ids
    ensures Kept(s, FireAll(s, ids, script, m), x)
    decreases |ids|
  {
    assert Words.Opened(0);
    assert At(s, x);
    if ids != [] {
      assert At(s, ids[0]);
      FireOther(s, ids[0], script, m, x);
      FireValid(s, ids[0], script, m);
      FireAllOthers(FireId(s, ids[0], script, m), ids[1..], script, m, x);
    }
  }

  /** A batch is its first timers, then the others. */
  lemma {:induction false} FireAllSplit(s: State, a: seq<nat>, b: seq<nat>, script: Script, m: Moment)
    ensures FireAll(s, a + b, script, m) == FireAll(FireAll(s, a, script, m), b, script, m)
    decreases |a|
  {
    if a == [] {
      assert a + b == b;
    } else {
      assert (a + b)[1..] == a[1..] + b;
      FireAllSplit(FireId(s, a[0], script, m), a[1..], b, script, m);
    }
  }

  lemma {:induction false} NoRepeatMeans(ids: seq<nat>, k: nat)
    requires NoRepeat(ids) && k < |ids|
    ensures ids[k] !in ids[..k] && ids[k] !in ids[k + 1..]
  {
    if k > 0 {
      NoRepeatMeans(ids[1..], k - 1);
    }
  }

  /** The turn of the k-th timer of a batch: nothing that comes before or after it makes its timer
    * fire; what comes before can only cancel it. */
  lemma FireAllAt(s: State, ids: seq<nat>, script: Script, m: Moment, k: nat)
    requires Valid(s) && NoRepeat(ids) && k < |ids| && ids[k] < s.next
    ensures var x := ids[k];
            var b := FireAll(s, ids[..k], script, m);
            var a := FireId(b, x, script, m);
            && Valid(b) && Look(b, x).past.fires == Look(s, x).past.fires
            && (Look(b, x) == Look(s, x) || Look(b, x) == Cancel1(Look(s, x)))
            && Look(FireAll(s, ids, script, m), x).past.fires == Look(a, x).past.fires
  {
    assert Words.Opened(0);
    var x := ids[k];
    var b := FireAll(s, ids[..k], script, m);
    var a := FireId(b, x, script, m);
    NoRepeatMeans(ids, k);
    FireAllOthers(s, ids[..k], script, m, x);
    FireAllValid(s, ids[..k], script, m);
    FireValid(b, x, script, m);
    FireAllOthers(a, ids[k + 1..], script, m, x);
    FireAllSplit(s, ids[..k], ids[k..], script, m);
    assert ids[..k] + ids[k..] == ids && ids[k..][1..] == ids[k + 1..];
  }

  lemma {:induction false} KeyedChargeAll(ts: seq<Timer>, next: nat, m: Moment, already: bool, x: nat)
    requires Keyed(ts, next)
    ensures Keyed(ChargeAll(ts, m, already), next)
    ensures Find(ChargeAll(ts, m, already), x) ==
            match Find(ts, x) case None => None case Some(t) => Some(Charged1(t, m, already))
  {
    if ts != [] {
      KeyedChargeAll(ts[1..], next, m, already, x);
      KeyedChargeAll(ts[1..], next, m, already, ts[0].id);
    }
  }

  function Plus(p: Past, c: real): Past {
    if c > 0.0 then p.(total := p.total + c, unheard := false) else p
  }

  lemma ChargeLook(ev: seq<Event>, t: Timer, m: Moment, already: bool, x: nat)
    ensures History(ev + ChargeEvent(t, m, already), x) ==
            if t.id == x then Plus(History(ev, x), Charge(t, m, already)) else History(ev, x)
  {
    var c := Charge(t, m, already);
    if c > 0.0 {
      Snoc(ev, Event.Charged(t.id, c), x);
    } else {
      assert ev + [] == ev;
    }
  }

  lemma {:induction false} ChargesLook(ev: seq<Event>, ts: seq<Timer>, next: nat, m: Moment, already: bool, x: nat)
    requires Keyed(ts, next)
    ensures History(ev + Charges(ts, m, already), x) ==
            match Find(ts, x) case None => History(ev, x) case Some(t) => Plus(History(ev, x), Charge(t, m, already))
    decreases |ts|
  {
    if ts == [] {
      assert ev + Charges(ts, m, already) == ev;
    } else {
      var e := ChargeEvent(ts[0], m, already);
      assert ev + Charges(ts, m, already) == (ev + e) + Charges(ts[1..], m, already);
      ChargeLook(ev, ts[0], m, already, x);
      ChargesLook(ev + e, ts[1..], next, m, already, x);
    }
  }

  /** The countdown takes one charge off every timer, and keeps the books. */
  lemma CountLook(s: State, m: Moment, x: nat)
    requires Keyed(s.timers, s.next)
    ensures var already := s.lastCharged == Some(m.updateCount);
            Look(Count(s, m), x) == match Find(s.timers, x)
              case None => Look(s, x)
              case Some(t) => Record(Some(Charged1(t, m, already)), Plus(Look(s, x).past, Charge(t, m, already)))
    ensures Keyed(Count(s, m).timers, s.next)
  {
    var already := s.lastCharged == Some(m.updateCount);
    KeyedChargeAll(s.timers, s.next, m, already, x);
    ChargesLook(s.events, s.timers, s.next, m, already, x);
  }

  lemma CountValid(s: State, m: Moment)
    requires Valid(s)
    ensures Valid(Count(s, m))
  {
    assert Words.Opened(0);
    CountLook(s, m, 0);
    forall x: nat ensures At(Count(s, m), x) {
      assert At(s, x);
      CountLook(s, m, x);
    }
  }

  lemma {:induction false} ReadyIds(ts: seq<Timer>, next: nat, x: nat)
    requires Keyed(ts, next)
    ensures NoRepeat(Ready(ts))
    ensures x in Ready(ts) <==> Find(ts, x).Some? && Find(ts, x).value.remaining <= DUE_EPSILON
  {
    if ts != [] {
      ReadyIds(ts[1..], next, x);
      ReadyIds(ts[1..], next, ts[0].id);
      assert ([ts[0].id] + Ready(ts[1..]))[1..] == Ready(ts[1..]) == [] + Ready(ts[1..]);
    }
  }

  /** The whole update keeps every invariant, whatever the callbacks do. */
  lemma ProcessValid(s: State, script: Script, m: Moment)
    requires Valid(s)
    ensures Valid(Process(s, script, m))
  {
    if s.timers != [] {
      CountValid(s, m);
      FireAllValid(Count(s, m), Ready(Count(s, m).timers), script, m);
    }
  }

  lemma DoValid(s: State, op: Op, m: Moment)
    requires Valid(s)
    ensures Valid(Do(s, op, m))
  {
    assert Words.Opened(0);
    forall x: nat ensures At(Do(s, op, m), x) {
      assert At(s, x);
      DoKeeps(s, op, m, x);
    }
    assert At(s, 0);
    DoKeeps(s, op, m, 0);
  }

  /** One batch, seen from an id that is not due after the countdown, in particular from one that a
    * callback adds: it does not fire. */
  lemma BatchOthers(s: State, script: Script, m: Moment, x: nat)
    requires Valid(s) && s.timers != []
    requires var t := Find(Count(s, m).timers, x); t.Some? ==> t.value.remaining > DUE_EPSILON
    ensures Look(Process(s, script, m), x).past.fires == Look(s, x).past.fires
  {
    assert Words.Opened(0);
    CountValid(s, m);
    CountLook(s, m, x);
    var c := Count(s, m);
    ReadyIds(c.timers, c.next, x);
    FireAllOthers(c, Ready(c.timers), script, m, x);
  }

  /** One batch, seen from the k-th timer that is due: if it was cancelled before its turn it does not
    * fire; otherwise it is called in its turn, once if it does not catch up, and else as often as it
    * is due or until its own calls cancel it. Nothing later in the batch changes that. */
  lemma BatchExact(s: State, script: Script, m: Moment, k: nat)
    requires Valid(s) && s.timers != [] && k < |Ready(Count(s, m).timers)|
    ensures var c := Count(s, m);
            var x := Ready(c.timers)[k];
            var before := FireAll(c, Ready(c.timers)[..k], script, m);
            var after := FireId(before, x, script, m);
            && Find(c.timers, x).Some? && Find(c.timers, x).value.remaining <= DUE_EPSILON
            && Look(before, x).past.fires == Look(s, x).past.fires
            && Look(Process(s, script, m), x).past.fires == Look(after, x).past.fires
            && (Find(before.timers, x) == None ==> Look(before, x).past.cancelled && after == before)
            && (Find(before.timers, x) != None ==>
                  && Find(before.timers, x) == Find(c.timers, x) && FiredAsDue(before, after, x)
                  && (!Find(c.timers, x).value.catchUp ==> Look(after, x).past.fires == Look(s, x).past.fires + 1))
  {
    var c := Count(s, m);
    var ids := Ready(c.timers);
    CountValid(s, m);
    DueIsListed(c, k);
    CountFires(s, m, ids[k]);
    FireAllAt(c, ids, script, m, k);
    var before := FireAll(c, ids[..k], script, m);
    TurnOf(before, ids[k], script, m);
  }

  lemma CountFires(s: State, m: Moment, x: nat)
    requires Valid(s)
    ensures Look(Count(s, m), x).past.fires == Look(s, x).past.fires
  {
    assert Words.Opened(0);
    CountLook(s, m, x);
  }

  lemma DueIsListed(c: State, k: nat)
    requires Valid(c) && k < |Ready(c.timers)|
    ensures var x := Ready(c.timers)[k];
            NoRepeat(Ready(c.timers)) && x < c.next && Find(c.timers, x).Some? && Find(c.timers, x).value.remaining <= DUE_EPSILON
  {
    assert Words.Opened(0);
    var x := Ready(c.timers)[k];
    assert At(c, x);
    ReadyIds(c.timers, c.next, x);
  }

  lemma TurnOf(b: State, x: nat, script: Script, m: Moment)
    requires Valid(b)
    ensures Find(b.timers, x) == None ==> FireId(b, x, script, m) == b
    ensures Find(b.timers, x) != None ==> FiredAsDue(b, FireId(b, x, script, m), x)
  {
    assert Words.Opened(0);
    assert At(b, x);
    FireSelf(b, x, script, m);
  }

  /** In any run: once cancelled, an id never fires again. */
  lemma {:induction false} NeverAfterCancel(ev: seq<Event>, x: nat, i: nat, j: nat)
    requires History(ev, x).quiet && i < j < |ev| && ev[i] == Cancelled(x)
    ensures ev[j] != Fired(x)
  {
    var init := ev[..|ev| - 1];
    if j == |ev| - 1 {
      CancelSticks(init, x, i);
    } else {
      QuietBefore(init, ev[|ev| - 1], x);
      NeverAfterCancel(init, x, i, j);
    }
  }

  lemma QuietBefore(ev: seq<Event>, e: Event, x: nat)
    requires Next(History(ev, x), e, x).quiet
    ensures History(ev, x).quiet
  {
  }

  lemma {:induction false} CancelSticks(ev: seq<Event>, x: nat, i: nat)
    requires i < |ev| && ev[i] == Cancelled(x)
    ensures History(ev, x).cancelled
  {
    if i < |ev| - 1 {
      CancelSticks(ev[..|ev| - 1], x, i);
    }
  }

  /** In any run: a one-shot timer fires at most once. */
  lemma AtMostOnce(s: State, x: nat, i: nat)
    requires Valid(s) && i < |s.events| && s.events[i].Added? && s.events[i].t.id == x && !s.events[i].t.repeating
    ensures History(s.events, x).fires <= 1
  {
    assert Words.Opened(0);
    assert At(s, x);
    OneShotSticks(s.events, x, i);
  }

  lemma {:induction false} OneShotSticks(ev: seq<Event>, x: nat, i: nat)
    requires i < |ev| && ev[i].Added? && ev[i].t.id == x && !ev[i].t.repeating
    ensures History(ev, x).oneShot
  {
    if i < |ev| - 1 {
      OneShotSticks(ev[..|ev| - 1], x, i);
    }
  }

  /** In any run: an unlimited catch-up timer made one call for every interval its charges
    * went through. */
  lemma CatchUpPhase(s: State, x: nat, t: Timer)
    requires Valid(s) && Find(s.timers, x) == Some(t) && t.repeating && t.interval > 0.0
    ensures var p := History(s.events, x);
            && Times(p.dues, t.interval) == p.total + t.remaining - t.interval
            && (t.catchUp && t.maxCatchUp <= 0 && !p.flooded ==>
                  Times(p.fires, t.interval) == p.total + t.remaining - t.interval)
  {
    assert Words.Opened(0);
    assert At(s, x);
  }

  // ---- the phase ----

  /** After a due update the next due time lies ahead, and not later than rounding allows:
    * within the relative tolerance exactly if what was left is within it. */
  lemma PhaseBound(t: Timer)
    requires t.interval > 0.0 && t.remaining <= DUE_EPSILON
    ensures 0.0 < Advanced(t).remaining
    ensures Advanced(t).remaining <= t.interval * (1.0 + DUE_EPSILON) <==> t.remaining <= t.interval * DUE_EPSILON
    ensures Advanced(t).remaining <= t.interval + (if t.remaining < 0.0 then t.interval * DUE_EPSILON else DUE_EPSILON)
  {
    if t.remaining < 0.0 {
      LateBound(t.remaining, t.interval, -t.remaining / t.interval, Skipped(t) as real);
      ScaleUp(0.0, DUE_EPSILON, t.interval);
      Distribute(t.interval);
    } else {
      Distribute(t.interval);
    }
  }

  /** An input on which the relative tolerance is missed: half a second, due with all of the
    * absolute tolerance left. */
  lemma PhaseBoundMissed(t: Timer)
    requires t.interval == 0.5 && t.remaining == DUE_EPSILON
    ensures t.remaining > t.interval * DUE_EPSILON && Advanced(t).remaining > t.interval * (1.0 + DUE_EPSILON)
  {
    PhaseBound(t);
  }

  lemma Distribute(interval: real)
    ensures interval * (1.0 + DUE_EPSILON) == interval + interval * DUE_EPSILON
    ensures (1.0 + DUE_EPSILON) * interval == interval + interval * DUE_EPSILON
    ensures interval * (0.0 + 1.0) == interval && 0.0 * interval == 0.0
  {
  }

  lemma Spread(interval: real, a: real, b: real)
    ensures interval * a - b * interval == (a - b) * interval
  {
  }

  /** Going `k + 1` intervals on from `q` intervals late lands in the next interval. */
  lemma LateBound(remaining: real, interval: real, q: real, k: real)
    requires interval > 0.0 && q * interval == -remaining && k <= q + DUE_EPSILON < k + 1.0
    ensures 0.0 < remaining + interval * (k + 1.0) <= interval + interval * DUE_EPSILON
  {
    var ahead := k + 1.0 - q;
    Spread(interval, k + 1.0, q);
    assert remaining + interval * (k + 1.0) == ahead * interval;
    ScaleUp(0.0, ahead, interval);
    ScaleUp(ahead, 1.0 + DUE_EPSILON, interval);
    Distribute(interval);
  }

  lemma ScaleUp(a: real, b: real, scale: real)
    requires a <= b && scale > 0.0
    ensures a * scale <= b * scale && (a < b ==> a * scale < b * scale)
  {
  }

  // ---- time before the timer existed ----

  function LastTime(ms: seq<Moment>, start: real): real {
    if ms == [] then start else ms[|ms| - 1].updateTime
  }

  /** Updates whose delta is at most the time since the update before. */
  ghost predicate Measured(ms: seq<Moment>, start: real) {
    ms != [] ==>
      var m := ms[|ms| - 1];
      && Measured(ms[..|ms| - 1], start)
      && m.updateTime != NO_TIME && !m.fixedStep
      && 0.0 <= m.dt <= m.updateTime - LastTime(ms[..|ms| - 1], start)
  }

  function Countdown(t: Timer, ms: seq<Moment>): Timer {
    if ms == [] then t else Charged1(Countdown(t, ms[..|ms| - 1]), ms[|ms| - 1], false)
  }

  /** However late the updates come, a timer pays only for time after its creation, so it is
    * never due early. */
  lemma {:induction false} NeverEarly(t: Timer, ms: seq<Moment>, start: real)
    requires t.pending && !t.stepCreated && Measured(ms, start)
    ensures var c := Countdown(t, ms);
            && c.created == t.created && !c.stepCreated && c.remaining <= t.remaining
            && (c.pending ==> c.remaining == t.remaining)
            && (!c.pending ==> t.remaining - c.remaining <= LastTime(ms, start) - t.created)
  {
    if ms != [] {
      NeverEarly(t, ms[..|ms| - 1], start);
    }
  }

  /** The timers of one node, updated in place; `script` is what their callbacks do. */
  class NodeTimers {
    var timers: seq<Timer>
    var nextId: nat
    var lastCharged: Option<nat>
    var calls: nat
    const script: Script
    ghost var events: seq<Event>

    ghost function S(): State
      reads this
    {
      State(timers, nextId, lastCharged, calls, events)
    }

    constructor (script: Script)
      ensures Valid(S()) && S() == State([], 1, None, 0, []) && this.script == script
    {
      this.script := script;
      timers, nextId, lastCharged, calls, events := [], 1, None, 0, [];
    }

    method Add(delay: real, interval: real, repeating: bool, catchUp: bool, maxCatchUp: int, now: real, m: Moment)
      returns (id: nat)
      modifies this
      ensures id == old(nextId)
      ensures S() == AddTimer(old(S()), delay, interval, repeating, catchUp, maxCatchUp, now, m)
    {
      id := nextId;
      nextId := nextId + 1;
      var t := NewTimer(id, delay, interval, repeating, catchUp, maxCatchUp, now, m);
      timers := timers + [t];
      events := events + [Added(t)];
    }

    method CallAfter(delay: real, now: real, m: Moment) returns (id: nat)
      modifies this
      ensures id == old(nextId) && S() == Do(old(S()), Op.CallAfter(delay, now), m)
      ensures old(Valid(S())) ==> Valid(S())
    {
      if Valid(S()) { DoValid(S(), Op.CallAfter(delay, now), m); }
      id := Add(delay, 0.0, false, false, 0, now, m);
    }

    method CallEvery(interval: real, now: real, m: Moment) returns (id: nat)
      modifies this
      ensures id == old(nextId) && S() == Do(old(S()), Op.CallEvery(interval, now), m)
      ensures old(Valid(S())) ==> Valid(S())
    {
      if Valid(S()) { DoValid(S(), Op.CallEvery(interval, now), m); }
      id := Add(interval, interval, true, false, 0, now, m);
    }

    method CallEveryCatchUp(interval: real, maxCatchUp: int, now: real, m: Moment) returns (id: nat)
      modifies this
      ensures id == old(nextId) && S() == Do(old(S()), Op.CallEveryCatchUp(interval, maxCatchUp, now), m)
      ensures old(Valid(S())) ==> Valid(S())
    {
      if Valid(S()) { DoValid(S(), Op.CallEveryCatchUp(interval, maxCatchUp, now), m); }
      id := Add(interval, interval, true, true, maxCatchUp, now, m);
    }

    /** `erase(remove_if(...))`: the other timers stay, in order. */
    method Erase(id: nat)
      modifies this`timers
      ensures timers == Without(old(timers), id)
    {
      var kept: seq<Timer> := [];
      for i := 0 to |timers|
        invariant kept + Without(timers[i..], id) == Without(timers, id)
      {
        assert timers[i..][1..] == timers[i + 1..];
        if timers[i].id != id {
          kept := kept + [timers[i]];
        }
      }
      timers := kept;
    }

    method CancelTimer(id: nat)
      modifies this
      ensures S() == Do(old(S()), Cancel(id), NoMoment())
      ensures old(Valid(S())) ==> Valid(S())
      ensures timers == Without(old(timers), id) && Find(timers, id) == None
    {
      if Valid(S()) { DoValid(S(), Cancel(id), NoMoment()); }
      FindWithout(timers, id, id);
      Erase(id);
      events := if id < nextId then events + [Cancelled(id)] else events;
    }

    method CancelAllTimers()
      modifies this
      ensures S() == Do(old(S()), CancelAll, NoMoment())
      ensures old(Valid(S())) ==> Valid(S())
      ensures timers == [] && nextId == old(nextId)
    {
      if Valid(S()) { DoValid(S(), CancelAll, NoMoment()); }
      events := events + Cancels(timers);
      timers := [];
    }

    method Perform(op: Op, m: Moment)
      modifies this
      ensures S() == Do(old(S()), op, m)
    {
      match op {
        case CallAfter(delay, now) => var _ := CallAfter(delay, now, m);
        case CallEvery(interval, now) => var _ := CallEvery(interval, now, m);
        case CallEveryCatchUp(interval, max, now) => var _ := CallEveryCatchUp(interval, max, now, m);
        case Cancel(id) => CancelTimer(id);
        case CancelAll => CancelAllTimers();
      }
    }

    method Invoke(id: nat, m: Moment)
      modifies this
      ensures S() == Call(old(S()), id, script, m)
    {
      var body := script(calls);
      calls := calls + 1;
      events := events + [Fired(id)];
      ghost var s1 := S();
      for i := 0 to |body|
        invariant Run(S(), body[i..], m) == Run(s1, body, m)
      {
        assert body[i..][1..] == body[i + 1..];
        Perform(body[i], m);
      }
    }

    method IndexOf(id: nat) returns (k: nat)
      ensures k <= |timers| && Find(timers, id) == if k < |timers| then Some(timers[k]) else None
      ensures k < |timers| ==> timers[k].id == id && forall j :: 0 <= j < k ==> timers[j].id != id
    {
      k := 0;
      while k < |timers| && timers[k].id != id
        invariant k <= |timers| && Find(timers, id) == Find(timers[k..], id)
        invariant forall j :: 0 <= j < k ==> timers[j].id != id
      {
        k := k + 1;
      }
    }

    method ProcessTimers(m: Moment)
      modifies this
      ensures S() == Process(old(S()), script, m)
      ensures old(Valid(S())) ==> Valid(S())
    {
      if Valid(S()) { ProcessValid(S(), script, m); }
      if timers == [] {
        return;
      }
      var ready := CountDown(m);
      ghost var counted := S();
      for i := 0 to |ready|
        invariant FireAll(S(), ready[i..], script, m) == FireAll(counted, ready, script, m)
      {
        assert ready[i..][1..] == ready[i + 1..];
        Fire(ready[i], m);
      }
    }

    method CountDown(m: Moment) returns (ready: seq<nat>)
      modifies this
      ensures S() == Count(old(S()), m) && ready == Ready(timers)
    {
      var already := lastCharged == Some(m.updateCount);
      lastCharged := Some(m.updateCount);
      events := events + Charges(timers, m, already);
      ready := ChargeEach(m, already);
    }

    method ChargeEach(m: Moment, already: bool) returns (ready: seq<nat>)
      modifies this`timers
      ensures timers == ChargeAll(old(timers), m, already) && ready == Ready(timers)
    {
      ready := [];
      ghost var all := timers;
      ChargingStarts(all, m, already);
      var i := 0;
      while i < |timers|
        invariant i <= |timers| == |all| && Charging(timers, ready, i, all, m, already)
      {
        ready := ChargeNext(m, already, i, ready, all);
        i := i + 1;
      }
      ChargingEnds(timers, ready, all, m, already);
    }

    /** Charges one timer in place, and notes it if it is due. */
    method ChargeNext(m: Moment, already: bool, i: nat, ready: seq<nat>, ghost all: seq<Timer>) returns (now: seq<nat>)
      requires i < |timers| == |all| && Charging(timers, ready, i, all, m, already)
      modifies this`timers
      ensures |timers| == |all| && Charging(timers, now, i + 1, all, m, already)
    {
      assert Words.Opened(0);
      ghost var goal := ChargeAll(all, m, already);
      ChargeAllAt(all, m, already);
      PrefixStep(goal, all, i);
      ReadyStep(goal, i);
      timers := timers[i := Charged1(timers[i], m, already)];
      now := if timers[i].remaining <= DUE_EPSILON then ready + [timers[i].id] else ready;
      Regroup(ready, ReadyId(goal[i]), Ready(goal[i + 1..]));
    }

    method Fire(id: nat, m: Moment)
      modifies this
      ensures S() == FireId(old(S()), id, script, m)
    {
      var k := IndexOf(id);
      if k == |timers| {
        return;
      }
      var t := timers[k];
      if t.repeating {
        MoveOn(k);
        InvokeAll(id, CallCount(t), m);
      } else {
        Erase(id);
        Invoke(id, m);
      }
    }

    /** A due repeating timer gets its next due time in place. */
    method MoveOn(k: nat)
      requires k < |timers| && forall j :: 0 <= j < k ==> timers[j].id != timers[k].id
      modifies this`timers, this`events
      ensures S() == Advance(old(S()), old(timers[k]))
    {
      var t := timers[k];
      PutAt(timers, k, Advanced(t));
      timers := timers[k := Advanced(t)];
      events := if t.interval > 0.0 then events + [Due(t.id, Skipped(t) + 1)] else events;
    }

    /** The catch-up loop: before each further call the timer is looked up again. */
    method InvokeAll(id: nat, count: nat, m: Moment)
      modifies this
      ensures S() == Repeat(old(S()), id, count, script, m)
    {
      var n := 0;
      while n < count
        invariant n <= count
        invariant Repeat(old(S()), id, count, script, m) ==
          if n > 0 && Find(timers, id) == None then S() else Repeat(S(), id, count - n, script, m)
      {
        if n > 0 {
          var k := IndexOf(id);
          if k == |timers| {
            break;
          }
        }
        Invoke(id, m);
        n := n + 1;
      }
    }
  }

  function NoMoment(): Moment {
    Moment(0.0, false, NO_TIME, false, 0, 0.0)
  }
}
