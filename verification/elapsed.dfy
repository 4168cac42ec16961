// Time on a node's timers (core/include/tcNode.h): what a run of updates takes off a timer, in
// closed form, and so when it is due.
module Elapsed {
  import opened Basics
  import opened Timers
  import Words

  // ---- runs of updates ----

  /** The node after these updates, latest last, with whatever its callbacks do. */
  function Updates(s: State, script: Script, ms: seq<Moment>): State {
    if ms == [] then s else Process(Updates(s, script, ms[..|ms| - 1]), script, ms[|ms| - 1])
  }

  /** Updates have growing numbers, and none was seen before. */
  ghost predicate Numbered(s: State, ms: seq<Moment>) {
    && (s.lastCharged.Some? ==> forall i :: 0 <= i < |ms| ==> s.lastCharged.value < ms[i].updateCount)
    && forall i, j :: 0 <= i < j < |ms| ==> ms[i].updateCount < ms[j].updateCount
  }

  lemma NumberedBefore(s: State, ms: seq<Moment>, n: nat)
    requires Numbered(s, ms) && n <= |ms|
    ensures Numbered(s, ms[..n])
  {
  }

  /** What a run takes off a timer. */
  function Taken(t: Timer, ms: seq<Moment>): real {
    if ms == [] then 0.0
    else
      var init := ms[..|ms| - 1];
      var c := Charge(Countdown(t, init), ms[|ms| - 1], false);
      Taken(t, init) + if c > 0.0 then c else 0.0
  }

  lemma {:induction false} TakenIs(t: Timer, ms: seq<Moment>)
    ensures Countdown(t, ms).remaining == t.remaining - Taken(t, ms)
    ensures Countdown(t, ms) == Countdown(t, ms).(id := t.id, interval := t.interval, repeating := t.repeating,
              catchUp := t.catchUp, maxCatchUp := t.maxCatchUp, created := t.created, createdUpdate := t.createdUpdate)
  {
    if ms != [] {
      TakenIs(t, ms[..|ms| - 1]);
    }
  }

  // ---- the closed forms ----

  /** Updates whose delta is exactly the time since the update before. None later than `created` is the one
    * with the number `count`, in which the timer was made. */
  ghost predicate Exact(created: real, count: nat, ms: seq<Moment>, start: real) {
    ms != [] ==>
      var m := ms[|ms| - 1];
      && Exact(created, count, ms[..|ms| - 1], start)
      && m.updateTime != NO_TIME && !m.fixedStep
      && 0.0 <= m.dt == m.updateTime - LastTime(ms[..|ms| - 1], start)
      && (m.updateTime > created ==> m.updateCount != count)
  }

  /** In measured updates a timer is charged exactly the time since its creation. */
  lemma {:induction false} MeasuredExactly(t: Timer, ms: seq<Moment>, start: real)
    requires t.pending && !t.stepCreated && Exact(t.created, t.createdUpdate, ms, start) && start <= t.created
    ensures var c := Countdown(t, ms);
            && c.pending == (LastTime(ms, start) <= t.created) && !c.stepCreated
            && c.created == t.created && c.createdUpdate == t.createdUpdate
            && Taken(t, ms) == if LastTime(ms, start) <= t.created then 0.0 else LastTime(ms, start) - t.created
  {
    if ms != [] {
      MeasuredExactly(t, ms[..|ms| - 1], start);
    }
  }

  /** The deltas of the updates after the one with this number. */
  function Deltas(ms: seq<Moment>, created: nat): real {
    if ms == [] then 0.0
    else Deltas(ms[..|ms| - 1], created) + if ms[|ms| - 1].updateCount != created then ms[|ms| - 1].dt else 0.0
  }

  /** A timer made in a fixed step and counted in fixed steps, or one in a tree driven by hand, is charged
    * every whole delta after the update it was made in. */
  lemma {:induction false} StepsExactly(t: Timer, ms: seq<Moment>)
    requires forall i :: 0 <= i < |ms| ==> 0.0 <= ms[i].dt
    requires || (forall i :: 0 <= i < |ms| ==> ms[i].updateTime == NO_TIME)
             || (!t.pending && forall i :: 0 <= i < |ms| ==> ms[i].fixedStep)
    ensures Taken(t, ms) == Deltas(ms, t.createdUpdate)
    ensures Countdown(t, ms).createdUpdate == t.createdUpdate && (!t.pending ==> !Countdown(t, ms).pending)
  {
    if ms != [] {
      StepsExactly(t, ms[..|ms| - 1]);
    }
  }

  /** A timer made in a fixed step and counted in measured updates from then on. */
  lemma {:induction false} StepThenMeasured(t: Timer, ms: seq<Moment>, start: real)
    requires !t.pending && t.stepCreated && Exact(t.created, t.createdUpdate, ms, start) && start <= t.created
    requires forall i :: 0 <= i < |ms| ==> ms[i].updateTime > t.created
    ensures var c := Countdown(t, ms);
            && !c.pending && c.stepCreated == (ms == []) && c.created == t.created && c.createdUpdate == t.createdUpdate
            && Taken(t, ms) == if ms == [] then 0.0 else LastTime(ms, start) - t.created
  {
    if ms != [] {
      StepThenMeasured(t, ms[..|ms| - 1], start);
    }
  }

  // ---- the same in every run of the node ----

  /** If id `x` is still listed, it is the timer it was, due at another time, and was charged nothing. */
  ghost predicate Unticked(s: State, s': State, x: nat) {
    var r, r' := Look(s, x), Look(s', x);
    s.next <= s'.next && (r'.timer.Some? ==>
      r.timer.Some? && r'.timer.value == r.timer.value.(remaining := r'.timer.value.remaining) && r'.past.total == r.past.total)
  }

  lemma FireUnticked(s: State, id: nat, script: Script, m: Moment, x: nat)
    requires Valid(s) && x < s.next
    ensures Unticked(s, FireId(s, id, script, m), x)
  {
    assert Words.Opened(0);
    assert At(s, x) && At(s, id);
    if x != id {
      FireOther(s, id, script, m, x);
    } else if Find(s.timers, id).Some? {
      FireOwnUnticked(s, id, Find(s.timers, id).value, script, m);
    }
  }

  lemma FireOwnUnticked(s: State, id: nat, t: Timer, script: Script, m: Moment)
    requires Keyed(s.timers, s.next) && Sound(s, id) && Find(s.timers, id) == Some(t)
    ensures Unticked(s, FireId(s, id, script, m), id)
  {
    assert Words.Opened(0);
    if t.repeating {
      AdvanceKeeps(s, t, id);
      AdvanceHistory(s, t);
      RepeatCalls(Advance(s, t), id, CallCount(t), script, m);
    } else {
      KeyedWithout(s.timers, s.next, id);
      FindWithout(s.timers, id, id);
      CallKeeps(s.(timers := Without(s.timers, id)), id, script, m, id);
    }
  }

  lemma {:induction false} FireAllUnticked(s: State, ids: seq<nat>, script: Script, m: Moment, x: nat)
    requires Valid(s) && x < s.next
    ensures Unticked(s, FireAll(s, ids, script, m), x)
    decreases |ids|
  {
    if ids != [] {
      FireUnticked(s, ids[0], script, m, x);
      FireValid(s, ids[0], script, m);
      FireAllUnticked(FireId(s, ids[0], script, m), ids[1..], script, m, x);
    }
  }

  lemma {:induction false} RunCharged(s: State, ops: seq<Op>, m: Moment)
    ensures Run(s, ops, m).lastCharged == s.lastCharged
    decreases |ops|
  {
    if ops != [] {
      RunCharged(Do(s, ops[0], m), ops[1..], m);
    }
  }

  lemma {:induction false} RepeatCharged(s: State, id: nat, n: nat, script: Script, m: Moment)
    ensures Repeat(s, id, n, script, m).lastCharged == s.lastCharged
    decreases n
  {
    if n > 0 {
      RunCharged(s.(calls := s.calls + 1, events := s.events + [Fired(id)]), script(s.calls), m);
      RepeatCharged(Call(s, id, script, m), id, n - 1, script, m);
    }
  }

  /** Callbacks do not change which update was charged last. */
  lemma {:induction false} FireAllCharged(s: State, ids: seq<nat>, script: Script, m: Moment)
    ensures FireAll(s, ids, script, m).lastCharged == s.lastCharged
    decreases |ids|
  {
    if ids != [] {
      match Find(s.timers, ids[0]) {
        case None =>
        case Some(t) =>
          if t.repeating {
            RepeatCharged(Advance(s, t), ids[0], CallCount(t), script, m);
          } else {
            var w := s.(timers := Without(s.timers, ids[0]));
            RunCharged(w.(calls := w.calls + 1, events := w.events + [Fired(ids[0])]), script(w.calls), m);
          }
      }
      FireAllCharged(FireId(s, ids[0], script, m), ids[1..], script, m);
    }
  }

  lemma {:induction false} UpdatesValid(s: State, script: Script, ms: seq<Moment>)
    requires Valid(s) && Numbered(s, ms)
    ensures var e := Updates(s, script, ms);
            && Valid(e)
            && (e.lastCharged.Some? ==> e.lastCharged == s.lastCharged || (ms != [] && e.lastCharged.value <= ms[|ms| - 1].updateCount))
  {
    if ms != [] {
      var init, m := ms[..|ms| - 1], ms[|ms| - 1];
      NumberedBefore(s, ms, |ms| - 1);
      UpdatesValid(s, script, init);
      var e := Updates(s, script, init);
      ProcessValid(e, script, m);
      if e.timers != [] {
        FireAllCharged(Count(e, m), Ready(Count(e, m).timers), script, m);
      }
    }
  }

  /** The update to come has not been charged yet. */
  lemma NotYetCharged(s: State, script: Script, ms: seq<Moment>)
    requires Valid(s) && Numbered(s, ms) && ms != []
    ensures Updates(s, script, ms[..|ms| - 1]).lastCharged != Some(ms[|ms| - 1].updateCount)
  {
    NumberedBefore(s, ms, |ms| - 1);
    UpdatesValid(s, script, ms[..|ms| - 1]);
  }

  lemma ListedBelow(s: State, x: nat)
    requires Valid(s) && Find(s.timers, x).Some?
    ensures x < s.next
  {
    assert Words.Opened(0);
    assert At(s, x);
  }

  /** One update charges a timer that is still listed afterwards once, whether or not it fired. */
  lemma ProcessTicks(s: State, script: Script, m: Moment, x: nat)
    requires Valid(s) && x < s.next && s.lastCharged != Some(m.updateCount)
    ensures var r, r' := Look(s, x), Look(Process(s, script, m), x);
            s.next <= Process(s, script, m).next && (r'.timer.Some? ==>
              && r.timer.Some?
              && r'.timer.value == Charged1(r.timer.value, m, false).(remaining := r'.timer.value.remaining)
              && var c := Charge(r.timer.value, m, false); r'.past.total == r.past.total + if c > 0.0 then c else 0.0)
  {
    if s.timers != [] {
      CountValid(s, m);
      assert Keyed(s.timers, s.next) by { assert Words.Opened(0); }
      CountLook(s, m, x);
      FireAllUnticked(Count(s, m), Ready(Count(s, m).timers), script, m, x);
    }
  }

  /** In every run, with any callbacks and however often it fired: a timer that is still listed was charged
    * exactly what the countdown takes. */
  lemma {:induction false} RunTakes(s: State, script: Script, ms: seq<Moment>, x: nat, t: Timer)
    requires Valid(s) && Find(s.timers, x) == Some(t) && Numbered(s, ms)
    ensures var r := Look(Updates(s, script, ms), x);
            x < Updates(s, script, ms).next && (r.timer.Some? ==>
              && r.timer.value == Countdown(t, ms).(remaining := r.timer.value.remaining)
              && r.past.total == Look(s, x).past.total + Taken(t, ms))
  {
    ListedBelow(s, x);
    if ms != [] {
      var init, m := ms[..|ms| - 1], ms[|ms| - 1];
      NumberedBefore(s, ms, |ms| - 1);
      RunTakes(s, script, init, x, t);
      UpdatesValid(s, script, init);
      NotYetCharged(s, script, ms);
      var e := Updates(s, script, init);
      ProcessTicks(e, script, m, x);
      if Find(Updates(s, script, ms).timers, x).Some? {
        SameCharge(Find(e.timers, x).value, Countdown(t, init), m);
      }
    }
  }

  /** What is charged does not depend on the time left. */
  lemma SameCharge(u: Timer, c: Timer, m: Moment)
    requires u == c.(remaining := u.remaining)
    ensures Charge(u, m, false) == Charge(c, m, false)
    ensures Charged1(u, m, false) == Charged1(c, m, false).(remaining := Charged1(u, m, false).remaining)
  {
  }

  /** In measured updates the books of a new timer hold the time since its creation, fired or not. */
  lemma RunExact(s: State, script: Script, ms: seq<Moment>, x: nat, t: Timer, start: real)
    requires Valid(s) && Find(s.timers, x) == Some(t) && Numbered(s, ms)
    requires t.pending && !t.stepCreated && Exact(t.created, t.createdUpdate, ms, start) && start <= t.created < LastTime(ms, start)
    ensures var r := Look(Updates(s, script, ms), x);
            r.timer.Some? ==> r.past.total == Look(s, x).past.total + (LastTime(ms, start) - t.created)
  {
    RunTakes(s, script, ms, x, t);
    MeasuredExactly(t, ms, start);
  }

  // ---- when a timer is due ----

  /** Counted down by these updates, the timer is not due after any of them. */
  ghost predicate NotYetDue(t: Timer, ms: seq<Moment>) {
    Countdown(t, ms).remaining > DUE_EPSILON && (ms != [] ==> NotYetDue(t, ms[..|ms| - 1]))
  }

  /** Until it is due a timer waits, whatever other callbacks do, unless they cancel it. */
  lemma {:induction false} Waits(s: State, script: Script, ms: seq<Moment>, x: nat, t: Timer)
    requires Valid(s) && Find(s.timers, x) == Some(t) && Numbered(s, ms) && NotYetDue(t, ms)
    ensures var r := Look(Updates(s, script, ms), x);
            && r.past.fires == Look(s, x).past.fires
            && (r.timer == Some(Countdown(t, ms)) || r.timer == None)
  {
    if ms != [] {
      var init, m := ms[..|ms| - 1], ms[|ms| - 1];
      NumberedBefore(s, ms, |ms| - 1);
      Waits(s, script, init, x, t);
      UpdatesValid(s, script, init);
      NotYetCharged(s, script, ms);
      RunTakes(s, script, init, x, t);
      WaitsOne(Updates(s, script, init), script, m, x);
    }
  }

  lemma WaitsOne(s: State, script: Script, m: Moment, x: nat)
    requires Valid(s) && s.lastCharged != Some(m.updateCount)
    requires Find(s.timers, x).Some? ==> Charged1(Find(s.timers, x).value, m, false).remaining > DUE_EPSILON
    ensures var r, r' := Look(s, x), Look(Process(s, script, m), x);
            && r'.past.fires == r.past.fires
            && (match r.timer
                case None => true
                case Some(t) => r'.timer == Some(Charged1(t, m, false)) || r'.timer == None)
            && (r.timer == None && x < s.next ==> r'.timer == None)
  {
    if s.timers != [] {
      assert Keyed(s.timers, s.next) by { assert Words.Opened(0); }
      CountLook(s, m, x);
      BatchOthers(s, script, m, x);
      CountValid(s, m);
      var c := Count(s, m);
      assert Keyed(c.timers, c.next) by { assert Words.Opened(0); }
      ReadyIds(c.timers, c.next, x);
      FireAllOthers(c, Ready(c.timers), script, m, x);
      assert Words.Opened(0);
      if x >= s.next {
        assert At(s, x);
      }
    }
  }

  /** ... and in the update that makes it due it has its turn: it is called, unless an earlier callback
    * of this update cancels it first. */
  lemma Fires(s: State, script: Script, m: Moment, x: nat) returns (k: nat)
    requires Valid(s) && s.lastCharged != Some(m.updateCount) && Find(s.timers, x).Some?
    requires Charged1(Find(s.timers, x).value, m, false).remaining <= DUE_EPSILON
    ensures var c := Count(s, m);
            && k < |Ready(c.timers)| && Ready(c.timers)[k] == x
            && var before := FireAll(c, Ready(c.timers)[..k], script, m);
               if Find(before.timers, x) == None then Look(before, x).past.cancelled
               else Look(s, x).past.fires < Look(Process(s, script, m), x).past.fires
  {
    assert Keyed(s.timers, s.next) by { assert Words.Opened(0); }
    CountLook(s, m, x);
    ReadyIds(Count(s, m).timers, s.next, x);
    k :| 0 <= k < |Ready(Count(s, m).timers)| && Ready(Count(s, m).timers)[k] == x;
    BatchExact(s, script, m, k);
  }

  /** Id `x` did not fire in the updates `ms`; the update `m` calls it in its turn, unless it was cancelled
    * before, by the callbacks of earlier updates or by earlier ones of this update. */
  ghost predicate FiresIn(s: State, script: Script, ms: seq<Moment>, m: Moment, x: nat) {
    var e := Updates(s, script, ms);
    && Look(e, x).past.fires == Look(s, x).past.fires
    && (Find(e.timers, x).Some? ==>
          exists k :: 0 <= k < |Ready(Count(e, m).timers)| && Ready(Count(e, m).timers)[k] == x && CalledAt(s, script, ms, m, k))
  }

  ghost predicate CalledAt(s: State, script: Script, ms: seq<Moment>, m: Moment, k: nat)
    requires k < |Ready(Count(Updates(s, script, ms), m).timers)|
  {
    var c := Count(Updates(s, script, ms), m);
    var x := Ready(c.timers)[k];
    var before := FireAll(c, Ready(c.timers)[..k], script, m);
    if Find(before.timers, x) == None then Look(before, x).past.cancelled
    else Look(s, x).past.fires < Look(Updates(s, script, ms + [m]), x).past.fires
  }

  lemma FiresWhenDue(s: State, script: Script, ms: seq<Moment>, m: Moment, x: nat, t: Timer)
    requires Valid(s) && Find(s.timers, x) == Some(t) && Numbered(s, ms + [m])
    requires NotYetDue(t, ms) && Countdown(t, ms + [m]).remaining <= DUE_EPSILON
    ensures FiresIn(s, script, ms, m, x)
  {
    var all := ms + [m];
    assert all[..|ms|] == ms && all[|all| - 1] == m;
    NumberedBefore(s, all, |ms|);
    Waits(s, script, ms, x, t);
    UpdatesValid(s, script, ms);
    NotYetCharged(s, script, all);
    var e := Updates(s, script, ms);
    if Find(e.timers, x).Some? {
      var k := Fires(e, script, m, x);
      assert CalledAt(s, script, ms, m, k);
    }
  }

  /** With measured updates a timer made between two of them fires in the first update that has its delay
    * behind it, and in none before: whatever the callbacks do, unless they cancel it. */
  lemma FiresOnTime(s: State, script: Script, ms: seq<Moment>, m: Moment, x: nat, t: Timer, start: real)
    requires Valid(s) && Find(s.timers, x) == Some(t) && Numbered(s, ms + [m])
    requires t.pending && !t.stepCreated && Exact(t.created, t.createdUpdate, ms + [m], start) && start <= t.created
    requires t.remaining > DUE_EPSILON
    requires forall i :: 0 <= i < |ms| ==> ms[i].updateTime - t.created < t.remaining - DUE_EPSILON
    requires m.updateTime - t.created >= t.remaining - DUE_EPSILON
    ensures FiresIn(s, script, ms, m, x)
  {
    var all := ms + [m];
    assert all[..|ms|] == ms && all[|all| - 1] == m;
    EarlyIsNotDue(t, ms, start);
    MeasuredExactly(t, all, start);
    TakenIs(t, all);
    FiresWhenDue(s, script, ms, m, x, t);
  }

  /** Steps of one size, none of them the one the timer was made in. */
  ghost predicate Steps(t: Timer, ms: seq<Moment>, dt: real) {
    forall i :: 0 <= i < |ms| ==> ms[i].dt == dt && ms[i].fixedStep && ms[i].updateCount != t.createdUpdate
  }

  /** n steps, added up one by one. */
  function Span(n: nat, dt: real): real {
    if n == 0 then 0.0 else Span(n - 1, dt) + dt
  }

  lemma {:induction false} SpanIs(n: nat, dt: real)
    ensures Span(n, dt) == n as real * dt
  {
    if n > 0 {
      SpanIs(n - 1, dt);
      assert n as real * dt == (n - 1) as real * dt + dt;
    }
  }

  lemma {:induction false} SpanGrows(k: nat, n: nat, dt: real)
    requires k < n && 0.0 < dt
    ensures Span(k, dt) + dt <= Span(n, dt)
  {
    if k < n - 1 {
      SpanGrows(k, n - 1, dt);
    }
  }

  lemma {:induction false} StepsTake(t: Timer, ms: seq<Moment>, dt: real)
    requires Steps(t, ms, dt)
    ensures Deltas(ms, t.createdUpdate) == Span(|ms|, dt)
  {
    if ms != [] {
      StepsTake(t, ms[..|ms| - 1], dt);
    }
  }

  lemma AfterSteps(t: Timer, ms: seq<Moment>, dt: real)
    requires !t.pending && Steps(t, ms, dt) && 0.0 < dt
    ensures Countdown(t, ms).remaining == t.remaining - Span(|ms|, dt)
  {
    StepsExactly(t, ms);
    StepsTake(t, ms, dt);
    TakenIs(t, ms);
  }

  lemma {:induction false} FewStepsNotDue(t: Timer, ms: seq<Moment>, n: nat, dt: real)
    requires !t.pending && Steps(t, ms, dt) && |ms| < n && t.remaining == Span(n, dt) && dt > DUE_EPSILON
    ensures NotYetDue(t, ms)
  {
    AfterSteps(t, ms, dt);
    SpanGrows(|ms|, n, dt);
    if ms != [] {
      FewStepsNotDue(t, ms[..|ms| - 1], n, dt);
    }
  }

  lemma StepsBefore(t: Timer, ms: seq<Moment>, m: Moment, dt: real)
    requires Steps(t, ms + [m], dt)
    ensures Steps(t, ms, dt)
  {
    assert forall i :: 0 <= i < |ms| ==> (ms + [m])[i] == ms[i];
  }

  /** A timer made in a fixed step fires on exactly the n-th step after it when its delay is n steps: one of
    * a second at 60 steps a second on the 60th. */
  lemma FiresOnStep(s: State, script: Script, ms: seq<Moment>, m: Moment, x: nat, t: Timer, dt: real)
    requires Valid(s) && Find(s.timers, x) == Some(t) && Numbered(s, ms + [m])
    requires !t.pending && Steps(t, ms + [m], dt) && dt > DUE_EPSILON
    requires t.remaining == (|ms| + 1) as real * dt
    ensures FiresIn(s, script, ms, m, x)
  {
    var all := ms + [m];
    SpanIs(|all|, dt);
    StepsBefore(t, ms, m, dt);
    FewStepsNotDue(t, ms, |all|, dt);
    AfterSteps(t, all, dt);
    FiresWhenDue(s, script, ms, m, x, t);
  }

  lemma {:induction false} EarlyIsNotDue(t: Timer, ms: seq<Moment>, start: real)
    requires t.pending && !t.stepCreated && Exact(t.created, t.createdUpdate, ms, start) && start <= t.created && t.remaining > DUE_EPSILON
    requires forall i :: 0 <= i < |ms| ==> ms[i].updateTime - t.created < t.remaining - DUE_EPSILON
    ensures NotYetDue(t, ms)
  {
    MeasuredExactly(t, ms, start);
    TakenIs(t, ms);
    if ms != [] {
      EarlyIsNotDue(t, ms[..|ms| - 1], start);
    }
  }

  // ---- from the call that makes a timer to its firing ----

  /** A timer made between updates, or in a measured one, is not due before its delay has passed since it was
    * made, or since the time of the update it was made in if that is later; the first update after that
    * fires it. */
  lemma CallAfterFires(s: State, delay: real, now: real, m0: Moment, script: Script, ms: seq<Moment>, m: Moment, start: real)
    requires Valid(s) && !(m0.inUpdate && m0.fixedStep) && delay > DUE_EPSILON
    requires var s' := Do(s, CallAfter(delay, now), m0);
             var made := if m0.inUpdate && now < m0.updateTime then m0.updateTime else now;
             && Numbered(s', ms + [m]) && Exact(made, m0.updateCount, ms + [m], start) && start <= made
             && (forall i :: 0 <= i < |ms| ==> ms[i].updateTime - made < delay - DUE_EPSILON)
             && m.updateTime - made >= delay - DUE_EPSILON
    ensures FiresIn(Do(s, CallAfter(delay, now), m0), script, ms, m, s.next)
  {
    var s' := Do(s, CallAfter(delay, now), m0);
    var t := Made(s, CallAfter(delay, now), m0);
    FiresOnTime(s', script, ms, m, s.next, t, start);
  }

  /** The same for the first call of a repeating timer, catching up or not. */
  lemma CallEveryFires(s: State, op: Op, m0: Moment, script: Script, ms: seq<Moment>, m: Moment, start: real)
    requires Valid(s) && (op.CallEvery? || op.CallEveryCatchUp?) && !(m0.inUpdate && m0.fixedStep) && op.interval > DUE_EPSILON
    requires var s' := Do(s, op, m0);
             var made := if m0.inUpdate && op.now < m0.updateTime then m0.updateTime else op.now;
             && Numbered(s', ms + [m]) && Exact(made, m0.updateCount, ms + [m], start) && start <= made
             && (forall i :: 0 <= i < |ms| ==> ms[i].updateTime - made < op.interval - DUE_EPSILON)
             && m.updateTime - made >= op.interval - DUE_EPSILON
    ensures FiresIn(Do(s, op, m0), script, ms, m, s.next)
  {
    var t := Made(s, op, m0);
    FiresOnTime(Do(s, op, m0), script, ms, m, s.next, t, start);
  }

  /** One made in a fixed step, with a delay of n steps, fires on exactly the n-th step after it. */
  lemma CallAfterFiresOnStep(s: State, now: real, m0: Moment, script: Script, ms: seq<Moment>, m: Moment, dt: real)
    requires Valid(s) && m0.inUpdate && m0.fixedStep && dt > DUE_EPSILON
    requires var s' := Do(s, CallAfter((|ms| + 1) as real * dt, now), m0);
             Numbered(s', ms + [m])
    requires forall i :: 0 <= i <= |ms| ==>
               (ms + [m])[i].dt == dt && (ms + [m])[i].fixedStep && (ms + [m])[i].updateCount != m0.updateCount
    ensures FiresIn(Do(s, CallAfter((|ms| + 1) as real * dt, now), m0), script, ms, m, s.next)
  {
    var op := CallAfter((|ms| + 1) as real * dt, now);
    var t := Made(s, op, m0);
    FiresOnStep(Do(s, op, m0), script, ms, m, s.next, t, dt);
  }

  /** What each call asks for is what the new timer is. */
  lemma Made(s: State, op: Op, m: Moment) returns (t: Timer)
    requires Valid(s) && (op.CallAfter? || op.CallEvery? || op.CallEveryCatchUp?)
    ensures Valid(Do(s, op, m)) && Find(Do(s, op, m).timers, s.next) == Some(t)
    ensures t.remaining == if op.CallAfter? then op.delay else op.interval
    ensures t.repeating == !op.CallAfter? && (t.repeating ==> t.interval == op.interval)
    ensures t.catchUp == op.CallEveryCatchUp? && (t.catchUp ==> t.maxCatchUp == op.maxCatchUp)
    ensures t.pending == !(m.inUpdate && m.fixedStep) && t.stepCreated == !t.pending && t.createdUpdate == m.updateCount
    ensures t.created == if m.inUpdate && op.now < m.updateTime then m.updateTime else op.now
  {
    DoValid(s, op, m);
    assert Keyed(s.timers, s.next) by { assert Words.Opened(0); }
    t := if op.CallAfter? then NewTimer(s.next, op.delay, 0.0, false, false, 0, op.now, m)
         else if op.CallEvery? then NewTimer(s.next, op.interval, op.interval, true, false, 0, op.now, m)
         else NewTimer(s.next, op.interval, op.interval, true, true, op.maxCatchUp, op.now, m);
    AddLook(s, t, s.next);
  }

  // ---- what callbacks do ----

  /** The operations that hand out an id. */
  function Adds(ops: seq<Op>): nat {
    if ops == [] then 0 else (if ops[0].Cancel? || ops[0].CancelAll? then 0 else 1) + Adds(ops[1..])
  }

  /** A callback that runs adds what its body adds ... */
  lemma {:induction false} RunAdds(s: State, ops: seq<Op>, m: Moment)
    ensures Run(s, ops, m).next == s.next + Adds(ops)
    decreases |ops|
  {
    if ops != [] {
      RunAdds(Do(s, ops[0], m), ops[1..], m);
    }
  }

  /** ... and cancels what its body cancels, for good. */
  lemma {:induction false} RunCancels(s: State, ops: seq<Op>, m: Moment, y: nat)
    requires Keyed(s.timers, s.next) && Sound(s, y) && y < s.next && Cancel(y) in ops
    ensures Find(Run(s, ops, m).timers, y) == None
    decreases |ops|
  {
    assert Words.Opened(0);
    var s1 := Do(s, ops[0], m);
    DoKeeps(s, ops[0], m, y);
    if ops[0] == Cancel(y) {
      CancelLook(s, y, y);
      RunKeeps(s1, ops[1..], m, y);
    } else {
      RunCancels(s1, ops[1..], m, y);
    }
  }

  /** The call that a due timer makes in its turn runs the body of that call. */
  lemma TurnCancels(s: State, id: nat, script: Script, m: Moment, y: nat)
    requires Valid(s) && Find(s.timers, id).Some? && y < s.next && y != id && Cancel(y) in script(s.calls)
    ensures Find(FireId(s, id, script, m).timers, y) == None
  {
    assert Words.Opened(0);
    assert At(s, id) && At(s, y);
    var t := Find(s.timers, id).value;
    if t.repeating {
      AdvanceKeeps(s, t, id);
      AdvanceKeeps(s, t, y);
      FirstCallCancels(Advance(s, t), id, CallCount(t), script, m, y);
    } else {
      KeyedWithout(s.timers, s.next, id);
      FindWithout(s.timers, id, y);
      CallCancels(s.(timers := Without(s.timers, id)), id, script, m, y);
    }
  }

  lemma CallCancels(s: State, id: nat, script: Script, m: Moment, y: nat)
    requires Keyed(s.timers, s.next) && Sound(s, y) && y < s.next && y != id && Cancel(y) in script(s.calls)
    ensures Find(Call(s, id, script, m).timers, y) == None
  {
    Snoc(s.events, Fired(id), y);
    RunCancels(s.(calls := s.calls + 1, events := s.events + [Fired(id)]), script(s.calls), m, y);
  }

  lemma FirstCallCancels(s: State, id: nat, n: nat, script: Script, m: Moment, y: nat)
    requires Keyed(s.timers, s.next) && Sound(s, y) && Sound(s, id) && y < s.next && y != id && n > 0
    requires Find(s.timers, id).Some? && Find(s.timers, id).value.repeating && Cancel(y) in script(s.calls)
    ensures Find(Repeat(s, id, n, script, m).timers, y) == None
  {
    assert Words.Opened(0);
    var s1 := Call(s, id, script, m);
    CallCancels(s, id, script, m, y);
    CallKeeps(s, id, script, m, y);
    CallKeeps(s, id, script, m, id);
    if Find(s1.timers, id).Some? {
      StillListed(s, s1, id);
      RepeatKeeps(s1, id, n - 1, script, m, y);
    }
  }

  /** A due timer that an earlier callback of the same batch cancels does not fire. */
  lemma CancelledInBatch(s: State, script: Script, m: Moment, k: nat, l: nat)
    requires Valid(s) && s.timers != [] && k < l < |Ready(Count(s, m).timers)|
    requires var c := Count(s, m);
             var before := FireAll(c, Ready(c.timers)[..k], script, m);
             Find(before.timers, Ready(c.timers)[k]).Some? && Cancel(Ready(c.timers)[l]) in script(before.calls)
    ensures var y := Ready(Count(s, m).timers)[l];
            Look(Process(s, script, m), y).past.fires == Look(s, y).past.fires
  {
    var c := Count(s, m);
    CountValid(s, m);
    DueIsListed(c, k);
    DueIsListed(c, l);
    NoRepeatMeans(Ready(c.timers), k);
    assert Ready(c.timers)[k + 1..][l - k - 1] == Ready(c.timers)[l];
    GoneBefore(c, Ready(c.timers), script, m, k, l);
    BatchExact(s, script, m, l);
  }

  lemma GoneBefore(c: State, ids: seq<nat>, script: Script, m: Moment, k: nat, l: nat)
    requires Valid(c) && k < l < |ids| && ids[l] < c.next && ids[k] != ids[l]
    requires var before := FireAll(c, ids[..k], script, m);
             Find(before.timers, ids[k]).Some? && Cancel(ids[l]) in script(before.calls)
    ensures Find(FireAll(c, ids[..l], script, m).timers, ids[l]) == None
  {
    var before := FireAll(c, ids[..k], script, m);
    FireAllValid(c, ids[..k], script, m);
    FireAllUnticked(c, ids[..k], script, m, ids[l]);
    TurnCancels(before, ids[k], script, m, ids[l]);
    FireValid(before, ids[k], script, m);
    FireUnticked(before, ids[k], script, m, ids[l]);
    FireAllUnticked(FireId(before, ids[k], script, m), ids[k + 1..l], script, m, ids[l]);
    FireAllSplit(c, ids[..k], ids[k..l], script, m);
    assert ids[..k] + ids[k..l] == ids[..l] && ids[k..l][0] == ids[k] && ids[k..l][1..] == ids[k + 1..l];
  }
}
