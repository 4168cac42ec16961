// The output capture of tools/check_build_warnings.py as a state machine: a
// child process, background processes that inherited its output pipe, a reader
// thread with a deadline, a bounded queue, and the consumer that writes the log.
// Every run is an arbitrary interleaving of single steps.
module Capture {
  import opened Basics
  import Words

  const QUEUE_SIZE := 8
  const OUTPUT_LIMIT := 64 * 1024
  const EXIT_GRACE := 1000  // milliseconds
  const NOTICE := "\nbuild output capture incomplete: a background process kept the output open\n"

  datatype Item = Chunk(bytes: string) | Error | End

  /** The pipe and the processes that hold its writing end. */
  datatype World = World(
    history: string,   // every byte written to the pipe, by anyone
    childEnd: nat,       // how far the child's last write reached
    childOpen: bool,     // the child holds the pipe
    exited: bool,
    exitAt: int,         // when it exited
    status: int,
    holders: nat,        // background processes that hold the pipe
    now: int)

  datatype ReaderPc =
    | AtCheck | AtPoll | AtSnapshot | AtDeadline | AtClosing
    | AtRead(closing: bool)
    | AtPut(item: Item, closing: bool, tried: bool)
    | AtAfter(closing: bool)
    | Finished

  datatype Reader = Reader(pc: ReaderPc, taken: nat, deadline: Option<int>, remaining: nat, erred: bool, told: bool)

  datatype Outcome = Returned(status: int) | Raised

  datatype ConsumerPc =
    | AtGet | AtWrite(bytes: string) | AtJoin | AtWait | AtNotice(code: int)
    | AtKill | AtReap
    | AtStop(outcome: Outcome) | AtLast(outcome: Outcome) | Over(outcome: Outcome)

  datatype Consumer = Consumer(pc: ConsumerPc, body: string, notice: string)

  datatype State = State(w: World, r: Reader, c: Consumer, queue: seq<Item>, stopped: bool, incomplete: bool)

  datatype Action =
    | ChildWrites(bytes: string) | ChildCloses | ChildExits(status: int)
    | HolderStarts | HolderWrites(bytes: string) | HolderCloses
    | Tick(delta: nat)
    | ReaderSteps(n: nat, fails: bool)
    | ConsumerSteps(fails: bool, part: nat)

  function Start(): State {
    State(World([], 0, true, false, 0, 0, 0, 0), Reader(AtCheck, 0, None, 0, false, false),
          Consumer(AtGet, [], []), [], false, false)
  }

  function InPipe(s: State): string
    requires s.r.taken <= |s.w.history|
  {
    s.w.history[s.r.taken..]
  }

  // ---- the processes ----

  predicate WorldCan(w: World, a: Action) {
    match a
    case ChildWrites(_) => w.childOpen && !w.exited
    case ChildCloses => w.childOpen
    case ChildExits(_) => !w.exited
    case HolderStarts => w.childOpen || w.holders > 0
    case HolderWrites(_) => w.holders > 0
    case HolderCloses => w.holders > 0
    case Tick(_) => true
    case _ => false
  }

  function WorldDoes(w: World, a: Action): World
    requires WorldCan(w, a)
  {
    match a
    case ChildWrites(b) => w.(history := w.history + b, childEnd := |w.history + b|)
    case ChildCloses => w.(childOpen := false)
    case ChildExits(status) => w.(exited := true, exitAt := w.now, childOpen := false, status := status)
    case HolderStarts => w.(holders := w.holders + 1)
    case HolderWrites(b) => w.(history := w.history + b)
    case HolderCloses => w.(holders := w.holders - 1)
    case Tick(d) => w.(now := w.now + d)
  }

  // ---- the reader thread ----

  /** After `enqueue` has returned, whether it handed the item over or dropped it. */
  function AfterPut(r: Reader, item: Item, closing: bool): Reader {
    match item
    case Chunk(b) => r.(pc := AtAfter(closing), remaining := if r.remaining > |b| then r.remaining - |b| else 0)
    case Error => r.(pc := AtPut(End, false, false))
    case End => r.(pc := Finished)
  }

  predicate ReaderCan(s: State, n: nat) {
    && s.r.pc != Finished && s.r.taken <= |s.w.history|
    && (s.r.pc.AtRead? && InPipe(s) != [] ==> 0 < n <= |InPipe(s)| && n <= OUTPUT_LIMIT)
  }

  function ReadStep(s: State, closing: bool, n: nat): State
    requires ReaderCan(s, n) && s.r.pc == AtRead(closing)
  {
    if InPipe(s) != [] then
      s.(r := s.r.(pc := AtPut(Chunk(InPipe(s)[..n]), closing, false), taken := s.r.taken + n))
    else if !s.w.childOpen && s.w.holders == 0 then s.(r := s.r.(pc := AtPut(End, false, false)))
    else s.(r := s.r.(pc := AtAfter(closing)))
  }

  /** One round of `enqueue`: a look at the stop flag, then a try. */
  function PutStep(s: State, item: Item, closing: bool, tried: bool): State {
    if !tried then
      if s.stopped then s.(r := AfterPut(s.r, item, closing))
      else s.(r := s.r.(pc := AtPut(item, closing, true)))
    else if |s.queue| < QUEUE_SIZE then s.(r := AfterPut(s.r, item, closing), queue := s.queue + [item])
    else s.(r := s.r.(pc := AtPut(item, closing, false)))
  }

  function FailStep(s: State): State {
    s.(r := s.r.(pc := AtPut(Error, false, false), erred := true))
  }

  function ReaderDoes(s: State, n: nat, fails: bool): State
    requires ReaderCan(s, n)
  {
    var r := s.r;
    match r.pc
    case AtCheck => s.(r := if s.stopped then r.(pc := AtPut(End, false, false), told := true) else r.(pc := AtPoll))
    case AtPoll => s.(r := r.(pc := if r.deadline == None && s.w.exited then AtSnapshot else AtClosing))
    case AtSnapshot => if fails then FailStep(s) else s.(r := r.(pc := AtDeadline, remaining := |InPipe(s)|))
    case AtDeadline => s.(r := r.(pc := AtClosing, deadline := Some(s.w.now + EXIT_GRACE)))
    case AtClosing =>
      s.(r := r.(pc := AtRead(r.deadline.Some? && r.remaining == 0 && s.w.now >= r.deadline.value)))
    case AtRead(closing) => if fails then FailStep(s) else ReadStep(s, closing, n)
    case AtPut(item, closing, tried) => PutStep(s, item, closing, tried)
    case AtAfter(closing) =>
      if closing then s.(r := r.(pc := AtPut(End, false, false)), incomplete := true)
      else s.(r := r.(pc := AtCheck))
  }

  // ---- the consumer ----

  predicate ConsumerCan(s: State, fails: bool, part: nat) {
    match s.c.pc
    case AtGet => fails || s.queue != []
    case AtWrite(b) => part <= |b|
    case AtJoin => fails || s.r.pc == Finished
    case AtWait => fails || s.w.exited
    case AtNotice(_) => part <= |NOTICE|
    case AtKill => true
    case AtReap => s.w.exited
    case AtStop(_) => true
    case AtLast(_) => s.r.pc == Finished
    case Over(_) => false
  }

  function GetStep(s: State): State
    requires s.queue != []
  {
    var rest := s.queue[1..];
    match s.queue[0]
    case Chunk(b) => s.(c := s.c.(pc := AtWrite(b)), queue := rest)
    case Error => s.(c := s.c.(pc := AtKill), queue := rest)
    case End => s.(c := s.c.(pc := AtJoin), queue := rest)
  }

  function ConsumerDoes(s: State, fails: bool, part: nat): State
    requires ConsumerCan(s, fails, part)
  {
    var c := s.c;
    match c.pc
    case AtGet => if fails then s.(c := c.(pc := AtKill)) else GetStep(s)
    case AtWrite(b) =>
      if fails then s.(c := c.(pc := AtKill, body := c.body + b[..part]))
      else s.(c := c.(pc := AtGet, body := c.body + b))
    case AtJoin => s.(c := c.(pc := if fails then AtKill else AtWait))
    case AtWait => s.(c := c.(pc := if fails then AtKill else AtNotice(s.w.status)))
    case AtNotice(code) =>
      if fails then s.(c := c.(pc := AtKill, notice := if s.incomplete then NOTICE[..part] else ""))
      else if s.incomplete then s.(c := c.(pc := AtStop(Returned(if code == 0 then 1 else code)), notice := NOTICE))
      else s.(c := c.(pc := AtStop(Returned(code))))
    case AtKill => s.(c := c.(pc := AtReap))
    case AtReap => s.(c := c.(pc := AtStop(Raised)))
    case AtStop(o) => s.(c := c.(pc := AtLast(o)), stopped := true)
    case AtLast(o) => s.(c := c.(pc := Over(o)))
  }

  // ---- runs ----

  predicate Can(s: State, a: Action) {
    match a
    case ReaderSteps(n, _) => ReaderCan(s, n)
    case ConsumerSteps(fails, part) => ConsumerCan(s, fails, part)
    case _ => WorldCan(s.w, a)
  }

  function Does(s: State, a: Action): State
    requires Can(s, a)
  {
    match a
    case ReaderSteps(n, fails) => ReaderDoes(s, n, fails)
    case ConsumerSteps(fails, part) => ConsumerDoes(s, fails, part)
    case _ => s.(w := WorldDoes(s.w, a))
  }

  /** The state after some interleaving, if every step of it is possible. */
  function RunFrom(s: State, actions: seq<Action>): Option<State>
    decreases |actions|
  {
    if actions == [] then Some(s)
    else if Can(s, actions[0]) then RunFrom(Does(s, actions[0]), actions[1..])
    else None
  }

  function Run(actions: seq<Action>): Option<State> {
    RunFrom(Start(), actions)
  }

  /** What `capture` returns to its caller: a signal's negative status becomes 128 plus its number. */
  function ExitCode(o: Outcome): int
    requires o.Returned?
  {
    if o.status >= 0 then o.status else 128 - o.status
  }

  // ---- the invariants ----

  /** The consumer has met an exception; what is queued after that is lost on purpose. */
  predicate Failed(s: State) {
    match s.c.pc
    case AtKill => true
    case AtReap => true
    case AtStop(o) => o.Raised?
    case AtLast(o) => o.Raised?
    case Over(o) => o.Raised?
    case _ => false
  }

  function Payload(i: Item): string {
    if i.Chunk? then i.bytes else ""
  }

  function BytesOf(q: seq<Item>): string {
    if q == [] then "" else Payload(q[0]) + BytesOf(q[1..])
  }

  function InReader(r: Reader): string {
    if r.pc.AtPut? && r.pc.item.Chunk? then r.pc.item.bytes else ""
  }

  function InConsumer(c: Consumer): string {
    if c.pc.AtWrite? then c.pc.bytes else ""
  }

  function Rank(i: Item): nat {
    match i case Chunk(_) => 0 case Error => 1 case End => 2
  }

  function LastRank(q: seq<Item>): nat {
    if q == [] then 0 else Rank(q[|q| - 1])
  }

  /** Chunks first, then at most one error, then at most one end. */
  predicate Ordered(q: seq<Item>) {
    |q| >= 2 ==> Rank(q[0]) <= Rank(q[1]) && (Rank(q[0]) > 0 ==> Rank(q[0]) < Rank(q[1])) && Ordered(q[1..])
  }

  predicate WorldOk(s: State) {
    && s.w.childEnd <= |s.w.history|
    && (s.w.exited ==> !s.w.childOpen)
    && s.r.taken <= |s.w.history|
  }

  predicate Closing(pc: ReaderPc) {
    match pc
    case AtRead(c) => c
    case AtPut(_, c, _) => c
    case AtAfter(c) => c
    case _ => false
  }

  predicate Ended(r: Reader) {
    r.pc == Finished || (r.pc.AtPut? && r.pc.item.End?)
  }

  /** The reader's bookkeeping: with the snapshot taken, what is left of the child's
    * bytes is counted by `remaining`; a reader that ended by itself has all of them. */
  predicate ReaderOk(s: State) {
    var r := s.r;
    && (r.pc == AtDeadline || r.deadline.Some? ==> s.w.exited && r.taken - |InReader(r)| + r.remaining >= s.w.childEnd)
    && r.taken - |InReader(r)| + r.remaining <= |s.w.history|
    && (r.pc == AtSnapshot ==> s.w.exited && r.deadline == None)
    && (r.pc == AtDeadline ==> r.deadline == None)
    && (Closing(r.pc) ==> r.deadline.Some? && r.remaining == 0)
    && (r.pc.AtPut? && !r.pc.item.Chunk? ==> !r.pc.closing)
    && (r.pc.AtPut? && r.pc.item.Error? ==> r.erred)
    && (r.erred ==> Ended(r) || (r.pc.AtPut? && r.pc.item.Error?))
    && (s.incomplete ==> Ended(r) && !r.erred)
    && (r.told ==> s.stopped && Ended(r))
    && (Ended(r) && !r.erred && !r.told ==> !s.w.childOpen && r.taken >= s.w.childEnd)
    && (Ended(r) && !r.erred && !r.told && !s.incomplete ==> s.w.holders == 0 && r.taken == |s.w.history|)
    && |s.queue| <= QUEUE_SIZE
  }

  /** The consumer got the end marker: its loop is over and nothing was lost. */
  predicate PastEnd(pc: ConsumerPc) {
    match pc
    case AtJoin => true
    case AtWait => true
    case AtNotice(_) => true
    case AtStop(o) => o.Returned?
    case AtLast(o) => o.Returned?
    case Over(o) => o.Returned?
    case _ => false
  }

  /** What is queued when the consumer has not met the end yet. */
  predicate QueueOk(s: State) {
    var r := s.r;
    && Ordered(s.queue)
    && LastRank(s.queue) == (if r.pc == Finished then 2 else if Ended(r) && r.erred then 1 else 0)
    && (r.erred && Ended(r) ==> Error in s.queue)
  }

  /** File, queue and hands together hold exactly the bytes read, in order. */
  predicate Flow(s: State) {
    s.r.taken <= |s.w.history| &&
    s.c.body + InConsumer(s.c) + BytesOf(s.queue) + InReader(s.r) == s.w.history[..s.r.taken]
  }

  predicate ConsumerOk(s: State) {
    && (s.stopped <==> s.c.pc.AtLast? || s.c.pc.Over?)
    && (!Failed(s) ==>
          && Flow(s)
          && (if PastEnd(s.c.pc) then s.queue == [] && s.r.pc == Finished && !s.r.erred && !s.r.told else QueueOk(s))
          && OutcomeOk(s))
  }

  predicate OutcomeOk(s: State) {
    match s.c.pc
    case AtStop(Returned(code)) => Settled(s, code)
    case AtLast(Returned(code)) => Settled(s, code)
    case Over(Returned(code)) => Settled(s, code)
    case AtNotice(code) => s.w.exited && code == s.w.status && s.c.notice == ""
    case _ => s.c.notice == ""
  }

  predicate Settled(s: State, code: int) {
    && s.w.exited
    && code == (if s.incomplete && s.w.status == 0 then 1 else s.w.status)
    && s.c.notice == (if s.incomplete then NOTICE else "")
  }

  /** Sealed: `InvNow`. */
  ghost predicate Inv(s: State) {
    forall o: nat {:trigger Words.Opened(o)} :: Words.Opened(o) ==> InvNow(s)
  }

  predicate InvNow(s: State) {
    WorldOk(s) && ReaderOk(s) && ConsumerOk(s)
  }

  lemma WorldKeeps(s: State, a: Action)
    requires Inv(s) && WorldCan(s.w, a)
    ensures Inv(s.(w := WorldDoes(s.w, a)))
  {
    assert Words.Opened(0);
    var w' := WorldDoes(s.w, a);
    assert w'.history[..s.r.taken] == s.w.history[..s.r.taken];
  }

  lemma Regroup(a: string, b: string, c: string)
    ensures a + b + c == a + (b + c)
  {
  }

  lemma {:induction false} PushBytes(q: seq<Item>, x: Item)
    ensures BytesOf(q + [x]) == BytesOf(q) + Payload(x)
  {
    if q == [] {
      assert q + [x] == [x] && BytesOf([x][1..]) == "";
    } else {
      assert (q + [x])[1..] == q[1..] + [x];
      PushBytes(q[1..], x);
      Regroup(Payload(q[0]), BytesOf(q[1..]), Payload(x));
    }
  }

  lemma {:induction false} PushOrder(q: seq<Item>, x: Item)
    requires Ordered(q) && LastRank(q) <= Rank(x) && (LastRank(q) > 0 ==> LastRank(q) < Rank(x))
    ensures Ordered(q + [x]) && LastRank(q + [x]) == Rank(x)
  {
    if |q| > 1 {
      assert (q + [x])[1..] == q[1..] + [x] && q[|q| - 1] == q[1..][|q| - 2];
      PushOrder(q[1..], x);
    } else {
      assert |q + [x]| >= 2 ==> (q + [x])[1..] == [x];
    }
  }

  lemma {:induction false} Pop(q: seq<Item>)
    requires q != [] && Ordered(q)
    ensures Ordered(q[1..]) && (LastRank(q[1..]) == if |q| == 1 then 0 else LastRank(q))
    ensures Rank(q[0]) == 2 ==> q == [End]
    ensures Rank(q[0]) <= LastRank(q)
    decreases |q|
  {
    if |q| > 1 {
      Pop(q[1..]);
    }
  }

  lemma ReadKeeps(s: State, closing: bool, n: nat)
    requires WorldOk(s) && ReaderOk(s) && ReaderCan(s, n) && s.r.pc == AtRead(closing)
    ensures WorldOk(ReadStep(s, closing, n)) && ReaderOk(ReadStep(s, closing, n))
    ensures Flow(s) ==> Flow(ReadStep(s, closing, n))
  {
    if InPipe(s) != [] {
      assert s.w.history[..s.r.taken] + InPipe(s)[..n] == s.w.history[..s.r.taken + n];
    }
  }

  lemma PutKeepsReader(s: State, item: Item, closing: bool, tried: bool)
    requires WorldOk(s) && ReaderOk(s) && s.r.pc == AtPut(item, closing, tried)
    ensures WorldOk(PutStep(s, item, closing, tried)) && ReaderOk(PutStep(s, item, closing, tried))
  {
  }

  lemma PutKeepsFlow(s: State, item: Item, closing: bool, tried: bool)
    requires s.r.pc == AtPut(item, closing, tried) && !s.stopped && Flow(s)
    ensures Flow(PutStep(s, item, closing, tried))
  {
    var s' := PutStep(s, item, closing, tried);
    if s'.queue != s.queue {
      PushBytes(s.queue, item);
      HandedOver(s.c.body + InConsumer(s.c), BytesOf(s.queue), Payload(item), InReader(s.r));
    }
  }

  lemma HandedOver(before: string, queued: string, payload: string, hand: string)
    requires hand == payload
    ensures before + queued + hand == before + (queued + payload) + ""
  {
  }

  lemma PutKeepsQueue(s: State, item: Item, closing: bool, tried: bool)
    requires s.r.pc == AtPut(item, closing, tried) && !s.stopped && ReaderOk(s) && QueueOk(s)
    ensures QueueOk(PutStep(s, item, closing, tried))
  {
    PushOrder(s.queue, item);
  }

  lemma LightKeepsReader(s: State, n: nat, fails: bool)
    requires WorldOk(s) && ReaderOk(s) && ReaderCan(s, n) && !s.r.pc.AtPut? && (s.r.pc.AtRead? ==> fails)
    ensures WorldOk(ReaderDoes(s, n, fails)) && ReaderOk(ReaderDoes(s, n, fails))
  {
  }

  lemma LightKeeps(s: State, n: nat, fails: bool)
    requires WorldOk(s) && ReaderOk(s) && ReaderCan(s, n) && !s.r.pc.AtPut? && (s.r.pc.AtRead? ==> fails)
    ensures Flow(s) ==> Flow(ReaderDoes(s, n, fails))
    ensures QueueOk(s) ==> QueueOk(ReaderDoes(s, n, fails))
  {
  }

  /** While the consumer has not failed, an unfinished reader means that it still reads the queue. */
  lemma StillReading(s: State)
    requires ConsumerOk(s) && s.r.pc != Finished && !Failed(s)
    ensures !s.stopped && (s.c.pc.AtGet? || s.c.pc.AtWrite?)
  {
  }

  /** A reader step that keeps the flow and the queue keeps what the consumer relies on. */
  lemma Compose(s: State, s': State)
    requires ConsumerOk(s) && s'.c == s.c && s'.stopped == s.stopped && s.r.pc != Finished
    requires !Failed(s) ==> Flow(s') && QueueOk(s')
    ensures ConsumerOk(s')
  {
    if !Failed(s) {
      StillReading(s);
    }
  }

  lemma ReaderKeeps(s: State, n: nat, fails: bool)
    requires Inv(s) && ReaderCan(s, n)
    ensures Inv(ReaderDoes(s, n, fails))
  {
    if s.r.pc.AtPut? {
      PutKeeps(s, s.r.pc.item, s.r.pc.closing, s.r.pc.tried);
    } else if s.r.pc.AtRead? && !fails {
      ReadKeepsAll(s, s.r.pc.closing, n);
    } else {
      LightKeepsAll(s, n, fails);
    }
  }

  lemma PutKeeps(s: State, item: Item, closing: bool, tried: bool)
    requires Inv(s) && s.r.pc == AtPut(item, closing, tried)
    ensures Inv(PutStep(s, item, closing, tried))
  {
    assert Words.Opened(0);
    PutKeepsReader(s, item, closing, tried);
    if !Failed(s) {
      StillReading(s);
      PutKeepsFlow(s, item, closing, tried);
      PutKeepsQueue(s, item, closing, tried);
    }
    Compose(s, PutStep(s, item, closing, tried));
  }

  lemma ReadKeepsAll(s: State, closing: bool, n: nat)
    requires Inv(s) && ReaderCan(s, n) && s.r.pc == AtRead(closing)
    ensures Inv(ReadStep(s, closing, n))
  {
    assert Words.Opened(0);
    ReadKeeps(s, closing, n);
    if !Failed(s) {
      StillReading(s);
    }
    Compose(s, ReadStep(s, closing, n));
  }

  lemma LightKeepsAll(s: State, n: nat, fails: bool)
    requires Inv(s) && ReaderCan(s, n) && !s.r.pc.AtPut? && (s.r.pc.AtRead? ==> fails)
    ensures Inv(ReaderDoes(s, n, fails))
  {
    assert Words.Opened(0);
    LightKeepsReader(s, n, fails);
    LightKeeps(s, n, fails);
    if !Failed(s) {
      StillReading(s);
    }
    Compose(s, ReaderDoes(s, n, fails));
  }

  lemma GetKeepsFlow(s: State)
    requires s.c.pc == AtGet && s.queue != [] && Flow(s) && !s.queue[0].Error?
    ensures Flow(GetStep(s))
  {
    TakenOut(s.c.body, Payload(s.queue[0]), BytesOf(s.queue[1..]), InReader(s.r));
  }

  lemma TakenOut(body: string, payload: string, rest: string, hand: string)
    ensures body + "" + (payload + rest) + hand == body + payload + rest + hand
    ensures body + "" == body
  {
  }

  lemma GetKeepsQueue(s: State)
    requires s.c.pc == AtGet && s.queue != [] && QueueOk(s) && ReaderOk(s) && !s.queue[0].Error?
    ensures if s.queue[0].Chunk? then QueueOk(GetStep(s))
            else s.queue == [End] && s.r.pc == Finished && !s.r.erred
  {
    Pop(s.queue);
  }

  lemma GetKeeps(s: State)
    requires Inv(s) && s.c.pc == AtGet && s.queue != []
    ensures ConsumerOk(GetStep(s)) && ReaderOk(GetStep(s))
  {
    assert Words.Opened(0);
    GetKeepsReader(s);
    if !s.queue[0].Error? {
      GetKeepsFlow(s);
      GetKeepsQueue(s);
    }
  }

  lemma GetKeepsReader(s: State)
    requires ReaderOk(s) && s.c.pc == AtGet && s.queue != []
    ensures ReaderOk(GetStep(s))
  {
  }

  lemma ConsumerKeeps(s: State, fails: bool, part: nat)
    requires Inv(s) && ConsumerCan(s, fails, part)
    ensures Inv(ConsumerDoes(s, fails, part))
  {
    assert Words.Opened(0);
    if s.c.pc.AtGet? && !fails {
      GetKeeps(s);
    } else if s.c.pc.AtWrite? {
      WriteKeeps(s, fails, part);
    } else {
      LateKeeps(s, fails, part);
    }
  }

  lemma WriteKeeps(s: State, fails: bool, part: nat)
    requires Inv(s) && ConsumerCan(s, fails, part) && s.c.pc.AtWrite?
    ensures Inv(ConsumerDoes(s, fails, part))
  {
    assert Words.Opened(0);
  }

  lemma LateKeeps(s: State, fails: bool, part: nat)
    requires Inv(s) && ConsumerCan(s, fails, part) && !s.c.pc.AtWrite? && (s.c.pc.AtGet? ==> fails)
    ensures Inv(ConsumerDoes(s, fails, part))
  {
    if PastEnd(s.c.pc) && !fails {
      PastKeeps(s, part);
    } else {
      FailureKeeps(s, fails, part);
    }
  }

  lemma PastKeeps(s: State, part: nat)
    requires Inv(s) && ConsumerCan(s, false, part) && PastEnd(s.c.pc)
    ensures Inv(ConsumerDoes(s, false, part))
  {
    assert Words.Opened(0);
    var s' := ConsumerDoes(s, false, part);
    assert PastEnd(s'.c.pc) && s'.queue == s.queue && s'.c.body == s.c.body && InConsumer(s'.c) == InConsumer(s.c);
    assert Flow(s');
  }

  lemma FailureKeeps(s: State, fails: bool, part: nat)
    requires Inv(s) && ConsumerCan(s, fails, part) && (Failed(s) || fails)
    ensures Inv(ConsumerDoes(s, fails, part))
  {
    assert Words.Opened(0);
    if s.c.pc.AtStop? || s.c.pc.AtLast? {
      StopKeeps(s, part);
    }
  }

  lemma StopKeeps(s: State, part: nat)
    requires Inv(s) && ConsumerCan(s, false, part) && (s.c.pc.AtStop? || s.c.pc.AtLast?)
    ensures Inv(ConsumerDoes(s, false, part))
  {
    assert Words.Opened(0);
    if PastEnd(s.c.pc) {
      PastKeeps(s, part);
    }
  }

  // ---- what every interleaving guarantees ----

  lemma {:induction false} RunFromInv(s: State, actions: seq<Action>)
    requires Inv(s)
    ensures RunFrom(s, actions).Some? ==> Inv(RunFrom(s, actions).value)
    decreases |actions|
  {
    if actions != [] && Can(s, actions[0]) {
      StepKeeps(s, actions[0]);
      RunFromInv(Does(s, actions[0]), actions[1..]);
    }
  }

  lemma RunInv(actions: seq<Action>)
    ensures Run(actions).Some? ==> Inv(Run(actions).value)
  {
    RunFromInv(Start(), actions);
  }

  lemma StepKeeps(s: State, a: Action)
    requires Inv(s) && Can(s, a)
    ensures Inv(Does(s, a))
  {
    match a
    case ReaderSteps(n, fails) => ReaderKeeps(s, n, fails);
    case ConsumerSteps(fails, part) => ConsumerKeeps(s, fails, part);
    case _ => WorldKeeps(s, a);
  }

  /** In every interleaving: until the consumer fails, the file followed by what is
    * queued and in hand is what was read from the pipe, in order. */
  lemma InOrder(actions: seq<Action>)
    requires Run(actions).Some? && !Failed(Run(actions).value)
    ensures var s := Run(actions).value;
            s.r.taken <= |s.w.history| &&
            s.c.body + InConsumer(s.c) + BytesOf(s.queue) + InReader(s.r) == s.w.history[..s.r.taken]
  {
    assert Words.Opened(0);
    RunInv(actions);
  }

  lemma BodyStep(s: State, a: Action)
    requires Inv(s) && Can(s, a) && s.c.body <= s.w.history
    ensures Does(s, a).c.body <= Does(s, a).w.history
  {
    if a.ConsumerSteps? && s.c.pc.AtWrite? {
      BodyWritten(s, a.fails, a.part);
    } else if a.ConsumerSteps? {
      assert ConsumerDoes(s, a.fails, a.part).c.body == s.c.body;
    } else {
      BodyLeft(s, a);
    }
  }

  lemma BodyWritten(s: State, fails: bool, part: nat)
    requires Inv(s) && s.c.pc.AtWrite? && part <= |s.c.pc.bytes|
    ensures ConsumerDoes(s, fails, part).c.body <= s.w.history
  {
    assert Words.Opened(0);
    Written(s.c.body, s.c.pc.bytes, BytesOf(s.queue), InReader(s.r), if fails then part else |s.c.pc.bytes|);
  }

  lemma BodyLeft(s: State, a: Action)
    requires Can(s, a) && !a.ConsumerSteps?
    ensures Does(s, a).c == s.c && s.w.history <= Does(s, a).w.history
  {
  }

  lemma Written(body: string, bytes: string, rest: string, hand: string, part: nat)
    requires part <= |bytes|
    ensures body + bytes[..part] <= body + bytes + rest + hand && bytes[..|bytes|] == bytes
  {
  }

  lemma {:induction false} BodyRun(s: State, actions: seq<Action>)
    requires Inv(s) && s.c.body <= s.w.history && RunFrom(s, actions).Some?
    ensures RunFrom(s, actions).value.c.body <= RunFrom(s, actions).value.w.history
    decreases |actions|
  {
    if actions != [] {
      StepKeeps(s, actions[0]);
      BodyStep(s, actions[0]);
      BodyRun(Does(s, actions[0]), actions[1..]);
    }
  }

  /** In every interleaving, after a failure too, the file is a prefix of what was written to the pipe. */
  lemma FileIsPrefix(actions: seq<Action>)
    requires Run(actions).Some?
    ensures Run(actions).value.c.body <= Run(actions).value.w.history
  {
    assert Words.Opened(0);
    BodyRun(Start(), actions);
  }

  /** A normal return, with the exit code the caller sees: every byte the child wrote
    * is in the log; the log is complete and no writer is left, or it ends with the notice
    * and the code is not 0. */
  lemma NormalReturn(actions: seq<Action>, o: Outcome)
    requires Run(actions).Some? && Run(actions).value.c.pc == Over(o) && o.Returned?
    ensures var s := Run(actions).value;
            && s.w.childEnd <= s.r.taken <= |s.w.history|
            && s.c.body == s.w.history[..s.r.taken]
            && (!s.incomplete ==> s.c.notice == "" && s.c.body == s.w.history && !s.w.childOpen && s.w.holders == 0)
            && (s.incomplete ==> s.c.notice == NOTICE)
            && (ExitCode(o) == 0 <==> s.w.status == 0 && !s.incomplete)
            && (s.w.status < 0 ==> ExitCode(o) == 128 + -s.w.status)
  {
    assert Words.Opened(0);
    RunInv(actions);
    var s := Run(actions).value;
    assert s.w.history[..|s.w.history|] == s.w.history;
  }

  /** Somebody can always move: the consumer; or the reader, which then is not held up by a
    * full queue; or the child, whose exit is awaited. */
  lemma NoDeadlock(actions: seq<Action>)
    requires Run(actions).Some? && !Run(actions).value.c.pc.Over?
    ensures var s := Run(actions).value;
            || ConsumerCan(s, false, 0)
            || (s.r.pc != Finished && (s.stopped || |s.queue| < QUEUE_SIZE))
            || (!s.w.exited && (s.c.pc == AtWait || s.c.pc == AtReap))
  {
    assert Words.Opened(0);
    RunInv(actions);
  }

  /** Steps the reader has left, at most, once it is told to stop. */
  function StepsLeft(pc: ReaderPc): nat {
    match pc
    case AtPoll => 13
    case AtSnapshot => 12
    case AtDeadline => 11
    case AtClosing => 10
    case AtRead(_) => 9
    case AtPut(Chunk(_), _, tried) => if tried then 8 else 7
    case AtAfter(_) => 6
    case AtCheck => 5
    case AtPut(Error, _, tried) => if tried then 4 else 3
    case AtPut(End, _, tried) => if tried then 2 else 1
    case Finished => 0
  }

  /** Told to stop, the reader is done after a bounded number of its own steps, so it can
    * be joined, also after a consumer failure with a full queue. */
  lemma ReaderStops(s: State, n: nat, fails: bool)
    requires s.stopped && ReaderCan(s, n)
    ensures StepsLeft(ReaderDoes(s, n, fails).r.pc) < StepsLeft(s.r.pc) && ReaderDoes(s, n, fails).stopped
  {
    if s.r.pc.AtPut? {
      PutStops(s, s.r.pc.item, s.r.pc.closing, s.r.pc.tried);
    } else if s.r.pc.AtRead? && !fails {
      assert ReaderDoes(s, n, fails) == ReadStep(s, s.r.pc.closing, n);
    }
  }

  lemma PutStops(s: State, item: Item, closing: bool, tried: bool)
    requires s.stopped && s.r.pc == AtPut(item, closing, tried)
    ensures StepsLeft(PutStep(s, item, closing, tried).r.pc) < StepsLeft(s.r.pc) && PutStep(s, item, closing, tried).stopped
  {
  }

  predicate Late(s: State) {
    s.r.deadline.Some? && s.w.now >= s.r.deadline.value
  }

  /** What `remaining` will be once the chunk in hand is handed over. */
  function Owed(r: Reader): nat {
    if r.remaining > |InReader(r)| then r.remaining - |InReader(r)| else 0
  }

  function Stage(r: Reader): nat {
    match r.pc
    case AtRead(closing) => if closing || r.remaining > 0 then 12 else 20
    case AtPut(Chunk(_), closing, tried) => (if closing then 10 else 18) + (if tried then 0 else 1)
    case AtAfter(closing) => if closing then 9 else 17
    case AtCheck => 16
    case AtPoll => 15
    case AtSnapshot => 14
    case AtDeadline => 14
    case AtClosing => 13
    case AtPut(Error, _, tried) => if tried then 3 else 4
    case AtPut(End, _, tried) => if tried then 1 else 2
    case Finished => 0
  }

  function Distance(r: Reader): nat {
    30 * Owed(r) + Stage(r)
  }

  /** A full queue sends the reader back to the stop flag. */
  predicate HeldUp(s: State) {
    s.r.pc.AtPut? && s.r.pc.tried && |s.queue| >= QUEUE_SIZE
  }

  predicate Ending(s: State) {
    Late(s) || Ended(s.r)
  }

  /** Past its deadline, or once it has ended by itself, the reader comes nearer to its end with
    * every step that a full queue does not hold up, however long a background process holds the
    * pipe and whatever it writes. */
  lemma ReaderEnds(s: State, n: nat, fails: bool)
    requires Inv(s) && Ending(s) && ReaderCan(s, n)
    ensures Ending(ReaderDoes(s, n, fails)) && Nearer(s, ReaderDoes(s, n, fails))
  {
    if Ended(s.r) {
      EndedNears(s, n, fails);
    } else if s.r.pc.AtPut? {
      PutNears(s, s.r.pc.item, s.r.pc.closing, s.r.pc.tried);
    } else {
      LateNears(s, n, fails);
    }
  }

  predicate Nearer(s: State, s': State) {
    if HeldUp(s) then Distance(s'.r) <= Distance(s.r) + 1 else Distance(s'.r) < Distance(s.r)
  }

  lemma EndedNears(s: State, n: nat, fails: bool)
    requires Ended(s.r) && ReaderCan(s, n)
    ensures Ended(ReaderDoes(s, n, fails).r) && Nearer(s, ReaderDoes(s, n, fails))
  {
  }

  lemma PutNears(s: State, item: Item, closing: bool, tried: bool)
    requires Late(s) && s.r.pc == AtPut(item, closing, tried) && !item.End?
    ensures Late(PutStep(s, item, closing, tried)) && Nearer(s, PutStep(s, item, closing, tried))
  {
    PutOwes(s, item, closing, tried);
    PutStages(s, item, closing, tried);
  }

  lemma PutOwes(s: State, item: Item, closing: bool, tried: bool)
    requires s.r.pc == AtPut(item, closing, tried)
    ensures Owed(PutStep(s, item, closing, tried).r) <= Owed(s.r)
    ensures PutStep(s, item, closing, tried).w == s.w && PutStep(s, item, closing, tried).r.deadline == s.r.deadline
  {
  }

  lemma PutStages(s: State, item: Item, closing: bool, tried: bool)
    requires s.r.pc == AtPut(item, closing, tried) && !item.End?
    ensures Stage(PutStep(s, item, closing, tried).r) + (if HeldUp(s) then 0 else 1)
         <= Stage(s.r) + (if HeldUp(s) then 1 else 0)
  {
  }

  lemma LateNears(s: State, n: nat, fails: bool)
    requires Inv(s) && Late(s) && ReaderCan(s, n) && !s.r.pc.AtPut?
    ensures Late(ReaderDoes(s, n, fails)) && Nearer(s, ReaderDoes(s, n, fails))
  {
    assert Words.Opened(0);
    if s.r.pc.AtRead? && !fails && s.r.remaining > 0 {
      assert InPipe(s) != [];
    }
  }

  /** The child is gone, and the reader has not noticed it yet. */
  predicate Unnoticed(s: State) {
    s.w.exited && s.r.deadline == None && !Ended(s.r)
  }

  /** Steps at most to the deadline that the exit of the child sets. */
  function Gap(r: Reader): nat {
    match r.pc
    case AtClosing => 12
    case AtRead(_) => 11
    case AtPut(Chunk(_), _, tried) => if tried then 9 else 10
    case AtAfter(_) => 8
    case AtCheck => 7
    case AtPoll => 6
    case AtSnapshot => 5
    case AtDeadline => 4
    case AtPut(Error, _, tried) => if tried then 2 else 3
    case AtPut(End, _, _) => 0
    case Finished => 0
  }

  /** After the child's exit every reader step that a full queue does not hold up leads on to the
    * deadline, or to the end. */
  lemma DeadlineNears(s: State, n: nat, fails: bool)
    requires Inv(s) && Unnoticed(s) && ReaderCan(s, n)
    ensures var s' := ReaderDoes(s, n, fails);
            || s'.r.deadline == Some(s.w.now + EXIT_GRACE)
            || Ended(s'.r)
            || (Unnoticed(s') && Gap(s'.r) + (if HeldUp(s) then 0 else 1) <= Gap(s.r) + (if HeldUp(s) then 1 else 0))
  {
    assert Words.Opened(0);
  }

  /** Reader steps of a run that a full queue does not hold up, and those it does. */
  function Moves(s: State, actions: seq<Action>): nat
    requires RunFrom(s, actions).Some?
    decreases |actions|
  {
    if actions == [] then 0
    else (if actions[0].ReaderSteps? && !HeldUp(s) then 1 else 0) + Moves(Does(s, actions[0]), actions[1..])
  }

  function HoldUps(s: State, actions: seq<Action>): nat
    requires RunFrom(s, actions).Some?
    decreases |actions|
  {
    if actions == [] then 0
    else (if actions[0].ReaderSteps? && HeldUp(s) then 1 else 0) + HoldUps(Does(s, actions[0]), actions[1..])
  }

  /** What no other thread takes away. */
  lemma OthersKeep(s: State, a: Action)
    requires Can(s, a) && !a.ReaderSteps?
    ensures Does(s, a).r == s.r && (s.w.exited ==> Does(s, a).w.exited) && s.w.now <= Does(s, a).w.now
  {
  }

  lemma {:induction false} EndComes(s: State, actions: seq<Action>)
    requires Inv(s) && Ending(s) && RunFrom(s, actions).Some?
    ensures Distance(RunFrom(s, actions).value.r) + Moves(s, actions) <= Distance(s.r) + HoldUps(s, actions)
    decreases |actions|
  {
    if actions != [] {
      var a := actions[0];
      StepKeeps(s, a);
      if a.ReaderSteps? {
        ReaderEnds(s, a.n, a.fails);
      } else {
        OthersKeep(s, a);
      }
      EndComes(Does(s, a), actions[1..]);
    }
  }

  lemma {:induction false} DeadlineComes(s: State, actions: seq<Action>)
    requires Inv(s) && Unnoticed(s) && RunFrom(s, actions).Some?
    ensures var e := RunFrom(s, actions).value;
            || e.r.deadline.Some? || Ended(e.r)
            || (Unnoticed(e) && Gap(e.r) + Moves(s, actions) <= Gap(s.r) + HoldUps(s, actions))
    decreases |actions|
  {
    if actions != [] {
      var a := actions[0];
      StepKeeps(s, a);
      if a.ReaderSteps? {
        DeadlineNears(s, a.n, a.fails);
      } else {
        OthersKeep(s, a);
      }
      if Unnoticed(Does(s, a)) {
        DeadlineComes(Does(s, a), actions[1..]);
      } else {
        DeadlineStays(Does(s, a), actions[1..]);
      }
    }
  }

  lemma {:induction false} DeadlineStays(s: State, actions: seq<Action>)
    requires RunFrom(s, actions).Some? && (s.r.deadline.Some? || Ended(s.r))
    ensures var e := RunFrom(s, actions).value; e.r.deadline.Some? || Ended(e.r)
    decreases |actions|
  {
    if actions != [] {
      var a := actions[0];
      if a.ReaderSteps? {
        ReaderStays(s, a.n, a.fails);
      } else {
        OthersKeep(s, a);
      }
      DeadlineStays(Does(s, a), actions[1..]);
    }
  }

  lemma ReaderStays(s: State, n: nat, fails: bool)
    requires ReaderCan(s, n)
    ensures s.r.deadline.Some? ==> ReaderDoes(s, n, fails).r.deadline.Some?
    ensures Ended(s.r) ==> Ended(ReaderDoes(s, n, fails).r)
  {
  }

  /** The reader always ends. Once the child is gone a fixed number of reader steps, and one more for
    * each that a full queue held up, brings the deadline or the end; once the deadline has passed,
    * another such number brings the end, whatever the others do meanwhile. */
  lemma ReaderAlwaysEnds(s: State, first: seq<Action>, second: seq<Action>)
    requires Inv(s) && Unnoticed(s) && RunFrom(s, first).Some?
    requires var m := RunFrom(s, first).value;
             && Moves(s, first) > Gap(s.r) + HoldUps(s, first)
             && (m.r.deadline.Some? ==> m.w.now >= m.r.deadline.value)
             && RunFrom(m, second).Some? && Moves(m, second) >= Distance(m.r) + HoldUps(m, second)
    ensures RunFrom(RunFrom(s, first).value, second).value.r.pc == Finished
  {
    var m := RunFrom(s, first).value;
    DeadlineComes(s, first);
    RunFromInv(s, first);
    EndComes(m, second);
  }

  // ---- runs in which the consumer keeps reading ----

  /** Whether the consumer still has to take something after the last refusal by a full queue. */
  predicate Waits(s: State, a: Action, waiting: bool)
    requires Can(s, a)
  {
    (a.ReaderSteps? && HeldUp(s)) || (waiting && |s.queue| <= |Does(s, a).queue|)
  }

  /** Between two refusals by a full queue the consumer takes something. */
  predicate Served(s: State, actions: seq<Action>, waiting: bool)
    requires RunFrom(s, actions).Some?
    decreases |actions|
  {
    actions != [] ==>
      && !(waiting && actions[0].ReaderSteps? && HeldUp(s))
      && Served(Does(s, actions[0]), actions[1..], Waits(s, actions[0], waiting))
  }

  /** Moves the reader makes at least before it can be refused again. */
  function MovesToRefusal(s: State, waiting: bool): nat {
    var tried := s.r.pc.AtPut? && s.r.pc.tried;
    if waiting || |s.queue| < QUEUE_SIZE then (if tried then 2 else 3) else if tried then 0 else 1
  }

  lemma RefusalNears(s: State, a: Action, waiting: bool)
    requires Can(s, a) && |s.queue| <= QUEUE_SIZE && (waiting ==> |s.queue| == QUEUE_SIZE)
    requires !(waiting && a.ReaderSteps? && HeldUp(s))
    ensures var s', waits := Does(s, a), Waits(s, a, waiting);
            && (waits ==> |s'.queue| == QUEUE_SIZE)
            && (a.ReaderSteps? && HeldUp(s) ==> MovesToRefusal(s, waiting) == 0 && MovesToRefusal(s', waits) == 3)
            && (a.ReaderSteps? && !HeldUp(s) ==> MovesToRefusal(s, waiting) <= MovesToRefusal(s', waits) + 1)
            && (!a.ReaderSteps? ==> MovesToRefusal(s, waiting) <= MovesToRefusal(s', waits))
  {
    if a.ReaderSteps? {
      ReaderQueues(s, a.n, a.fails);
    } else {
      OthersTake(s, a);
    }
  }

  lemma ReaderQueues(s: State, n: nat, fails: bool)
    requires ReaderCan(s, n) && |s.queue| <= QUEUE_SIZE
    ensures var s' := ReaderDoes(s, n, fails);
            && (HeldUp(s) ==> s'.queue == s.queue && s'.r.pc.AtPut? && !s'.r.pc.tried)
            && (s'.queue != s.queue ==> s.r.pc.AtPut? && s.r.pc.tried && |s.queue| < QUEUE_SIZE && |s'.queue| == |s.queue| + 1)
            && (s.r.pc.AtPut? && s.r.pc.tried && !HeldUp(s) ==> |s.queue| < QUEUE_SIZE)
            && (s'.r.pc.AtPut? && s'.r.pc.tried ==> s.r.pc.AtPut? && !s.r.pc.tried)
  {
  }

  lemma OthersTake(s: State, a: Action)
    requires Can(s, a) && !a.ReaderSteps?
    ensures Does(s, a).r == s.r && |s.queue| - 1 <= |Does(s, a).queue| <= |s.queue|
  {
  }

  /** A consumer that keeps reading lets the reader be refused at most every third move. */
  lemma {:induction false} RefusalsBounded(s: State, actions: seq<Action>, waiting: bool)
    requires Inv(s) && RunFrom(s, actions).Some? && Served(s, actions, waiting) && (waiting ==> |s.queue| == QUEUE_SIZE)
    ensures 3 * HoldUps(s, actions) + MovesToRefusal(s, waiting) <= Moves(s, actions) + 3
    decreases |actions|
  {
    if actions != [] {
      var a := actions[0];
      assert |s.queue| <= QUEUE_SIZE by { assert Words.Opened(0); }
      StepKeeps(s, a);
      RefusalNears(s, a, waiting);
      RefusalsBounded(Does(s, a), actions[1..], Waits(s, a, waiting));
    }
  }

  function ReaderSteps(s: State, actions: seq<Action>): nat
    requires RunFrom(s, actions).Some?
  {
    Moves(s, actions) + HoldUps(s, actions)
  }

  function ConsumerSteps(s: State, actions: seq<Action>): nat
    requires RunFrom(s, actions).Some?
    decreases |actions|
  {
    if actions == [] then 0
    else (if actions[0].ConsumerSteps? then 1 else 0) + ConsumerSteps(Does(s, actions[0]), actions[1..])
  }

  /** Steps the consumer has left at most, if nothing more is queued. */
  function ConsumerLeft(s: State): nat {
    2 * |s.queue| +
    match s.c.pc
    case AtWrite(_) => 9
    case AtGet => 8
    case AtJoin => 7
    case AtWait => 6
    case AtNotice(_) => 5
    case AtKill => 4
    case AtReap => 3
    case AtStop(_) => 2
    case AtLast(_) => 1
    case Over(_) => 0
  }

  lemma ConsumerNears(s: State, fails: bool, part: nat)
    requires ConsumerCan(s, fails, part)
    ensures ConsumerLeft(ConsumerDoes(s, fails, part)) < ConsumerLeft(s)
  {
  }

  lemma OthersQueue(s: State, a: Action)
    requires Can(s, a) && !a.ConsumerSteps?
    ensures Does(s, a).c == s.c && |Does(s, a).queue| <= |s.queue| + (if a.ReaderSteps? && !HeldUp(s) then 1 else 0)
  {
  }

  lemma {:induction false} ConsumerBounded(s: State, actions: seq<Action>)
    requires RunFrom(s, actions).Some?
    ensures ConsumerSteps(s, actions) + ConsumerLeft(RunFrom(s, actions).value) <= ConsumerLeft(s) + 2 * Moves(s, actions)
    decreases |actions|
  {
    if actions != [] {
      var a := actions[0];
      if a.ConsumerSteps? {
        ConsumerNears(s, a.fails, a.part);
      } else {
        OthersQueue(s, a);
      }
      ConsumerBounded(Does(s, a), actions[1..]);
    }
  }

  /** Once the reader is past its deadline or at its end, a run in which the consumer keeps reading
    * has room for so many steps of the two, whatever the processes do meanwhile. */
  lemma CaptureBounded(s: State, actions: seq<Action>)
    requires Inv(s) && Ending(s) && RunFrom(s, actions).Some? && Served(s, actions, false)
    ensures ReaderSteps(s, actions) <= 2 * Distance(s.r) + 3
    ensures ReaderSteps(s, actions) + ConsumerSteps(s, actions) <= 6 * Distance(s.r) + 9 + ConsumerLeft(s)
  {
    EndComes(s, actions);
    RefusalsBounded(s, actions, false);
    ConsumerBounded(s, actions);
  }

  /** The same for a whole run after the exit of the child: the reader has its deadline or its end
    * within 27 steps of its own, and what follows the deadline is bounded as above. */
  lemma WholeRunBounded(s: State, first: seq<Action>, second: seq<Action>)
    requires Inv(s) && Unnoticed(s) && RunFrom(s, first).Some? && Served(s, first, false) && ReaderSteps(s, first) > 27
    requires var m := RunFrom(s, first).value;
             && (m.r.deadline.Some? ==> m.w.now >= m.r.deadline.value)
             && RunFrom(m, second).Some? && Served(m, second, false)
    ensures var m := RunFrom(s, first).value;
            ReaderSteps(m, second) + ConsumerSteps(m, second) <= 6 * Distance(m.r) + 9 + ConsumerLeft(m)
  {
    DeadlineComes(s, first);
    RefusalsBounded(s, first, false);
    RunFromInv(s, first);
    CaptureBounded(RunFrom(s, first).value, second);
  }

  // ---- not too early ----

  /** The reader gives up on nobody before the grace period after the child's exit is over. */
  predicate Patient(s: State) {
    && (s.r.deadline.Some? ==> s.w.exited && s.r.deadline.value >= s.w.exitAt + 1000)
    && (Closing(s.r.pc) ==> s.r.deadline.Some? && s.w.now >= s.r.deadline.value)
    && (s.incomplete ==> s.w.exited && s.w.now >= s.w.exitAt + 1000)
    && (s.w.exited ==> s.w.now >= s.w.exitAt)
  }

  lemma ReaderPatient(s: State, n: nat, fails: bool)
    requires Inv(s) && Patient(s) && ReaderCan(s, n)
    ensures Patient(ReaderDoes(s, n, fails))
  {
    assert Words.Opened(0);
    if s.r.pc.AtPut? {
      PutPatient(s, s.r.pc.item, s.r.pc.closing, s.r.pc.tried);
    }
  }

  lemma PutPatient(s: State, item: Item, closing: bool, tried: bool)
    requires Patient(s) && s.r.pc == AtPut(item, closing, tried)
    ensures Patient(PutStep(s, item, closing, tried))
  {
  }

  lemma OthersPatient(s: State, a: Action)
    requires Patient(s) && Can(s, a) && !a.ReaderSteps?
    ensures Patient(Does(s, a))
  {
  }

  lemma {:induction false} RunPatient(s: State, actions: seq<Action>)
    requires Inv(s) && Patient(s) && RunFrom(s, actions).Some?
    ensures Patient(RunFrom(s, actions).value)
    decreases |actions|
  {
    if actions != [] {
      var a := actions[0];
      StepKeeps(s, a);
      if a.ReaderSteps? {
        ReaderPatient(s, a.n, a.fails);
      } else {
        OthersPatient(s, a);
      }
      RunPatient(Does(s, a), actions[1..]);
    }
  }

  /** In every interleaving: a capture that is given up as incomplete was given at least a second after
    * the child's exit. */
  lemma GraceKept(actions: seq<Action>)
    requires Run(actions).Some? && Run(actions).value.incomplete
    ensures var w := Run(actions).value.w; w.exited && w.now >= w.exitAt + 1000
  {
    assert Words.Opened(0);
    RunPatient(Start(), actions);
  }

  /** Nobody holds the pipe and nothing is left in it. */
  predicate Drained(s: State) {
    !s.w.childOpen && s.w.holders == 0 && s.r.taken == |s.w.history|
  }

  /** ... and the reader has not decided to give up. */
  predicate InTime(s: State) {
    Drained(s) && !s.incomplete && (Closing(s.r.pc) ==> s.r.pc.AtRead?)
  }

  lemma ReaderInTime(s: State, n: nat, fails: bool)
    requires InTime(s) && ReaderCan(s, n)
    ensures InTime(ReaderDoes(s, n, fails))
  {
    if s.r.pc.AtPut? {
      PutInTime(s, s.r.pc.item, s.r.pc.closing, s.r.pc.tried);
    }
  }

  lemma PutInTime(s: State, item: Item, closing: bool, tried: bool)
    requires InTime(s) && s.r.pc == AtPut(item, closing, tried)
    ensures InTime(PutStep(s, item, closing, tried))
  {
  }

  lemma OthersInTime(s: State, a: Action)
    requires InTime(s) && Can(s, a) && !a.ReaderSteps?
    ensures InTime(Does(s, a))
  {
  }

  lemma {:induction false} RunInTime(s: State, actions: seq<Action>)
    requires InTime(s) && RunFrom(s, actions).Some?
    ensures InTime(RunFrom(s, actions).value)
    decreases |actions|
  {
    if actions != [] {
      var a := actions[0];
      if a.ReaderSteps? {
        ReaderInTime(s, a.n, a.fails);
      } else {
        OthersInTime(s, a);
      }
      RunInTime(Does(s, a), actions[1..]);
    }
  }

  lemma {:induction false} RunOn(s: State, first: seq<Action>, second: seq<Action>)
    requires RunFrom(s, first).Some?
    ensures RunFrom(s, first + second) == RunFrom(RunFrom(s, first).value, second)
    decreases |first|
  {
    if first == [] {
      assert first + second == second;
    } else {
      assert (first + second)[1..] == first[1..] + second;
      RunOn(Does(s, first[0]), first[1..], second);
    }
  }

  /** If all writers are gone and the pipe is drained before the grace period is over, a normal return has
    * the whole output in the log, no notice, and the child's own exit code. */
  lemma CompleteInTime(first: seq<Action>, second: seq<Action>, o: Outcome)
    requires Run(first).Some? && Run(first + second).Some? && Run(first + second).value.c.pc == Over(o) && o.Returned?
    requires var m := Run(first).value; Drained(m) && (m.w.exited ==> m.w.now < m.w.exitAt + 1000)
    ensures var s := Run(first + second).value;
            && !s.incomplete && s.c.body == s.w.history && s.c.notice == ""
            && o.status == s.w.status && (s.w.status >= 0 ==> ExitCode(o) == s.w.status)
  {
    assert Inv(Start()) by { assert Words.Opened(0); }
    var m := Run(first).value;
    RunPatient(Start(), first);
    RunOn(Start(), first, second);
    RunInTime(m, second);
    NormalReturn(first + second, o);
    RunInv(first + second);
    assert Words.Opened(0);
  }
}
