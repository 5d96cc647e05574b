/** The bounded blocking queue of src/hpc/blocking_queue.c.

    `Buffer` is the ring the mutex protects, updated in place by the bodies of `bq_push` and
    `bq_pop`.  The monitor around it is a state machine over any number of threads: a thread is
    outside, waiting for the mutex, inside the critical section at one of its statements, asleep on
    a condition variable, signalled, or woken spuriously.  `pthread_cond_wait` releases the mutex
    and falls asleep in one step; a signal wakes at least one sleeper of its condition if there is
    one (IEEE Std 1003.1 allows more than one), a broadcast wakes all of them. */
module BlockingQueue {
  import opened Arith
  import opened Counting
  import opened Ledger
  import opened Maps

  // ----- the ring ------------------------------------------------------------------------------

  function Contents<E>(data: seq<E>, head: nat, len: nat): (c: seq<E>)
    requires 0 < |data|
    ensures |c| == len
  {
    seq(len, i requires 0 <= i => data[(head + i) % |data|])
  }

  /** The buffer after the copy of `bq_push`, and the head after the advance of `bq_pop`. */
  function WrittenBehind<E>(data: seq<E>, head: nat, len: nat, e: E): seq<E>
    requires 0 < |data|
  {
    data[(head + len) % |data| := e]
  }

  function NextHead(head: nat, slots: nat): nat
    requires 0 < slots
  {
    (head + 1) % slots
  }

  /** Writing the slot behind the last element changes no element; counting it in appends it. */
  lemma {:induction false} AppendBehind<E>(data: seq<E>, head: nat, len: nat, e: E)
    requires len < |data|
    ensures var d := WrittenBehind(data, head, len, e);
            Contents(d, head, len) == Contents(data, head, len) &&
            Contents(d, head, len + 1) == Contents(data, head, len) + [e]
  {
    var d := WrittenBehind(data, head, len, e);
    forall i | 0 <= i < len
      ensures Contents(d, head, len)[i] == Contents(data, head, len)[i]
      ensures Contents(d, head, len + 1)[i] == Contents(data, head, len)[i]
    {
      if (head + i) % |data| == (head + len) % |data| { SameSlot(head + i, head + len, |data|); }
    }
  }

  lemma {:induction false} SlotBehindHead(head: nat, i: nat, slots: nat)
    requires 0 < slots
    ensures (NextHead(head, slots) + i) % slots == (head + (i + 1)) % slots
  {
    AddSlot(head + 1, i, slots);
    assert head + 1 + i == head + (i + 1);
  }

  lemma {:induction false} DropOldestAt<E>(data: seq<E>, head: nat, len: nat, i: nat)
    requires 0 < |data| && i + 1 < len && head < |data|
    ensures Contents(data, NextHead(head, |data|), len - 1)[i] == Contents(data, head, len)[1..][i]
  {
    SlotBehindHead(head, i, |data|);
  }

  /** Advancing the head by one slot drops exactly the oldest element. */
  lemma {:induction false} DropOldest<E>(data: seq<E>, head: nat, len: nat)
    requires 0 < |data| && 0 < len && head < |data|
    ensures Contents(data, head, len)[0] == data[head]
    ensures Contents(data, NextHead(head, |data|), len - 1) == Contents(data, head, len)[1..]
  {
    forall i | 0 <= i < len - 1
      ensures Contents(data, NextHead(head, |data|), len - 1)[i] == Contents(data, head, len)[1..][i]
    {
      DropOldestAt(data, head, len, i);
    }
  }

  class Buffer<E> {
    const data: array<E>
    var head: nat
    var len: nat

    ghost predicate Valid()
      reads this, data
    {
      head < data.Length && len <= data.Length
    }

    ghost function Elements(): seq<E>
      requires Valid()
      reads this, data
    {
      Contents(data[..], head, len)
    }

    constructor (capacity: nat, fill: E)
      requires capacity > 0
      ensures Valid() && fresh(data) && data.Length == capacity && Elements() == []
    {
      data := new E[capacity](_ => fill);
      head, len := 0, 0;
    }

    /** `bq_push` between its wait loop and its signal: the steps `Copy` and `Count` of `PushStep`. */
    method Append(e: E)
      requires Valid() && len < data.Length
      modifies this, data
      ensures Valid() && Elements() == old(Elements()) + [e]
      ensures data[..] == WrittenBehind(old(data[..]), head, old(len), e)
      ensures head == old(head) && len == old(len) + 1
    {
      var tail := (head + len) % data.Length;
      AppendBehind(data[..], head, len, e);
      ghost var before := data[..];
      data[tail] := e;
      assert data[..] == before[tail := e];
      len := len + 1;
    }

    /** `bq_pop` between its wait loop and its signal: the steps `Copy` and `Count` of `PopStep`. */
    method TakeOldest() returns (out: E)
      requires Valid() && len > 0
      modifies this
      ensures Valid() && old(Elements()) == [out] + Elements()
      ensures out == data[old(head)] && head == NextHead(old(head), data.Length) && len == old(len) - 1
    {
      DropOldest(data[..], head, len);
      out := data[head];
      head := (head + 1) % data.Length;
      len := len - 1;
    }
  }

  // ----- the monitor ---------------------------------------------------------------------------

  type Thread = nat

  /** `Got` is the success of a pop, with the element it copied out. */
  datatype Result<E> = Ok | Got(v: E) | NotFound | Unsupported

  datatype Op<E> = Push(e: E) | Pop | Close

  /** Why a thread inside a call does not hold the mutex: it is entering, it is asleep inside
      `pthread_cond_wait`, or it was signalled or woken spuriously and must take the mutex again. */
  datatype Wait = Entering | Asleep | Signalled | Woken

  /** The statements of a critical section.  `Test` is the loop test (for close: the assignment of
      `closed`), `Count` updates `len` (and `head`) for the copied element. */
  datatype Statement<E> =
    Test | Copy | Count(v: E) | Notify(success: Result<E>) | NotifyProducers | Unlock(result: Result<E>)

  datatype Pc<E> =
    | Outside
    | Parked(op: Op<E>, how: Wait)
    | Inside(op: Op<E>, at: Statement<E>)

  datatype Mutex = Free | Held(holder: Thread)

  datatype State<E> = State(
    data: seq<E>,
    head: nat,
    len: nat,
    closed: bool,
    mutex: Mutex,
    pcs: map<Thread, Pc<E>>,
    pushed: seq<E>,   // elements of the pushes that took effect
    popped: seq<E>,   // elements of the pops that took effect
    logs: Logs<Op<E>, Result<E>>)   // what was called, took effect and returned

  datatype Event<E> =
    | Call(t: Thread, op: Op<E>)
    | Acquire(t: Thread)
    | Step(t: Thread)
    | Wake(t: Thread, wake: set<Thread>)   // t signals or broadcasts, waking these
    | Spurious(t: Thread)

  ghost function Init<E>(bytes: seq<E>, threads: set<Thread>): State<E> {
    State(bytes, 0, 0, false, Free, Filled(threads, Outside), [], [], Logs([], [], []))
  }

  predicate Notifies<E>(pc: Pc<E>) {
    pc.Inside? && (pc.at.Notify? || pc.at.NotifyProducers?)
  }

  predicate Sleeps<E>(pc: Pc<E>) { pc.Parked? && pc.how.Asleep? }

  predicate IsPopAsleep<E>(pc: Pc<E>) { Sleeps(pc) && pc.op.Pop? }

  predicate IsPushAsleep<E>(pc: Pc<E>) { Sleeps(pc) && pc.op.Push? }

  predicate IsPopSignalled<E>(pc: Pc<E>) { pc.Parked? && pc.how.Signalled? && pc.op.Pop? }

  predicate IsPushSignalled<E>(pc: Pc<E>) { pc.Parked? && pc.how.Signalled? && pc.op.Push? }

  function SleepingConsumers<E>(pcs: map<Thread, Pc<E>>): set<Thread> {
    Where(pcs, IsPopAsleep)
  }

  function SleepingProducers<E>(pcs: map<Thread, Pc<E>>): set<Thread> {
    Where(pcs, IsPushAsleep)
  }

  function SignalledConsumers<E>(pcs: map<Thread, Pc<E>>): set<Thread> {
    Where(pcs, IsPopSignalled)
  }

  function SignalledProducers<E>(pcs: map<Thread, Pc<E>>): set<Thread> {
    Where(pcs, IsPushSignalled)
  }

  predicate NotifiesConsumers<E>(pc: Pc<E>) {
    pc.Inside? && pc.at.Notify? && !pc.op.Pop?
  }

  /** The threads asleep on the condition that the thread at `pc` notifies. */
  function Audience<E>(pcs: map<Thread, Pc<E>>, pc: Pc<E>): set<Thread> {
    if NotifiesConsumers(pc) then SleepingConsumers(pcs) else SleepingProducers(pcs)
  }

  predicate Enabled<E>(s: State<E>, ev: Event<E>) {
    && ev.t in s.pcs
    && var pc := s.pcs[ev.t];
       match ev
       case Call(_, _) => pc.Outside?
       case Acquire(_) => s.mutex.Free? && pc.Parked? && !pc.how.Asleep?
       case Step(_) =>
         && pc.Inside? && !Notifies(pc) && s.head < |s.data|
         && (pc.op.Pop? && pc.at.Count? ==> s.len > 0)
       case Wake(_, wake) =>
         && Notifies(pc)
         && wake <= Audience(s.pcs, pc)
         && (Audience(s.pcs, pc) != {} ==> wake != {})
         && (pc.op.Close? ==> wake == Audience(s.pcs, pc))
       case Spurious(_) => Sleeps(pc)
  }

  function Goto<E>(s: State<E>, t: Thread, pc: Pc<E>): State<E> {
    s.(pcs := s.pcs[t := pc])
  }

  /** The call of thread t takes effect, and will return `result`. */
  function Take<E>(s: State<E>, t: Thread, op: Op<E>, result: Result<E>): State<E> {
    Goto(s.(logs := Record(s.logs, t, Takes(op, result))), t, Inside(op, Notify(result)))
  }

  /** Unlock and return. */
  function Return<E>(s: State<E>, t: Thread, op: Op<E>, result: Result<E>): State<E> {
    Goto(s.(mutex := Free, logs := Record(s.logs, t, Returns(op, result))), t, Outside)
  }

  function PushStep<E>(s: State<E>, t: Thread, e: E, at: Statement<E>): State<E>
    requires s.head < |s.data|
  {
    match at
    case Test =>
      if s.len == |s.data| && !s.closed then Goto(s.(mutex := Free), t, Parked(Push(e), Asleep))
      else if s.closed then Goto(s, t, Inside(Push(e), Unlock(Unsupported)))
      else Goto(s, t, Inside(Push(e), Copy))
    case Copy => Goto(s.(data := WrittenBehind(s.data, s.head, s.len, e)), t, Inside(Push(e), Count(e)))
    case Count(v) => Take(s.(len := s.len + 1, pushed := s.pushed + [v]), t, Push(e), Ok)
    case Unlock(result) => Return(s, t, Push(e), result)
    case _ => s
  }

  function PopStep<E>(s: State<E>, t: Thread, at: Statement<E>): State<E>
    requires s.head < |s.data| && (at.Count? ==> s.len > 0)
  {
    match at
    case Test =>
      if s.len == 0 && !s.closed then Goto(s.(mutex := Free), t, Parked(Pop, Asleep))
      else if s.len == 0 then Goto(s, t, Inside(Pop, Unlock(NotFound)))
      else Goto(s, t, Inside(Pop, Copy))
    case Copy => Goto(s, t, Inside(Pop, Count(s.data[s.head])))
    case Count(v) =>
      Take(s.(head := NextHead(s.head, |s.data|), len := s.len - 1, popped := s.popped + [v]), t, Pop, Got(v))
    case Unlock(result) => Return(s, t, Pop, result)
    case _ => s
  }

  function CloseStep<E>(s: State<E>, t: Thread, at: Statement<E>): State<E> {
    match at
    case Test => Take(s.(closed := true), t, Close, Ok)
    case Unlock(result) => Return(s, t, Close, result)
    case _ => s
  }

  function AfterNotify<E>(pc: Pc<E>): Pc<E>
    requires Notifies(pc)
  {
    Inside(pc.op, if pc.at.NotifyProducers? then Unlock(Ok)
                  else if pc.op.Close? then NotifyProducers else Unlock(pc.at.success))
  }

  function Signal<E>(pc: Pc<E>): Pc<E> {
    if pc.Parked? then Parked(pc.op, Signalled) else pc
  }

  ghost function Apply<E>(s: State<E>, ev: Event<E>): State<E>
    requires Enabled(s, ev)
  {
    var pc := s.pcs[ev.t];
    match ev
    case Call(t, op) => Goto(s.(logs := Record(s.logs, t, Asks(op))), t, Parked(op, Entering))
    case Acquire(t) => Goto(s.(mutex := Held(t)), t, Inside(pc.op, Test))
    case Step(t) =>
      (match pc.op
       case Push(e) => PushStep(s, t, e, pc.at)
       case Pop => PopStep(s, t, pc.at)
       case Close => CloseStep(s, t, pc.at))
    case Wake(t, wake) => Goto(s.(pcs := Update(s.pcs, wake, Signal)), t, AfterNotify(pc))
    case Spurious(t) => Goto(s, t, Parked(pc.op, Woken))
  }

  datatype Outcome<E> = Stuck | Reached(state: State<E>)

  /** The state after a whole interleaving, or `Stuck` if some step was not enabled. */
  ghost function Exec<E>(s: State<E>, evs: seq<Event<E>>): Outcome<E> {
    if evs == [] then Reached(s)
    else
      var before := Exec(s, evs[..|evs| - 1]);
      var ev := evs[|evs| - 1];
      if before.Reached? && Enabled(before.state, ev) then Reached(Apply(before.state, ev)) else Stuck
  }

  // ----- the invariant -------------------------------------------------------------------------

  ghost predicate Exclusive<E>(pcs: map<Thread, Pc<E>>, mutex: Mutex) {
    && (forall t :: t in pcs && pcs[t].Inside? ==> mutex == Held(t))
    && (mutex.Held? ==> mutex.holder in pcs && pcs[mutex.holder].Inside?)
  }

  ghost predicate MutualExclusion<E>(s: State<E>) {
    Exclusive(s.pcs, s.mutex)
  }

  /** What the thread inside the critical section is doing; `Outside` when nobody is. */
  ghost function Holder<E>(s: State<E>): Pc<E>
    requires MutualExclusion(s)
  {
    if s.mutex.Held? then s.pcs[s.mutex.holder] else Outside
  }

  /** What a thread at `pc` inside the critical section has established about the ring. */
  ghost predicate RingAt<E>(s: State<E>, pc: Pc<E>)
    requires s.head < |s.data|
  {
    pc.Inside? ==>
      match pc.op
      case Push(e) =>
        && (pc.at.Copy? || pc.at.Count? ==> s.len < |s.data| && !s.closed)
        && (pc.at.Count? ==> pc.at.v == e == s.data[(s.head + s.len) % |s.data|])
      case Pop =>
        && (pc.at.Copy? || pc.at.Count? ==> s.len > 0)
        && (pc.at.Count? ==> pc.at.v == s.data[s.head])
      case Close => !pc.at.Copy? && !pc.at.Count? && (Notifies(pc) ==> s.closed)
  }

  ghost predicate RingOk<E>(s: State<E>)
    requires MutualExclusion(s)
  {
    && s.head < |s.data| && s.len <= |s.data|
    && s.pushed == s.popped + Contents(s.data, s.head, s.len)
    && RingAt(s, Holder(s))
  }

  /** A pusher that has counted its element but not signalled yet, or a consumer that has not
      yet taken its element: each will see to one element. */
  predicate OwesConsumer<E>(pc: Pc<E>) {
    pc.Inside? && if pc.op.Pop? then pc.at.Test? || pc.at.Copy? || pc.at.Count? else pc.op.Push? && pc.at.Notify?
  }

  predicate OwesProducer<E>(pc: Pc<E>) {
    pc.Inside? && if pc.op.Push? then pc.at.Test? || pc.at.Copy? || pc.at.Count? else pc.op.Pop? && pc.at.Notify?
  }

  /** How many threads sleep on each condition and how many have been signalled on it. */
  datatype Tally = Tally(sleepingConsumers: nat, sleepingProducers: nat,
                         signalledConsumers: nat, signalledProducers: nat)

  ghost function TallyOf<E>(pcs: map<Thread, Pc<E>>): Tally {
    Tally(|SleepingConsumers(pcs)|, |SleepingProducers(pcs)|, |SignalledConsumers(pcs)|, |SignalledProducers(pcs)|)
  }

  /** While open, no more elements than consumers on their way beside a sleeping consumer, and no
      more free slots than producers on their way beside a sleeping producer; once closed, only
      those the broadcasts are about to wake still sleep. */
  ghost predicate Covered<E>(closed: bool, len: int, free: int, n: Tally, holder: Pc<E>) {
    && (!closed && n.sleepingConsumers > 0 ==> len <= n.signalledConsumers + One(OwesConsumer(holder)))
    && (!closed && n.sleepingProducers > 0 ==> free <= n.signalledProducers + One(OwesProducer(holder)))
    && (closed && n.sleepingConsumers > 0 ==> holder.Inside? && holder.op.Close? && holder.at.Notify?)
    && (closed && n.sleepingProducers > 0 ==> holder.Inside? && holder.op.Close? && Notifies(holder))
  }

  ghost predicate NoLostWakeup<E>(s: State<E>)
    requires MutualExclusion(s)
  {
    Covered(s.closed, s.len, |s.data| - s.len, TallyOf(s.pcs), Holder(s))
  }

  predicate Succeeded<E>(result: Result<E>) {
    result.Ok? || result.Got?
  }

  /** A result that its operation can have, and that the queue justifies. */
  predicate Honest<E>(op: Op<E>, result: Result<E>, closed: bool, len: nat) {
    match result
    case Ok => !op.Pop? && (op.Close? ==> closed)
    case Got(_) => op.Pop?
    case NotFound => op.Pop? && closed && len == 0
    case Unsupported => op.Push? && closed
  }

  /** The thread inside is about to return an honest result: a refused pop has seen the queue closed
      and drained, a refused push has seen it closed. */
  ghost predicate RefusalsJustified<E>(s: State<E>)
    requires MutualExclusion(s)
  {
    var pc := Holder(s);
    pc.Inside? ==>
      && (pc.at.Notify? ==> Succeeded(pc.at.success) && Honest(pc.op, pc.at.success, s.closed, s.len))
      && (pc.at.NotifyProducers? ==> pc.op.Close?)
      && (pc.at.Unlock? ==> Honest(pc.op, pc.at.result, s.closed, s.len))
  }

  /** The call a thread is in, if any. */
  function Asking<E>(pc: Pc<E>): seq<Op<E>> {
    if pc.Outside? then [] else [pc.op]
  }

  /** The call of thread t that took effect and has not returned, if any. */
  function Pending<E>(t: Thread, pc: Pc<E>): seq<Reply<Op<E>, Result<E>>> {
    if !pc.Inside? then []
    else
      match pc.at
      case Notify(success) => [Reply(t, pc.op, success)]
      case NotifyProducers => [Reply(t, pc.op, Ok)]
      case Unlock(result) => if Succeeded(result) then [Reply(t, pc.op, result)] else []
      case _ => []
  }

  /** What a call pushes and what it pops. */
  function Pushes<E>(r: Reply<Op<E>, Result<E>>): seq<E> {
    if r.op.Push? then [r.op.e] else []
  }

  function Pops<E>(r: Reply<Op<E>, Result<E>>): seq<E> {
    if r.result.Got? then [r.result.v] else []
  }

  /** What thread t asked for, what took effect and what it was answered agree. */
  ghost predicate Settled<E>(s: State<E>, t: Thread)
    requires t in s.pcs
  {
    Balanced(s.logs, t, Asking(s.pcs[t]), Pending(t, s.pcs[t]), Succeeded)
  }

  ghost predicate Ledgers<E>(s: State<E>) {
    && (forall t :: t in s.pcs ==> Settled(s, t))
    && Collect(s.logs.took, Pushes) == s.pushed && Collect(s.logs.took, Pops) == s.popped
    && (forall r :: r in s.logs.took ==> Succeeded(r.result) && Honest(r.op, r.result, s.closed, s.len))
    && (forall r :: r in s.logs.returned ==> Honest(r.op, r.result, s.closed, s.len))
    && (s.closed ==> exists r :: r in s.logs.took && r.op.Close?)
  }

  ghost predicate Inv<E>(s: State<E>) {
    MutualExclusion(s) && RingOk(s) && NoLostWakeup(s) && RefusalsJustified(s) && Ledgers(s)
  }

  // ----- preservation --------------------------------------------------------------------------

  /** How one thread's move changes the tally. */
  lemma {:induction false} MoveCounts<E>(pcs: map<Thread, Pc<E>>, t: Thread, pc: Pc<E>)
    requires t in pcs
    ensures var n, n' := TallyOf(pcs), TallyOf(pcs[t := pc]);
            && n'.signalledConsumers == n.signalledConsumers + One(IsPopSignalled(pc)) - One(IsPopSignalled(pcs[t]))
            && n'.signalledProducers == n.signalledProducers + One(IsPushSignalled(pc)) - One(IsPushSignalled(pcs[t]))
            && n'.sleepingConsumers == n.sleepingConsumers + One(IsPopAsleep(pc)) - One(IsPopAsleep(pcs[t]))
            && n'.sleepingProducers == n.sleepingProducers + One(IsPushAsleep(pc)) - One(IsPushAsleep(pcs[t]))
  {
    WhereMove(pcs, t, pc, IsPopSignalled);
    WhereMove(pcs, t, pc, IsPushSignalled);
    WhereMove(pcs, t, pc, IsPopAsleep);
    WhereMove(pcs, t, pc, IsPushAsleep);
  }

  /** Waking moves sleepers of one condition to its signalled threads and no other thread. */
  lemma {:induction false} WakeCounts<E>(pcs: map<Thread, Pc<E>>, pc: Pc<E>, wake: set<Thread>)
    requires wake <= Audience(pcs, pc)
    ensures var n := TallyOf(pcs);
            var k := |wake|;
            if NotifiesConsumers(pc) then
              k <= n.sleepingConsumers && TallyOf(Update(pcs, wake, Signal)) ==
                n.(sleepingConsumers := n.sleepingConsumers - k, signalledConsumers := n.signalledConsumers + k)
            else
              k <= n.sleepingProducers && TallyOf(Update(pcs, wake, Signal)) ==
                n.(sleepingProducers := n.sleepingProducers - k, signalledProducers := n.signalledProducers + k)
  {
    if NotifiesConsumers(pc) {
      WhereUpdate(pcs, wake, Signal, IsPopAsleep, IsPopSignalled);
      WhereUntouched(pcs, wake, Signal, IsPushAsleep);
      WhereUntouched(pcs, wake, Signal, IsPushSignalled);
    } else {
      WhereUpdate(pcs, wake, Signal, IsPushAsleep, IsPushSignalled);
      WhereUntouched(pcs, wake, Signal, IsPopAsleep);
      WhereUntouched(pcs, wake, Signal, IsPopSignalled);
    }
  }

  function AfterMove<E>(mutex: Mutex, t: Thread, pc: Pc<E>, pc': Pc<E>): Mutex {
    if pc'.Inside? then Held(t) else if pc.Inside? then Free else mutex
  }

  /** One thread enters or leaves, or nobody does. */
  lemma {:induction false} OneHolder<E>(
    pcs: map<Thread, Pc<E>>, mutex: Mutex, pcs': map<Thread, Pc<E>>, mutex': Mutex, t: Thread)
    requires Exclusive(pcs, mutex) && t in pcs && pcs'.Keys == pcs.Keys
    requires forall u :: u in pcs && u != t ==> pcs'[u].Inside? == pcs[u].Inside?
    requires mutex' == AfterMove(mutex, t, pcs[t], pcs'[t])
    requires pcs'[t].Inside? && !pcs[t].Inside? ==> mutex.Free?
    ensures Exclusive(pcs', mutex')
  {
  }

  /** A step moves one thread; a wakeup also moves sleeping threads. */
  lemma {:induction false} StepMoves<E>(s: State<E>, ev: Event<E>)
    requires Enabled(s, ev)
    ensures ev.t in Apply(s, ev).pcs
    ensures Apply(s, ev).pcs ==
            (if ev.Wake? then Update(s.pcs, ev.wake, Signal) else s.pcs)[ev.t := Apply(s, ev).pcs[ev.t]]
  {
  }

  lemma {:induction false} StepMovesMutex<E>(s: State<E>, ev: Event<E>)
    requires MutualExclusion(s) && Enabled(s, ev)
    ensures var s' := Apply(s, ev);
            && ev.t in s'.pcs
            && s'.mutex == AfterMove(s.mutex, ev.t, s.pcs[ev.t], s'.pcs[ev.t])
            && (s'.pcs[ev.t].Inside? && !s.pcs[ev.t].Inside? ==> s.mutex.Free?)
  {
  }

  lemma {:induction false} StepKeepsExclusion<E>(s: State<E>, ev: Event<E>)
    requires MutualExclusion(s) && Enabled(s, ev)
    ensures MutualExclusion(Apply(s, ev))
  {
    StepMoves(s, ev);
    StepMovesMutex(s, ev);
    OneHolder(s.pcs, s.mutex, Apply(s, ev).pcs, Apply(s, ev).mutex, ev.t);
  }

  lemma {:induction false} PushStepKeepsRing<E>(s: State<E>, t: Thread)
    requires MutualExclusion(s) && RingOk(s) && RefusalsJustified(s)
    requires Enabled(s, Step(t)) && s.pcs[t].op.Push?
    requires MutualExclusion(Apply(s, Step(t)))
    ensures RingOk(Apply(s, Step(t))) && RefusalsJustified(Apply(s, Step(t)))
  {
    var pc := s.pcs[t];
    if pc.at.Copy? {
      AppendBehind(s.data, s.head, s.len, pc.op.e);
    } else if pc.at.Count? {
      AppendBehind(s.data, s.head, s.len, pc.op.e);
      assert s.data[(s.head + s.len) % |s.data| := pc.op.e] == s.data;
    }
  }

  lemma {:induction false} PopStepKeepsRing<E>(s: State<E>, t: Thread)
    requires MutualExclusion(s) && RingOk(s) && RefusalsJustified(s)
    requires Enabled(s, Step(t)) && s.pcs[t].op.Pop?
    requires MutualExclusion(Apply(s, Step(t)))
    ensures RingOk(Apply(s, Step(t))) && RefusalsJustified(Apply(s, Step(t)))
  {
    if s.pcs[t].at.Count? {
      DropOldest(s.data, s.head, s.len);
    }
  }

  lemma {:induction false} StepKeepsRing<E>(s: State<E>, ev: Event<E>)
    requires MutualExclusion(s) && RingOk(s) && RefusalsJustified(s) && Enabled(s, ev)
    requires MutualExclusion(Apply(s, ev))
    ensures RingOk(Apply(s, ev)) && RefusalsJustified(Apply(s, ev))
  {
    if ev.Step? && s.pcs[ev.t].op.Push? {
      PushStepKeepsRing(s, ev.t);
    } else if ev.Step? && s.pcs[ev.t].op.Pop? {
      PopStepKeepsRing(s, ev.t);
    }
  }

  /** A thread's place as the holder of the mutex, if it is inside. */
  function AsHolder<E>(pc: Pc<E>): Pc<E> {
    if pc.Inside? then pc else Outside
  }

  /** What a thread's own step does to the coverage, for any tally: only the thread that moves can
      add to the sleepers. */
  lemma {:induction false} InsideCovers<E>(s: State<E>, t: Thread, n: Tally)
    requires MutualExclusion(s) && RingOk(s) && Enabled(s, Step(t))
    requires Covered(s.closed, s.len, |s.data| - s.len, n, s.pcs[t])
    ensures var s' := Apply(s, Step(t));
            && t in s'.pcs && !IsPopSignalled(s'.pcs[t]) && !IsPushSignalled(s'.pcs[t])
            && var n' := n.(sleepingConsumers := n.sleepingConsumers + One(IsPopAsleep(s'.pcs[t])),
                            sleepingProducers := n.sleepingProducers + One(IsPushAsleep(s'.pcs[t])));
               Covered(s'.closed, s'.len, |s'.data| - s'.len, n', AsHolder(s'.pcs[t]))
  {
  }

  lemma {:induction false} InsideKeepsWakeups<E>(s: State<E>, t: Thread)
    requires MutualExclusion(s) && RingOk(s) && NoLostWakeup(s) && Enabled(s, Step(t))
    requires MutualExclusion(Apply(s, Step(t)))
    ensures NoLostWakeup(Apply(s, Step(t)))
  {
    StepMoves(s, Step(t));
    StepMovesMutex(s, Step(t));
    assert Holder(s) == s.pcs[t];
    InsideCovers(s, t, TallyOf(s.pcs));
    MoveCounts(s.pcs, t, Apply(s, Step(t)).pcs[t]);
  }

  lemma {:induction false} WakeKeepsWakeups<E>(s: State<E>, t: Thread, wake: set<Thread>)
    requires MutualExclusion(s) && RingOk(s) && NoLostWakeup(s) && Enabled(s, Wake(t, wake))
    requires MutualExclusion(Apply(s, Wake(t, wake)))
    ensures NoLostWakeup(Apply(s, Wake(t, wake)))
  {
    var pc := s.pcs[t];
    WakeCounts(s.pcs, pc, wake);
    MoveCounts(Update(s.pcs, wake, Signal), t, AfterNotify(pc));
    assert Holder(s) == pc;
  }

  lemma {:induction false} StepKeepsWakeups<E>(s: State<E>, ev: Event<E>)
    requires MutualExclusion(s) && RingOk(s) && NoLostWakeup(s) && Enabled(s, ev)
    requires MutualExclusion(Apply(s, ev))
    ensures NoLostWakeup(Apply(s, ev))
  {
    match ev
    case Wake(t, wake) => WakeKeepsWakeups(s, t, wake);
    case Step(t) => InsideKeepsWakeups(s, t);
    case _ => MoveCounts(s.pcs, ev.t, Apply(s, ev).pcs[ev.t]);
  }

  /** The statement that makes a call take effect. */
  predicate TakesEffect<E>(ev: Event<E>, pc: Pc<E>) {
    ev.Step? && pc.Inside? && if pc.op.Close? then pc.at.Test? else pc.at.Count?
  }

  /** What a step adds to the logs. */
  function EntryOf<E>(ev: Event<E>, pc: Pc<E>): Entry<Op<E>, Result<E>> {
    if ev.Call? then Asks(ev.op)
    else if TakesEffect(ev, pc) then Takes(pc.op, if pc.op.Pop? && pc.at.Count? then Got(pc.at.v) else Ok)
    else if ev.Step? && pc.Inside? && pc.at.Unlock? then Returns(pc.op, pc.at.result)
    else Quiet
  }

  lemma {:induction false} StepLogs<E>(s: State<E>, ev: Event<E>)
    requires MutualExclusion(s) && RingOk(s) && Enabled(s, ev)
    ensures Apply(s, ev).logs == Record(s.logs, ev.t, EntryOf(ev, s.pcs[ev.t]))
  {
  }

  lemma {:induction false} StepFits<E>(s: State<E>, ev: Event<E>)
    requires MutualExclusion(s) && RingOk(s) && RefusalsJustified(s) && Enabled(s, ev)
    ensures var pc := s.pcs[ev.t];
            && ev.t in Apply(s, ev).pcs
            && var pc' := Apply(s, ev).pcs[ev.t];
               Fits(ev.t, EntryOf(ev, pc), Asking(pc), Pending(ev.t, pc), Asking(pc'), Pending(ev.t, pc'), Succeeded)
  {
  }

  /** What a call that takes effect does, and that nothing else does it. */
  lemma {:induction false} StepEffects<E>(s: State<E>, ev: Event<E>)
    requires MutualExclusion(s) && RingOk(s) && RefusalsJustified(s) && Enabled(s, ev)
    ensures var s', entry := Apply(s, ev), EntryOf(ev, s.pcs[ev.t]);
            && s'.pushed == s.pushed + (if entry.Takes? && entry.op.Push? then [entry.op.e] else [])
            && s'.popped == s.popped + (if entry.Takes? && entry.result.Got? then [entry.result.v] else [])
            && (s.closed ==> s'.closed && s'.len <= s.len)
            && (s'.closed && !s.closed ==> entry.Takes? && entry.op.Close?)
            && (entry.Takes? ==> Succeeded(entry.result))
            && (entry.Takes? || entry.Returns? ==> Honest(entry.op, entry.result, s'.closed, s'.len))
  {
  }

  /** The elements and the honesty of the logs, for any state that an entry leads to. */
  lemma {:induction false} EntryKeepsHistory<E>(
    logs: Logs<Op<E>, Result<E>>, t: Thread, entry: Entry<Op<E>, Result<E>>,
    closed: bool, len: nat, closed': bool, len': nat)
    requires forall r :: r in logs.took ==> Succeeded(r.result) && Honest(r.op, r.result, closed, len)
    requires forall r :: r in logs.returned ==> Honest(r.op, r.result, closed, len)
    requires closed ==> closed' && len' <= len
    requires entry.Takes? ==> Succeeded(entry.result)
    requires entry.Takes? || entry.Returns? ==> Honest(entry.op, entry.result, closed', len')
    ensures var logs' := Record(logs, t, entry);
            && (forall r :: r in logs'.took ==> Succeeded(r.result) && Honest(r.op, r.result, closed', len'))
            && (forall r :: r in logs'.returned ==> Honest(r.op, r.result, closed', len'))
            && Collect(logs'.took, Pushes) == Collect(logs.took, Pushes) + (if entry.Takes? &&
              entry.op.Push? then [entry.op.e] else [])
            && Collect(logs'.took, Pops) ==
               Collect(logs.took, Pops) + (if entry.Takes? && entry.result.Got? then [entry.result.v] else [])
  {
    if entry.Takes? {
      CollectMore(logs.took, Reply(t, entry.op, entry.result), Pushes);
      CollectMore(logs.took, Reply(t, entry.op, entry.result), Pops);
    }
  }

  lemma {:induction false} SomeClose<E>(
    logs: Logs<Op<E>, Result<E>>, t: Thread, entry: Entry<Op<E>, Result<E>>)
    requires (exists r :: r in logs.took && r.op.Close?) || (entry.Takes? && entry.op.Close?)
    ensures exists r :: r in Record(logs, t, entry).took && r.op.Close?
  {
    if entry.Takes? && entry.op.Close? {
      assert Record(logs, t, entry).took[|logs.took|].op.Close?;
    } else {
      var r :| r in logs.took && r.op.Close?;
      assert r in Record(logs, t, entry).took;
    }
  }

  lemma {:induction false} StepSettlesOwn<E>(s: State<E>, ev: Event<E>)
    requires MutualExclusion(s) && RingOk(s) && RefusalsJustified(s) && Enabled(s, ev) && Settled(s, ev.t)
    ensures ev.t in Apply(s, ev).pcs && Settled(Apply(s, ev), ev.t)
  {
    StepLogs(s, ev);
    StepFits(s, ev);
    var t, pc, pc' := ev.t, s.pcs[ev.t], Apply(s, ev).pcs[ev.t];
    RecordKeepsOwn(s.logs, t, EntryOf(ev, pc), Asking(pc), Pending(t, pc), Asking(pc'), Pending(t, pc'), Succeeded);
  }

  /** Being woken changes nothing of a call. */
  lemma {:induction false} SignalSettles<E>(pc: Pc<E>, t: Thread)
    ensures Asking(Signal(pc)) == Asking(pc) && Pending(t, Signal(pc)) == Pending(t, pc)
  {
  }

  lemma {:induction false} StepSettlesOther<E>(s: State<E>, ev: Event<E>, u: Thread)
    requires MutualExclusion(s) && RingOk(s) && RefusalsJustified(s) && Enabled(s, ev)
    requires u in s.pcs && u != ev.t && Settled(s, u)
    ensures u in Apply(s, ev).pcs && Settled(Apply(s, ev), u)
  {
    StepMoves(s, ev);
    StepLogs(s, ev);
    SignalSettles(s.pcs[u], u);
    RecordKeepsOthers(
      s.logs, ev.t, EntryOf(ev, s.pcs[ev.t]), u, Asking(s.pcs[u]), Pending(u, s.pcs[u]), Succeeded);
  }

  lemma {:induction false} StepKeepsLedgers<E>(s: State<E>, ev: Event<E>)
    requires MutualExclusion(s) && RingOk(s) && RefusalsJustified(s) && Ledgers(s) && Enabled(s, ev)
    ensures Ledgers(Apply(s, ev))
  {
    var s', entry := Apply(s, ev), EntryOf(ev, s.pcs[ev.t]);
    StepMoves(s, ev);
    StepLogs(s, ev);
    StepEffects(s, ev);
    EntryKeepsHistory(s.logs, ev.t, entry, s.closed, s.len, s'.closed, s'.len);
    if s'.closed { SomeClose(s.logs, ev.t, entry); }
    forall u | u in s'.pcs
      ensures Settled(s', u)
    {
      if u == ev.t { StepSettlesOwn(s, ev); } else { StepSettlesOther(s, ev, u); }
    }
  }

  lemma {:induction false} StepKeepsInv<E>(s: State<E>, ev: Event<E>)
    requires Inv(s) && Enabled(s, ev)
    ensures Inv(Apply(s, ev))
  {
    StepKeepsExclusion(s, ev);
    StepKeepsRing(s, ev);
    StepKeepsWakeups(s, ev);
    StepKeepsLedgers(s, ev);
  }

  lemma {:induction false} InitHolds<E>(bytes: seq<E>, threads: set<Thread>)
    requires |bytes| > 0
    ensures Inv(Init(bytes, threads))
  {
  }

  lemma {:induction false} StepKeepsRoom<E>(s: State<E>, ev: Event<E>)
    requires Enabled(s, ev)
    ensures |Apply(s, ev).data| == |s.data|
  {
  }

  lemma {:induction false} RunKeepsRoom<E>(s: State<E>, evs: seq<Event<E>>)
    requires Exec(s, evs).Reached?
    ensures |Exec(s, evs).state.data| == |s.data|
  {
    if evs != [] {
      RunKeepsRoom(s, evs[..|evs| - 1]);
      StepKeepsRoom(Exec(s, evs[..|evs| - 1]).state, evs[|evs| - 1]);
    }
  }

  lemma {:induction false} RunKeepsInv<E>(bytes: seq<E>, threads: set<Thread>, evs: seq<Event<E>>)
    requires |bytes| > 0 && Exec(Init(bytes, threads), evs).Reached?
    ensures Inv(Exec(Init(bytes, threads), evs).state)
    ensures |Exec(Init(bytes, threads), evs).state.data| == |bytes|
  {
    RunKeepsRoom(Init(bytes, threads), evs);
    if evs == [] {
      InitHolds(bytes, threads);
    } else {
      RunKeepsInv(bytes, threads, evs[..|evs| - 1]);
      StepKeepsInv(Exec(Init(bytes, threads), evs[..|evs| - 1]).state, evs[|evs| - 1]);
    }
  }

  // ----- main results --------------------------------------------------------------------------

  /** Nothing is lost, duplicated or reordered; refusals are justified by the final history. */
  lemma {:induction false} HistoryIsFifo<E>(bytes: seq<E>, threads: set<Thread>, evs: seq<Event<E>>)
    requires |bytes| > 0 && Exec(Init(bytes, threads), evs).Reached?
    ensures var s := Exec(Init(bytes, threads), evs).state;
            && 0 < |s.data| == |bytes| && s.len <= |bytes|
            && s.pushed == s.popped + Contents(s.data, s.head, s.len)
            && (forall t :: t in s.pcs && s.pcs[t] == Inside(Pop, Unlock(NotFound)) ==>
                  s.closed && s.popped == s.pushed)
            && (forall t, e :: t in s.pcs && s.pcs[t] == Inside(Push(e), Unlock(Unsupported)) ==> s.closed)
  {
    RunKeepsInv(bytes, threads, evs);
  }

  /** Every call is answered once, and its answer is true: a push that returned success appended its
      own element, once, and a pop that did removed the element it returned; a refused push found the
      queue closed, a refused pop found it closed and drained; nothing else touches the history. */
  lemma {:induction false} AnswersAreTrue<E>(
    bytes: seq<E>, threads: set<Thread>, evs: seq<Event<E>>, t: Thread)
    requires |bytes| > 0 && Exec(Init(bytes, threads), evs).Reached?
    requires t in Exec(Init(bytes, threads), evs).state.pcs
    ensures var s := Exec(Init(bytes, threads), evs).state;
            && AskedBy(s.logs.called, t) == AnsweredTo(s.logs.returned, t) + Asking(s.pcs[t])
            && GoodFor(s.logs.took, t, Succeeded) == GoodFor(s.logs.returned, t, Succeeded) + Pending(t, s.pcs[t])
            && (s.pcs[t].Outside? ==> Asking(s.pcs[t]) == [] && Pending(t, s.pcs[t]) == [])
    ensures var s := Exec(Init(bytes, threads), evs).state;
            && Collect(s.logs.took, Pushes) == s.pushed && Collect(s.logs.took, Pops) == s.popped
            && (s.closed <==> exists r :: r in s.logs.took && r.op.Close?)
            && (forall r :: r in s.logs.took ==> if r.op.Pop? then r.result.Got? else r.result.Ok?)
    ensures var s := Exec(Init(bytes, threads), evs).state;
            forall r :: r in s.logs.returned ==>
              match r.result
              case Ok => !r.op.Pop? && (r.op.Close? ==> s.closed)
              case Got(_) => r.op.Pop?
              case NotFound => r.op.Pop? && s.closed && s.popped == s.pushed
              case Unsupported => r.op.Push? && s.closed
  {
    RunKeepsInv(bytes, threads, evs);
    assert Settled(Exec(Init(bytes, threads), evs).state, t);
  }

  lemma {:induction false} StepAfterClose<E>(s: State<E>, ev: Event<E>)
    requires MutualExclusion(s) && RingOk(s) && s.closed && Enabled(s, ev)
    ensures Apply(s, ev).closed && Apply(s, ev).pushed == s.pushed
  {
  }

  lemma {:induction false} RunFromInv<E>(s: State<E>, evs: seq<Event<E>>)
    requires Inv(s) && Exec(s, evs).Reached?
    ensures Inv(Exec(s, evs).state)
  {
    if evs != [] {
      RunFromInv(s, evs[..|evs| - 1]);
      StepKeepsInv(Exec(s, evs[..|evs| - 1]).state, evs[|evs| - 1]);
    }
  }

  /** After close, no push takes effect on any continuation of the run. */
  lemma {:induction false} NoPushAfterClose<E>(s: State<E>, evs: seq<Event<E>>)
    requires Inv(s) && s.closed && Exec(s, evs).Reached?
    ensures Inv(Exec(s, evs).state) && Exec(s, evs).state.closed
    ensures Exec(s, evs).state.pushed == s.pushed
  {
    RunFromInv(s, evs);
    if evs != [] {
      NoPushAfterClose(s, evs[..|evs| - 1]);
      StepAfterClose(Exec(s, evs[..|evs| - 1]).state, evs[|evs| - 1]);
    }
  }

  /** Whenever the mutex is free: a consumer asleep beside elements is matched, element by element,
      by signalled consumers; dually for producers and free slots; and once closed nobody sleeps. */
  lemma {:induction false} NothingIsStranded<E>(bytes: seq<E>, threads: set<Thread>, evs: seq<Event<E>>)
    requires |bytes| > 0 && Exec(Init(bytes, threads), evs).Reached?
    ensures var s := Exec(Init(bytes, threads), evs).state;
            s.mutex.Free? ==>
              && (!s.closed && SleepingConsumers(s.pcs) != {} ==> s.len <= |SignalledConsumers(s.pcs)|)
              && (!s.closed && SleepingProducers(s.pcs) != {} ==> |bytes| - s.len <= |SignalledProducers(s.pcs)|)
              && (s.closed ==> SleepingConsumers(s.pcs) == {} && SleepingProducers(s.pcs) == {})
  {
    RunKeepsInv(bytes, threads, evs);
  }

  ghost predicate Runnable<E>(s: State<E>, t: Thread) {
    t in s.pcs && !s.pcs[t].Outside? && !Sleeps(s.pcs[t])
  }

  lemma {:induction false} HolderMoves<E>(s: State<E>)
    requires MutualExclusion(s) && RingOk(s) && RefusalsJustified(s) && s.mutex.Held?
    ensures var t := s.mutex.holder;
            Enabled(s, Step(t)) || Enabled(s, Wake(t, Audience(s.pcs, s.pcs[t])))
  {
  }

  /** The thread that holds the mutex is never stuck: its next statement is enabled. */
  lemma {:induction false} HolderCanMove<E>(bytes: seq<E>, threads: set<Thread>, evs: seq<Event<E>>)
    requires |bytes| > 0 && Exec(Init(bytes, threads), evs).Reached?
    ensures var s := Exec(Init(bytes, threads), evs).state;
            s.mutex.Held? ==>
              var t := s.mutex.holder;
              && t in s.pcs
              && (Enabled(s, Step(t)) || Enabled(s, Wake(t, Audience(s.pcs, s.pcs[t]))))
  {
    RunKeepsInv(bytes, threads, evs);
    var s := Exec(Init(bytes, threads), evs).state;
    if s.mutex.Held? { HolderMoves(s); }
  }

  /** With the mutex free every thread that wants it can take it; a thread outside can make any
      call, and a sleeping one can wake for no reason. */
  lemma {:induction false} EveryoneCanMove<E>(
    bytes: seq<E>, threads: set<Thread>, evs: seq<Event<E>>, t: Thread, op: Op<E>)
    requires |bytes| > 0 && Exec(Init(bytes, threads), evs).Reached?
    requires t in Exec(Init(bytes, threads), evs).state.pcs
    ensures var s := Exec(Init(bytes, threads), evs).state;
            && (s.pcs[t].Outside? ==> Enabled(s, Call(t, op)))
            && (Sleeps(s.pcs[t]) ==> Enabled(s, Spurious(t)))
            && (s.mutex.Free? && Runnable(s, t) ==> Enabled(s, Acquire(t)))
            && (s.mutex.Held? ==> Runnable(s, s.mutex.holder))
  {
    RunKeepsInv(bytes, threads, evs);
  }

  /** When no thread can run, consumers sleep only on an empty queue and producers only on a full
      one, so the two never wait for each other. */
  lemma {:induction false} NoDeadlock<E>(bytes: seq<E>, threads: set<Thread>, evs: seq<Event<E>>)
    requires |bytes| > 0 && Exec(Init(bytes, threads), evs).Reached?
    requires forall t :: !Runnable(Exec(Init(bytes, threads), evs).state, t)
    ensures var s := Exec(Init(bytes, threads), evs).state;
            && (SleepingConsumers(s.pcs) != {} ==> s.len == 0 && !s.closed)
            && (SleepingProducers(s.pcs) != {} ==> s.len == |bytes| && !s.closed)
            && (SleepingConsumers(s.pcs) == {} || SleepingProducers(s.pcs) == {})
  {
    RunKeepsInv(bytes, threads, evs);
    var s := Exec(Init(bytes, threads), evs).state;
    if s.mutex.Held? {
      assert Runnable(s, s.mutex.holder);
    }
    forall t
      ensures t !in SignalledConsumers(s.pcs) && t !in SignalledProducers(s.pcs)
    {
      assert !Runnable(s, t);
    }
    assert SignalledConsumers(s.pcs) == {} && SignalledProducers(s.pcs) == {};
  }
}
