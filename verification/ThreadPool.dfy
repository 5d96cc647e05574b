/** The thread pool of src/hpc/thread_pool.c.

    `TaskList` is the linked queue the mutex protects.  The pool around it is a state machine over
    any number of workers and clients, from creation to the end of `thread_pool_destroy`: workers
    take the mutex, sleep on the one condition variable, dequeue and run tasks outside the mutex;
    clients submit, and so may a task from its own function; a destroyer sets the shutdown flag,
    broadcasts, joins every worker in turn and drains what is left.  Spurious wakeups are allowed,
    and a signal wakes at least one sleeping worker if there is one. */
module ThreadPool {
  import opened Counting
  import opened Ledger
  import opened Maps

  // ----- the linked queue ----------------------------------------------------------------------

  class Node<T> {
    const task: T
    var next: Node?<T>

    constructor (task: T)
      ensures this.task == task && next == null
    {
      this.task := task;
      next := null;
    }
  }

  class TaskList<T> {
    var head: Node?<T>
    var tail: Node?<T>
    ghost var nodes: seq<Node<T>>

    ghost predicate Valid()
      reads this, nodes
    {
      && (nodes == [] ==> head == null && tail == null)
      && (nodes != [] ==> head == nodes[0] && tail == nodes[|nodes| - 1] && nodes[|nodes| - 1].next == null)
      && (forall i :: 0 <= i < |nodes| - 1 ==> nodes[i].next == nodes[i + 1])
      && (forall i, j :: 0 <= i < j < |nodes| ==> nodes[i] != nodes[j])
    }

    ghost function Tasks(): seq<T>
      reads this
    {
      var ns := nodes;
      seq(|ns|, i requires 0 <= i < |ns| => ns[i].task)
    }

    constructor ()
      ensures Valid() && Tasks() == []
    {
      head, tail, nodes := null, null, [];
    }

    /** The enqueue of `thread_pool_submit`; on `Tasks()` it is the step `Change` of `SubmitStep`. */
    method Append(task: T)
      requires Valid()
      modifies this, nodes
      ensures Valid() && fresh(set n | n in nodes && n !in old(nodes))
      ensures Tasks() == old(Tasks()) + [task]
    {
      var t := new Node(task);
      if tail != null {
        tail.next := t;
      } else {
        head := t;
      }
      tail := t;
      nodes := nodes + [t];
    }

    /** The dequeue of `worker`; on `Tasks()` it is the step `Change` of `WorkerStep`. */
    method TakeFirst() returns (task: T)
      requires Valid() && head != null
      modifies this
      ensures Valid()
      ensures task == old(Tasks())[0] && Tasks() == old(Tasks())[1..]
    {
      var t := head;
      head := t.next;
      if head == null {
        tail := null;
      }
      nodes := nodes[1..];
      task := t.task;
    }
  }

  // ----- the pool ------------------------------------------------------------------------------

  type Thread = nat

  datatype Result = Ok | Unsupported

  /** Who calls `thread_pool_submit`: a client, or the k-th dequeued task from its own function. */
  datatype Caller = Client | FromTask(k: nat)

  datatype Op<T> = Work | Submit(task: T, caller: Caller) | Destroy

  /** Statements of a critical section: `Test` is the worker's loop test, the submitter's check of
      `shutdown`, or the destroyer's assignment to it; `Change` dequeues or enqueues. */
  datatype Statement = Test | Change | Notify | Unlock(result: Result) | Leave(k: nat) | Exit

  datatype Wait = Asleep | Signalled | Woken

  datatype Pc<T> =
    | Outside                          // a client between calls
    | Entering(op: Op<T>)              // waiting for the mutex
    | Waiting(how: Wait)               // a worker inside pthread_cond_wait
    | Inside(op: Op<T>, at: Statement)
    | Running(k: nat)                  // a worker in the function of the k-th dequeued task
    | Exited
    | Joining(i: nat)                  // the destroyer with i workers joined; then it drains the queue
    | Destroyed

  datatype Mutex = Free | Held(holder: Thread)

  datatype State<T> = State(
    workers: seq<Thread>,
    queue: seq<T>,
    shutdown: bool,
    mutex: Mutex,
    pcs: map<Thread, Pc<T>>,
    accepted: seq<T>,        // tasks whose submit took effect, in order
    started: seq<T>,         // tasks dequeued by workers, in order
    doer: seq<Thread>,       // doer[k] is the worker that dequeued started[k]
    ran: seq<nat>,           // indices into `started`, in the order the functions returned
    discarded: seq<T>,       // tasks the drain loop threw away
    logs: Logs<Op<T>, Result>)   // what was called, took effect and returned

  datatype Event<T> =
    | Call(t: Thread, op: Op<T>)
    | Acquire(t: Thread)
    | Step(t: Thread)
    | Wake(t: Thread, wake: set<Thread>)
    | Spurious(t: Thread)

  function WorkerSet(workers: seq<Thread>): set<Thread> {
    set w | w in workers
  }

  ghost function Init<T>(workers: seq<Thread>, clients: set<Thread>): State<T> {
    State(workers, [], false, Free,
          Update(Filled(clients + WorkerSet(workers), Outside), WorkerSet(workers), _ => Entering(Work)),
          [], [], [], [], [], Logs([], [], []))
  }

  predicate IsAsleep<T>(pc: Pc<T>) { pc.Waiting? && pc.how.Asleep? }

  predicate IsSignalled<T>(pc: Pc<T>) { pc.Waiting? && pc.how.Signalled? }

  predicate Notifies<T>(pc: Pc<T>) { pc.Inside? && pc.at.Notify? }

  predicate WantsMutex<T>(pc: Pc<T>) { pc.Entering? || (pc.Waiting? && !pc.how.Asleep?) }

  predicate HasExited<T>(s: State<T>, i: nat)
    requires i < |s.workers|
  {
    s.workers[i] in s.pcs && s.pcs[s.workers[i]].Exited?
  }

  predicate Enabled<T>(s: State<T>, ev: Event<T>) {
    && ev.t in s.pcs
    && var pc := s.pcs[ev.t];
       match ev
       case Call(_, op) =>
         || (pc.Outside? && (op.Destroy? || (op.Submit? && op.caller.Client?)))
         || (pc.Running? && op.Submit? && op.caller == FromTask(pc.k))
       case Acquire(_) => s.mutex.Free? && WantsMutex(pc)
       case Step(_) =>
         || (pc.Inside? && !pc.at.Notify? && (pc.op.Work? && pc.at.Change? ==> s.queue != []))
         || pc.Running?
         || (pc.Joining? && (pc.i < |s.workers| ==>
               HasExited(s, pc.i)))
       case Wake(_, wake) =>
         && Notifies(pc)
         && wake <= Where(s.pcs, IsAsleep)
         && (Where(s.pcs, IsAsleep) != {} ==> wake != {})
         && (pc.op.Destroy? ==> wake == Where(s.pcs, IsAsleep))
       case Spurious(_) => IsAsleep(pc)
  }

  function Goto<T>(s: State<T>, t: Thread, pc: Pc<T>): State<T> {
    s.(pcs := s.pcs[t := pc])
  }

  function WorkerStep<T>(s: State<T>, t: Thread, at: Statement): State<T>
    requires at.Change? ==> s.queue != []
  {
    match at
    case Test =>
      if s.queue == [] && !s.shutdown then Goto(s.(mutex := Free), t, Waiting(Asleep))
      else if s.shutdown && s.queue == [] then Goto(s, t, Inside(Work, Exit))
      else Goto(s, t, Inside(Work, Change))
    case Change =>
      Goto(s.(queue := s.queue[1..], started := s.started + [s.queue[0]], doer := s.doer + [t]),
           t, Inside(Work, Leave(|s.started|)))
    case Leave(k) => Goto(s.(mutex := Free), t, Running(k))
    case Exit => Goto(s.(mutex := Free), t, Exited)
    case _ => s
  }

  /** Where a submitter goes on. */
  function BackTo<T>(caller: Caller): Pc<T> {
    match caller
    case Client => Outside
    case FromTask(k) => Running(k)
  }

  function SubmitStep<T>(s: State<T>, t: Thread, task: T, caller: Caller, at: Statement): State<T> {
    match at
    case Test => Goto(s, t, Inside(Submit(task, caller), if s.shutdown then Unlock(Unsupported) else Change))
    case Change =>
      Goto(s.(queue := s.queue + [task], accepted := s.accepted + [task],
              logs := Record(s.logs, t, Takes(Submit(task, caller), Ok))),
           t, Inside(Submit(task, caller), Notify))
    case Unlock(result) =>
      Goto(s.(mutex := Free, logs := Record(s.logs, t, Returns(Submit(task, caller), result))), t, BackTo(caller))
    case _ => s
  }

  function DestroyStep<T>(s: State<T>, t: Thread, at: Statement): State<T> {
    match at
    case Test => Goto(s.(shutdown := true, logs := Record(s.logs, t, Takes(Destroy, Ok))), t, Inside(Destroy, Notify))
    case Unlock(_) => Goto(s.(mutex := Free), t, Joining(0))
    case _ => s
  }

  function OpenStep<T>(s: State<T>, t: Thread, pc: Pc<T>): State<T> {
    match pc
    case Running(k) => Goto(s.(ran := s.ran + [k]), t, Entering(Work))
    case Joining(i) =>
      if i < |s.workers| then Goto(s, t, Joining(i + 1))
      else if s.queue == [] then Goto(s.(logs := Record(s.logs, t, Returns(Destroy, Ok))), t, Destroyed)
      else Goto(s.(queue := s.queue[1..], discarded := s.discarded + [s.queue[0]]), t, pc)
    case _ => s
  }

  function Signal<T>(pc: Pc<T>): Pc<T> {
    if IsAsleep(pc) then Waiting(Signalled) else pc
  }

  ghost function Apply<T>(s: State<T>, ev: Event<T>): State<T>
    requires Enabled(s, ev)
  {
    var pc := s.pcs[ev.t];
    match ev
    case Call(t, op) => Goto(s.(logs := Record(s.logs, t, Asks(op))), t, Entering(op))
    case Acquire(t) => Goto(s.(mutex := Held(t)), t, Inside(if pc.Entering? then pc.op else Work, Test))
    case Step(t) =>
      if pc.Inside? then
        match pc.op
        case Work => WorkerStep(s, t, pc.at)
        case Submit(task, caller) => SubmitStep(s, t, task, caller, pc.at)
        case Destroy => DestroyStep(s, t, pc.at)
      else OpenStep(s, t, pc)
    case Wake(t, wake) => Goto(s.(pcs := Update(s.pcs, wake, Signal)), t, Inside(pc.op, Unlock(Ok)))
    case Spurious(t) => Goto(s, t, Waiting(Woken))
  }

  datatype Outcome<T> = Stuck | Reached(state: State<T>)

  ghost function Exec<T>(s: State<T>, evs: seq<Event<T>>): Outcome<T> {
    if evs == [] then Reached(s)
    else
      var before := Exec(s, evs[..|evs| - 1]);
      var ev := evs[|evs| - 1];
      if before.Reached? && Enabled(before.state, ev) then Reached(Apply(before.state, ev)) else Stuck
  }

  // ----- the invariant -------------------------------------------------------------------------

  ghost predicate Exclusive<T>(pcs: map<Thread, Pc<T>>, mutex: Mutex) {
    && (forall t :: t in pcs && pcs[t].Inside? ==> mutex == Held(t))
    && (mutex.Held? ==> mutex.holder in pcs && pcs[mutex.holder].Inside?)
  }

  ghost predicate MutualExclusion<T>(s: State<T>) {
    Exclusive(s.pcs, s.mutex)
  }

  ghost function Holder<T>(s: State<T>): Pc<T>
    requires MutualExclusion(s)
  {
    if s.mutex.Held? then s.pcs[s.mutex.holder] else Outside
  }

  /** Operations of a worker: its loop, and a submit from the task it runs. */
  predicate WorkerOp<T>(op: Op<T>) {
    op.Work? || (op.Submit? && op.caller.FromTask?)
  }

  /** Workers run the worker loop and its tasks, and nothing else; nobody else does. */
  predicate WorkerPc<T>(pc: Pc<T>) {
    match pc
    case Entering(op) => WorkerOp(op)
    case Inside(op, _) => WorkerOp(op)
    case Waiting(_) => true
    case Running(_) => true
    case Exited => true
    case _ => false
  }

  ghost predicate Roles<T>(s: State<T>) {
    && |s.workers| > 0
    && (forall w :: w in s.workers ==> w in s.pcs && WorkerPc(s.pcs[w]))
    && (forall t :: t in s.pcs && t !in s.workers ==> !WorkerPc(s.pcs[t]))
  }

  function TaskOf<T>(op: Op<T>): int {
    if op.Submit? && op.caller.FromTask? then op.caller.k else -1
  }

  /** The number of the task a worker has dequeued and whose function has not returned, or -1. */
  function InHand<T>(pc: Pc<T>): int {
    match pc
    case Running(k) => k
    case Entering(op) => TaskOf(op)
    case Inside(op, at) => if op.Work? && at.Leave? then at.k else TaskOf(op)
    case _ => -1
  }

  ghost predicate InHandOf<T>(s: State<T>, t: Thread, k: nat) {
    k < |s.doer| && s.doer[k] == t && k !in s.ran
  }

  /** Every dequeued task has run, or is in the hands of the worker that dequeued it; never both. */
  ghost predicate OnceEach<T>(s: State<T>) {
    && |s.doer| == |s.started|
    && (forall k :: 0 <= k < |s.doer| ==> s.doer[k] in s.pcs && (k in s.ran || InHand(s.pcs[s.doer[k]]) == k))
    && (forall t :: t in s.pcs && InHand(s.pcs[t]) >= 0 ==> InHandOf(s, t, InHand(s.pcs[t])))
    && (forall k :: k in s.ran ==> k < |s.doer|)
    && (forall i, j :: 0 <= i < j < |s.ran| ==> s.ran[i] != s.ran[j])
  }

  /** A result that its operation can have: only the shutdown justifies a refusal. */
  predicate Honest<T>(op: Op<T>, result: Result, shutdown: bool) {
    match result
    case Ok => !op.Work? && (op.Destroy? ==> shutdown)
    case Unsupported => op.Submit? && shutdown
  }

  ghost predicate History<T>(s: State<T>)
    requires MutualExclusion(s)
  {
    && s.accepted == s.started + s.queue
    && s.discarded == []
    && match Holder(s)
       case Inside(op, at) =>
         && (op.Work? ==> !at.Notify? && !at.Unlock?)
         && (op.Work? && at.Change? ==> s.queue != [])
         && (op.Work? && at.Exit? ==> s.shutdown && s.queue == [])
         && (op.Submit? && at.Change? ==> !s.shutdown)
         && (op.Destroy? && !at.Test? ==> s.shutdown)
         && (at.Unlock? ==> Honest(op, at.result, s.shutdown))
         && (op.Submit? ==> at.Test? || at.Change? || at.Notify? || at.Unlock?)
         && (op.Destroy? ==> at.Test? || at.Notify? || at == Unlock(Ok))
       case _ => true
  }

  /** An exited worker has seen the pool shut down and the queue empty, which lasts. */
  ghost predicate Exits<T>(s: State<T>) {
    forall t :: t in s.pcs ==>
      && (s.pcs[t].Exited? ==> s.shutdown && s.queue == [])
      && (s.pcs[t].Joining? ==> forall i :: 0 <= i < s.pcs[t].i && i < |s.workers| ==> HasExited(s, i))
      && (s.pcs[t].Destroyed? ==> forall i :: 0 <= i < |s.workers| ==> HasExited(s, i))
  }

  predicate Succeeded(result: Result) {
    result.Ok?
  }

  /** The call a thread is in, if any; the worker loop is none. */
  function Asking<T>(pc: Pc<T>): seq<Op<T>> {
    match pc
    case Entering(op) => if op.Work? then [] else [op]
    case Inside(op, _) => if op.Work? then [] else [op]
    case Joining(_) => [Destroy]
    case _ => []
  }

  /** The call of thread t that took effect and has not returned, if any. */
  function Pending<T>(t: Thread, pc: Pc<T>): seq<Reply<Op<T>, Result>> {
    match pc
    case Inside(op, at) => if !op.Work? && (at.Notify? || at == Unlock(Ok)) then [Reply(t, op, Ok)] else []
    case Joining(_) => [Reply(t, Destroy, Ok)]
    case _ => []
  }

  /** What a call submits. */
  function Submits<T>(r: Reply<Op<T>, Result>): seq<T> {
    if r.op.Submit? then [r.op.task] else []
  }

  /** What thread t asked for, what took effect and what it was answered agree. */
  ghost predicate Settled<T>(s: State<T>, t: Thread)
    requires t in s.pcs
  {
    Balanced(s.logs, t, Asking(s.pcs[t]), Pending(t, s.pcs[t]), Succeeded)
  }

  /** A thread that waits for the workers, or did, has shut the pool down. */
  ghost predicate Closing<T>(s: State<T>) {
    forall t :: t in s.pcs && (s.pcs[t].Joining? || s.pcs[t].Destroyed?) ==> s.shutdown
  }

  ghost predicate Ledgers<T>(s: State<T>) {
    && (forall t :: t in s.pcs ==> Settled(s, t))
    && Collect(s.logs.took, Submits) == s.accepted
    && (forall r :: r in s.logs.took ==> r.result.Ok? && Honest(r.op, r.result, s.shutdown))
    && (forall r :: r in s.logs.returned ==> Honest(r.op, r.result, s.shutdown))
    && (s.shutdown ==> exists r :: r in s.logs.took && r.op.Destroy?)
    && Closing(s)
  }

  /** A worker that has not yet taken its task, or a submitter that has not yet signalled. */
  predicate OwesTask<T>(pc: Pc<T>) {
    pc.Inside? && ((pc.op.Work? && (pc.at.Test? || pc.at.Change?)) || (pc.op.Submit? && pc.at.Notify?))
  }

  ghost predicate Covered<T>(shutdown: bool, queued: nat, asleep: nat, signalled: nat, holder: Pc<T>) {
    asleep > 0 ==>
      if shutdown then holder.Inside? && holder.op.Destroy? && holder.at.Notify?
      else queued <= signalled + One(OwesTask(holder))
  }

  ghost predicate NoLostWakeup<T>(s: State<T>)
    requires MutualExclusion(s)
  {
    Covered(s.shutdown, |s.queue|, |Where(s.pcs, IsAsleep)|, |Where(s.pcs, IsSignalled)|, Holder(s))
  }

  ghost predicate Inv<T>(s: State<T>) {
    && MutualExclusion(s) && Roles(s) && OnceEach(s) && History(s) && Exits(s) && NoLostWakeup(s)
    && Ledgers(s)
  }

  // ----- preservation --------------------------------------------------------------------------

  function AfterMove<T>(mutex: Mutex, t: Thread, pc: Pc<T>, pc': Pc<T>): Mutex {
    if pc'.Inside? then Held(t) else if pc.Inside? then Free else mutex
  }

  /** One thread enters or leaves, or nobody does. */
  lemma {:induction false} OneHolder<T>(
    pcs: map<Thread, Pc<T>>, mutex: Mutex, pcs': map<Thread, Pc<T>>, mutex': Mutex, t: Thread)
    requires Exclusive(pcs, mutex) && t in pcs && pcs'.Keys == pcs.Keys
    requires forall u :: u in pcs && u != t ==> pcs'[u].Inside? == pcs[u].Inside?
    requires mutex' == AfterMove(mutex, t, pcs[t], pcs'[t])
    requires pcs'[t].Inside? && !pcs[t].Inside? ==> mutex.Free?
    ensures Exclusive(pcs', mutex')
  {
  }

  /** A step moves one thread; a wakeup also moves sleeping workers. */
  lemma {:induction false} StepMoves<T>(s: State<T>, ev: Event<T>)
    requires Enabled(s, ev)
    ensures Apply(s, ev).workers == s.workers && ev.t in Apply(s, ev).pcs
    ensures Apply(s, ev).pcs ==
            (if ev.Wake? then Update(s.pcs, ev.wake, Signal) else s.pcs)[ev.t := Apply(s, ev).pcs[ev.t]]
  {
  }

  lemma {:induction false} StepMovesMutex<T>(s: State<T>, ev: Event<T>)
    requires MutualExclusion(s) && Enabled(s, ev)
    ensures var s' := Apply(s, ev);
            && ev.t in s'.pcs
            && s'.mutex == AfterMove(s.mutex, ev.t, s.pcs[ev.t], s'.pcs[ev.t])
            && (s'.pcs[ev.t].Inside? && !s.pcs[ev.t].Inside? ==> s.mutex.Free?)
  {
  }

  lemma {:induction false} StepKeepsExclusion<T>(s: State<T>, ev: Event<T>)
    requires MutualExclusion(s) && Enabled(s, ev)
    ensures MutualExclusion(Apply(s, ev))
  {
    StepMoves(s, ev);
    StepMovesMutex(s, ev);
    OneHolder(s.pcs, s.mutex, Apply(s, ev).pcs, Apply(s, ev).mutex, ev.t);
  }

  lemma {:induction false} CallKeepsHands<T>(s: State<T>, ev: Event<T>)
    requires Enabled(s, ev) && !ev.Step?
    ensures ev.t in Apply(s, ev).pcs && InHand(Apply(s, ev).pcs[ev.t]) == InHand(s.pcs[ev.t])
    ensures WorkerPc(Apply(s, ev).pcs[ev.t]) == WorkerPc(s.pcs[ev.t])
  {
  }

  lemma {:induction false} InsideKeepsRole<T>(s: State<T>, t: Thread)
    requires Enabled(s, Step(t)) && s.pcs[t].Inside?
    ensures t in Apply(s, Step(t)).pcs && WorkerPc(Apply(s, Step(t)).pcs[t]) == WorkerPc(s.pcs[t])
  {
  }

  lemma {:induction false} StepKeepsRole<T>(s: State<T>, ev: Event<T>)
    requires Enabled(s, ev)
    ensures ev.t in Apply(s, ev).pcs && WorkerPc(Apply(s, ev).pcs[ev.t]) == WorkerPc(s.pcs[ev.t])
  {
    if !ev.Step? {
      CallKeepsHands(s, ev);
    } else if s.pcs[ev.t].Inside? {
      InsideKeepsRole(s, ev.t);
    }
  }

  lemma {:induction false} StepKeepsRoles<T>(s: State<T>, ev: Event<T>)
    requires Roles(s) && Enabled(s, ev)
    ensures Roles(Apply(s, ev))
  {
    StepMoves(s, ev);
    StepKeepsRole(s, ev);
    var p, p' := s.pcs, Apply(s, ev).pcs;
    forall t | t in p
      ensures t in p' && WorkerPc(p'[t]) == WorkerPc(p[t])
    {
    }
  }

  /** A step that neither dequeues nor runs a task leaves every task in the same hands. */
  lemma {:induction false} SameHandsKeepOnceEach<T>(s: State<T>, s': State<T>)
    requires OnceEach(s)
    requires s'.started == s.started && s'.doer == s.doer && s'.ran == s.ran
    requires forall t :: t in s.pcs ==> t in s'.pcs
    requires forall t :: t in s'.pcs ==> t in s.pcs && InHand(s'.pcs[t]) == InHand(s.pcs[t])
    ensures OnceEach(s')
  {
  }

  lemma {:induction false} DequeueKeepsOnceEach<T>(s: State<T>, t: Thread)
    requires OnceEach(s) && Enabled(s, Step(t)) && s.pcs[t] == Inside(Work, Change)
    ensures OnceEach(Apply(s, Step(t)))
  {
    var s' := Apply(s, Step(t));
    forall u | u in s'.pcs && InHand(s'.pcs[u]) >= 0
      ensures InHandOf(s', u, InHand(s'.pcs[u]))
    {
      if u != t { assert InHandOf(s, u, InHand(s.pcs[u])); }
    }
  }

  lemma {:induction false} RunKeepsOnceEach<T>(s: State<T>, t: Thread)
    requires OnceEach(s) && Enabled(s, Step(t)) && s.pcs[t].Running?
    ensures OnceEach(Apply(s, Step(t)))
  {
    var s', m := Apply(s, Step(t)), s.pcs[t].k;
    assert InHandOf(s, t, InHand(s.pcs[t]));
    assert forall k :: k in s'.ran <==> k in s.ran || k == m;
    forall u | u in s'.pcs && InHand(s'.pcs[u]) >= 0
      ensures InHandOf(s', u, InHand(s'.pcs[u]))
    {
      assert u != t && InHandOf(s, u, InHand(s.pcs[u]));
    }
  }

  lemma {:induction false} OtherStepsMoveNoTask<T>(s: State<T>, ev: Event<T>)
    requires Enabled(s, ev)
    requires !(ev.Step? && (s.pcs[ev.t] == Inside(Work, Change) || s.pcs[ev.t].Running?))
    ensures var s' := Apply(s, ev); s'.started == s.started && s'.doer == s.doer && s'.ran == s.ran
  {
  }

  lemma {:induction false} OtherStepsKeepHands<T>(s: State<T>, ev: Event<T>)
    requires Enabled(s, ev)
    requires !(ev.Step? && (s.pcs[ev.t] == Inside(Work, Change) || s.pcs[ev.t].Running?))
    ensures ev.t in Apply(s, ev).pcs && InHand(Apply(s, ev).pcs[ev.t]) == InHand(s.pcs[ev.t])
  {
    if !ev.Step? {
      CallKeepsHands(s, ev);
    }
  }

  lemma {:induction false} StepKeepsOnceEach<T>(s: State<T>, ev: Event<T>)
    requires OnceEach(s) && Enabled(s, ev)
    ensures OnceEach(Apply(s, ev))
  {
    var pc := s.pcs[ev.t];
    if ev.Step? && pc == Inside(Work, Change) {
      DequeueKeepsOnceEach(s, ev.t);
    } else if ev.Step? && pc.Running? {
      RunKeepsOnceEach(s, ev.t);
    } else {
      OtherStepsMoveNoTask(s, ev);
      OtherStepsKeepHands(s, ev);
      StepMoves(s, ev);
      SameHandsKeepOnceEach(s, Apply(s, ev));
    }
  }

  lemma {:induction false} StepKeepsHistory<T>(s: State<T>, ev: Event<T>)
    requires MutualExclusion(s) && Roles(s) && History(s) && Exits(s) && Enabled(s, ev)
    requires MutualExclusion(Apply(s, ev))
    ensures History(Apply(s, ev))
  {
    if ev.Step? && s.pcs[ev.t].Joining? && s.pcs[ev.t].i >= |s.workers| {
      assert HasExited(s, 0);
    }
  }

  /** What a step may do once a worker has exited. */
  lemma {:induction false} StepNearExit<T>(s: State<T>, ev: Event<T>)
    requires MutualExclusion(s) && History(s) && Enabled(s, ev)
    ensures var s' := Apply(s, ev);
            && ev.t in s'.pcs && !s.pcs[ev.t].Exited?
            && (s.shutdown ==> s'.shutdown && |s'.queue| <= |s.queue|)
            && (s'.pcs[ev.t].Exited? ==> s'.shutdown && s'.queue == [])
            && (s'.pcs[ev.t].Joining? && s'.pcs[ev.t].i > 0 && s'.pcs[ev.t] != s.pcs[ev.t] ==>
                  && s.pcs[ev.t].Joining?
                  && s'.pcs[ev.t].i == s.pcs[ev.t].i + 1 <= |s.workers|
                  && HasExited(s, s.pcs[ev.t].i))
            && (s'.pcs[ev.t].Destroyed? ==> s.pcs[ev.t].Joining? && s.pcs[ev.t].i >= |s.workers|)
  {
  }

  lemma {:induction false} StepKeepsExits<T>(s: State<T>, ev: Event<T>)
    requires MutualExclusion(s) && History(s) && Exits(s) && Enabled(s, ev)
    ensures Exits(Apply(s, ev))
  {
    StepMoves(s, ev);
    StepNearExit(s, ev);
    var s' := Apply(s, ev);
    forall i | 0 <= i < |s.workers| && HasExited(s, i)
      ensures HasExited(s', i)
    {
    }
  }

  lemma {:induction false} WakeKeepsWakeups<T>(s: State<T>, t: Thread, wake: set<Thread>)
    requires MutualExclusion(s) && History(s) && NoLostWakeup(s) && Enabled(s, Wake(t, wake))
    requires MutualExclusion(Apply(s, Wake(t, wake)))
    ensures NoLostWakeup(Apply(s, Wake(t, wake)))
  {
    var p', pc' := Update(s.pcs, wake, Signal), Inside(s.pcs[t].op, Unlock(Ok));
    WhereUpdate(s.pcs, wake, Signal, IsAsleep, IsSignalled);
    WhereMove(p', t, pc', IsAsleep);
    WhereMove(p', t, pc', IsSignalled);
    assert Holder(s) == s.pcs[t];
  }

  /** A thread's place as the holder of the mutex, if it is inside. */
  function AsHolder<T>(pc: Pc<T>): Pc<T> {
    if pc.Inside? then pc else Outside
  }

  /** What a thread's own step does to the coverage, the sleeping and signalled threads being
      numbers: only the thread that moves can add to the sleepers. */
  lemma {:induction false} InsideCovers<T>(s: State<T>, t: Thread, asleep: nat, signalled: nat)
    requires MutualExclusion(s) && History(s) && Enabled(s, Step(t)) && s.pcs[t].Inside?
    requires Covered(s.shutdown, |s.queue|, asleep, signalled, s.pcs[t])
    ensures var s' := Apply(s, Step(t));
            && t in s'.pcs && !IsSignalled(s'.pcs[t])
            && Covered(s'.shutdown, |s'.queue|, asleep + One(IsAsleep(s'.pcs[t])), signalled, AsHolder(s'.pcs[t]))
  {
  }

  lemma {:induction false} MoveCounts<T>(pcs: map<Thread, Pc<T>>, t: Thread, pc: Pc<T>)
    requires t in pcs
    ensures |Where(pcs[t := pc], IsAsleep)| == |Where(pcs, IsAsleep)| + One(IsAsleep(pc)) - One(IsAsleep(pcs[t]))
    ensures |Where(pcs[t := pc], IsSignalled)| ==
            |Where(pcs, IsSignalled)| + One(IsSignalled(pc)) - One(IsSignalled(pcs[t]))
  {
    WhereMove(pcs, t, pc, IsAsleep);
    WhereMove(pcs, t, pc, IsSignalled);
  }

  lemma {:induction false} InsideKeepsWakeups<T>(s: State<T>, t: Thread)
    requires MutualExclusion(s) && History(s) && NoLostWakeup(s) && Enabled(s, Step(t)) && s.pcs[t].Inside?
    requires MutualExclusion(Apply(s, Step(t)))
    ensures NoLostWakeup(Apply(s, Step(t)))
  {
    StepMoves(s, Step(t));
    StepMovesMutex(s, Step(t));
    assert Holder(s) == s.pcs[t];
    InsideCovers(s, t, |Where(s.pcs, IsAsleep)|, |Where(s.pcs, IsSignalled)|);
    MoveCounts(s.pcs, t, Apply(s, Step(t)).pcs[t]);
  }

  lemma {:induction false} AcquireKeepsWakeups<T>(s: State<T>, t: Thread)
    requires MutualExclusion(s) && Roles(s) && NoLostWakeup(s) && Enabled(s, Acquire(t))
    requires MutualExclusion(Apply(s, Acquire(t)))
    ensures NoLostWakeup(Apply(s, Acquire(t)))
  {
    MoveCounts(s.pcs, t, Apply(s, Acquire(t)).pcs[t]);
    assert Holder(s) == Outside;
  }

  lemma {:induction false} OutsideStep<T>(s: State<T>, ev: Event<T>)
    requires MutualExclusion(s) && Enabled(s, ev)
    requires !ev.Wake? && !ev.Acquire? && !s.pcs[ev.t].Inside?
    requires MutualExclusion(Apply(s, ev))
    ensures var s' := Apply(s, ev);
            && ev.t in s'.pcs && s'.pcs == s.pcs[ev.t := s'.pcs[ev.t]]
            && !IsSignalled(s'.pcs[ev.t]) && !IsAsleep(s'.pcs[ev.t])
            && !IsSignalled(s.pcs[ev.t])
            && s'.shutdown == s.shutdown && |s'.queue| <= |s.queue| && Holder(s') == Holder(s)
  {
  }

  /** Calls, spurious wakeups and the steps outside the critical section. */
  lemma {:induction false} OutsideKeepsWakeups<T>(s: State<T>, ev: Event<T>)
    requires MutualExclusion(s) && NoLostWakeup(s) && Enabled(s, ev)
    requires !ev.Wake? && !ev.Acquire? && !s.pcs[ev.t].Inside?
    requires MutualExclusion(Apply(s, ev))
    ensures NoLostWakeup(Apply(s, ev))
  {
    OutsideStep(s, ev);
    MoveCounts(s.pcs, ev.t, Apply(s, ev).pcs[ev.t]);
  }

  lemma {:induction false} StepKeepsWakeups<T>(s: State<T>, ev: Event<T>)
    requires MutualExclusion(s) && Roles(s) && History(s) && NoLostWakeup(s) && Enabled(s, ev)
    requires MutualExclusion(Apply(s, ev))
    ensures NoLostWakeup(Apply(s, ev))
  {
    if ev.Wake? {
      WakeKeepsWakeups(s, ev.t, ev.wake);
    } else if s.pcs[ev.t].Inside? {
      InsideKeepsWakeups(s, ev.t);
    } else if ev.Acquire? {
      AcquireKeepsWakeups(s, ev.t);
    } else {
      OutsideKeepsWakeups(s, ev);
    }
  }

  /** What a step adds to the logs. */
  function EntryOf<T>(ev: Event<T>, pc: Pc<T>, workers: nat, queued: nat): Entry<Op<T>, Result> {
    if ev.Call? then Asks(ev.op)
    else if !ev.Step? then Quiet
    else
      match pc
      case Inside(op, at) =>
        if (op.Submit? && at.Change?) || (op.Destroy? && at.Test?) then Takes(op, Ok)
        else if op.Submit? && at.Unlock? then Returns(op, at.result)
        else Quiet
      case Joining(i) => if i >= workers && queued == 0 then Returns(Destroy, Ok) else Quiet
      case _ => Quiet
  }

  ghost function EntryAt<T>(s: State<T>, ev: Event<T>): Entry<Op<T>, Result>
    requires Enabled(s, ev)
  {
    EntryOf(ev, s.pcs[ev.t], |s.workers|, |s.queue|)
  }

  lemma {:induction false} StepLogs<T>(s: State<T>, ev: Event<T>)
    requires MutualExclusion(s) && History(s) && Enabled(s, ev)
    ensures Apply(s, ev).logs == Record(s.logs, ev.t, EntryAt(s, ev))
  {
  }

  lemma {:induction false} StepFits<T>(s: State<T>, ev: Event<T>)
    requires MutualExclusion(s) && History(s) && Enabled(s, ev)
    ensures var pc := s.pcs[ev.t];
            && ev.t in Apply(s, ev).pcs
            && var pc' := Apply(s, ev).pcs[ev.t];
               Fits(ev.t, EntryAt(s, ev), Asking(pc), Pending(ev.t, pc), Asking(pc'), Pending(ev.t, pc'), Succeeded)
  {
  }

  /** What a call that takes effect does, and that nothing else does it. */
  lemma {:induction false} StepEffects<T>(s: State<T>, ev: Event<T>)
    requires MutualExclusion(s) && History(s) && Enabled(s, ev)
    requires s.pcs[ev.t].Joining? || s.pcs[ev.t].Destroyed? ==> s.shutdown
    ensures var s', entry := Apply(s, ev), EntryAt(s, ev);
            && s'.accepted == s.accepted + (if entry.Takes? && entry.op.Submit? then [entry.op.task] else [])
            && (s.shutdown ==> s'.shutdown)
            && (s'.shutdown && !s.shutdown ==> entry.Takes? && entry.op.Destroy?)
            && (entry.Takes? ==> entry.result.Ok?)
            && (entry.Takes? || entry.Returns? ==> Honest(entry.op, entry.result, s'.shutdown))
            && ev.t in s'.pcs && (s'.pcs[ev.t].Joining? || s'.pcs[ev.t].Destroyed? ==> s'.shutdown)
  {
  }

  lemma {:induction false} EntryKeepsHistory<T>(
    logs: Logs<Op<T>, Result>, t: Thread, entry: Entry<Op<T>, Result>, shutdown: bool, shutdown': bool)
    requires forall r :: r in logs.took ==> r.result.Ok? && Honest(r.op, r.result, shutdown)
    requires forall r :: r in logs.returned ==> Honest(r.op, r.result, shutdown)
    requires shutdown ==> shutdown'
    requires entry.Takes? ==> entry.result.Ok?
    requires entry.Takes? || entry.Returns? ==> Honest(entry.op, entry.result, shutdown')
    ensures var logs' := Record(logs, t, entry);
            && (forall r :: r in logs'.took ==> r.result.Ok? && Honest(r.op, r.result, shutdown'))
            && (forall r :: r in logs'.returned ==> Honest(r.op, r.result, shutdown'))
            && Collect(logs'.took, Submits) ==
               Collect(logs.took, Submits) + (if entry.Takes? && entry.op.Submit? then [entry.op.task] else [])
  {
    match entry
    case Takes(op, result) =>
      var r := Reply(t, op, result);
      assert Record(logs, t, entry).took == logs.took + [r];
      CollectMore(logs.took, r, Submits);
    case Returns(_, _) =>
    case Asks(_) =>
    case Quiet =>
  }

  lemma {:induction false} SomeDestroy<T>(logs: Logs<Op<T>, Result>, t: Thread, entry: Entry<Op<T>, Result>)
    requires (exists r :: r in logs.took && r.op.Destroy?) || (entry.Takes? && entry.op.Destroy?)
    ensures exists r :: r in Record(logs, t, entry).took && r.op.Destroy?
  {
    if entry.Takes? && entry.op.Destroy? {
      assert Record(logs, t, entry).took[|logs.took|].op.Destroy?;
    } else {
      var r :| r in logs.took && r.op.Destroy?;
      assert r in Record(logs, t, entry).took;
    }
  }

  lemma {:induction false} StepSettlesOwn<T>(s: State<T>, ev: Event<T>)
    requires MutualExclusion(s) && History(s) && Enabled(s, ev) && Settled(s, ev.t)
    ensures ev.t in Apply(s, ev).pcs && Settled(Apply(s, ev), ev.t)
  {
    StepLogs(s, ev);
    StepFits(s, ev);
    var t, pc, pc' := ev.t, s.pcs[ev.t], Apply(s, ev).pcs[ev.t];
    RecordKeepsOwn(s.logs, t, EntryAt(s, ev), Asking(pc), Pending(t, pc), Asking(pc'), Pending(t, pc'), Succeeded);
  }

  /** Being woken changes nothing of a call. */
  lemma {:induction false} SignalSettles<T>(pc: Pc<T>, t: Thread)
    ensures Asking(Signal(pc)) == Asking(pc) && Pending(t, Signal(pc)) == Pending(t, pc)
    ensures (Signal(pc).Joining? <==> pc.Joining?) && (Signal(pc).Destroyed? <==> pc.Destroyed?)
  {
  }

  lemma {:induction false} StepSettlesOther<T>(s: State<T>, ev: Event<T>, u: Thread)
    requires MutualExclusion(s) && History(s) && Enabled(s, ev)
    requires u in s.pcs && u != ev.t && Settled(s, u)
    ensures u in Apply(s, ev).pcs && Settled(Apply(s, ev), u)
  {
    StepMoves(s, ev);
    StepLogs(s, ev);
    SignalSettles(s.pcs[u], u);
    RecordKeepsOthers(s.logs, ev.t, EntryAt(s, ev), u, Asking(s.pcs[u]), Pending(u, s.pcs[u]), Succeeded);
  }

  lemma {:induction false} StepKeepsClosing<T>(s: State<T>, ev: Event<T>)
    requires MutualExclusion(s) && History(s) && Closing(s) && Enabled(s, ev)
    ensures Closing(Apply(s, ev))
  {
    StepMoves(s, ev);
    StepEffects(s, ev);
    var s' := Apply(s, ev);
    forall u | u in s'.pcs && (s'.pcs[u].Joining? || s'.pcs[u].Destroyed?)
      ensures s'.shutdown
    {
      if u != ev.t { SignalSettles(s.pcs[u], u); }
    }
  }

  lemma {:induction false} StepKeepsLedgers<T>(s: State<T>, ev: Event<T>)
    requires MutualExclusion(s) && History(s) && Ledgers(s) && Enabled(s, ev)
    ensures Ledgers(Apply(s, ev))
  {
    var s', entry := Apply(s, ev), EntryAt(s, ev);
    StepMoves(s, ev);
    StepLogs(s, ev);
    StepEffects(s, ev);
    EntryKeepsHistory(s.logs, ev.t, entry, s.shutdown, s'.shutdown);
    if s'.shutdown { SomeDestroy(s.logs, ev.t, entry); }
    forall u | u in s'.pcs
      ensures Settled(s', u)
    {
      if u == ev.t { StepSettlesOwn(s, ev); } else { StepSettlesOther(s, ev, u); }
    }
    StepKeepsClosing(s, ev);
  }

  lemma {:induction false} StepKeepsInv<T>(s: State<T>, ev: Event<T>)
    requires Inv(s) && Enabled(s, ev)
    ensures Inv(Apply(s, ev))
  {
    StepKeepsExclusion(s, ev);
    StepKeepsRoles(s, ev);
    StepKeepsOnceEach(s, ev);
    StepKeepsHistory(s, ev);
    StepKeepsExits(s, ev);
    StepKeepsWakeups(s, ev);
    StepKeepsLedgers(s, ev);
  }

  lemma {:induction false} InitMonitor<T>(workers: seq<Thread>, clients: set<Thread>)
    requires workers != []
    ensures var s := Init<T>(workers, clients);
            MutualExclusion(s) && Roles(s) && OnceEach(s) && History(s) && Exits(s) && NoLostWakeup(s)
  {
    var s: State<T> := Init(workers, clients);
    assert Where(s.pcs, IsAsleep) == {};
  }

  lemma {:induction false} InitLedgers<T>(workers: seq<Thread>, clients: set<Thread>)
    ensures Ledgers(Init<T>(workers, clients))
  {
    var s: State<T> := Init(workers, clients);
    forall t | t in s.pcs
      ensures Settled(s, t)
    {
      assert s.pcs[t] == Outside || s.pcs[t] == Entering(Work);
    }
  }

  lemma {:induction false} InitHolds<T>(workers: seq<Thread>, clients: set<Thread>)
    requires workers != []
    ensures Inv(Init<T>(workers, clients))
  {
    InitMonitor<T>(workers, clients);
    InitLedgers<T>(workers, clients);
  }

  lemma {:induction false} RunKeepsInv<T>(workers: seq<Thread>, clients: set<Thread>, evs: seq<Event<T>>)
    requires workers != [] && Exec(Init(workers, clients), evs).Reached?
    ensures Inv(Exec(Init(workers, clients), evs).state)
  {
    if evs == [] {
      InitHolds<T>(workers, clients);
    } else {
      RunKeepsInv(workers, clients, evs[..|evs| - 1]);
      StepKeepsInv(Exec(Init(workers, clients), evs[..|evs| - 1]).state, evs[|evs| - 1]);
    }
  }

  // ----- main results --------------------------------------------------------------------------

  /** Accepted tasks are dequeued in submission order, none is dropped by the drain loop, and no
      task is run twice or by anyone but the worker that dequeued it. */
  lemma {:induction false} InOrderAtMostOnce<T>(workers: seq<Thread>, clients: set<Thread>, evs: seq<Event<T>>)
    requires workers != [] && Exec(Init(workers, clients), evs).Reached?
    ensures var s := Exec(Init(workers, clients), evs).state;
            && s.accepted == s.started + s.queue
            && s.discarded == []
            && (forall i :: 0 <= i < |s.ran| ==> s.ran[i] < |s.started|)
            && (forall i, j :: 0 <= i < j < |s.ran| ==> s.ran[i] != s.ran[j])
            && (forall t :: t in s.pcs && InHand(s.pcs[t]) >= 0 ==> InHandOf(s, t, InHand(s.pcs[t])))
  {
    RunKeepsInv(workers, clients, evs);
    var s := Exec(Init(workers, clients), evs).state;
    forall i | 0 <= i < |s.ran|
      ensures s.ran[i] < |s.started|
    {
      assert s.ran[i] in s.ran;
    }
  }

  lemma {:induction false} LedgersTell<T>(s: State<T>, t: Thread)
    requires MutualExclusion(s) && History(s) && Ledgers(s) && t in s.pcs
    ensures AskedBy(s.logs.called, t) == AnsweredTo(s.logs.returned, t) + Asking(s.pcs[t])
    ensures GoodFor(s.logs.took, t, Succeeded) == GoodFor(s.logs.returned, t, Succeeded) + Pending(t, s.pcs[t])
    ensures s.pcs[t].Joining? || s.pcs[t].Destroyed? ==> s.shutdown
    ensures s.shutdown <==> exists r :: r in s.logs.took && r.op.Destroy?
    ensures forall r :: r in s.logs.took ==> r.result.Ok? && !r.op.Work?
    ensures forall r :: r in s.logs.returned ==>
              if r.result.Ok? then r.op.Submit? || (r.op.Destroy? && s.shutdown) else r.op.Submit? && s.shutdown
    ensures s.pcs[t].Inside? && s.pcs[t].at == Unlock(Unsupported) ==> s.pcs[t].op.Submit? && s.shutdown
  {
    assert Settled(s, t);
  }

  /** Every call is answered once, and its answer is true: a submit that returned success enqueued its
      own task, once; only a pool that is shut down refuses one; a destroy shuts the pool down; and
      nothing else touches the history. */
  lemma {:induction false} AnswersAreTrue<T>(
    workers: seq<Thread>, clients: set<Thread>, evs: seq<Event<T>>, t: Thread)
    requires workers != [] && Exec(Init(workers, clients), evs).Reached?
    requires t in Exec(Init(workers, clients), evs).state.pcs
    ensures var s := Exec(Init(workers, clients), evs).state;
            && AskedBy(s.logs.called, t) == AnsweredTo(s.logs.returned, t) + Asking(s.pcs[t])
            && GoodFor(s.logs.took, t, Succeeded) == GoodFor(s.logs.returned, t, Succeeded) + Pending(t, s.pcs[t])
            && (s.pcs[t].Outside? || s.pcs[t].Running? || s.pcs[t].Destroyed? ==>
                  Asking(s.pcs[t]) == [] && Pending(t, s.pcs[t]) == [])
            && (s.pcs[t].Joining? || s.pcs[t].Destroyed? ==> s.shutdown)
    ensures var s := Exec(Init(workers, clients), evs).state;
            && Collect(s.logs.took, Submits) == s.accepted
            && (s.shutdown <==> exists r :: r in s.logs.took && r.op.Destroy?)
            && (forall r :: r in s.logs.took ==> r.result.Ok? && !r.op.Work?)
    ensures var s := Exec(Init(workers, clients), evs).state;
            forall r :: r in s.logs.returned ==>
              match r.result
              case Ok => r.op.Submit? || (r.op.Destroy? && s.shutdown)
              case Unsupported => r.op.Submit? && s.shutdown
    ensures var s := Exec(Init(workers, clients), evs).state;
            s.pcs[t].Inside? && s.pcs[t].at == Unlock(Unsupported) ==> s.pcs[t].op.Submit? && s.shutdown
  {
    RunKeepsInv(workers, clients, evs);
    LedgersTell(Exec(Init(workers, clients), evs).state, t);
  }

  lemma {:induction false} AllExitedMeansAllRan<T>(s: State<T>)
    requires MutualExclusion(s) && Roles(s) && OnceEach(s) && History(s) && Exits(s)
    requires forall i :: 0 <= i < |s.workers| ==> HasExited(s, i)
    ensures s.queue == [] && s.started == s.accepted
    ensures forall k: nat :: k < |s.accepted| <==> k in s.ran
  {
    assert HasExited(s, 0);
    forall k | 0 <= k < |s.doer|
      ensures k in s.ran
    {
      if s.doer[k] in s.workers {
        var i :| 0 <= i < |s.workers| && s.workers[i] == s.doer[k];
        assert HasExited(s, i);
      }
    }
  }

  /** Once the destroyer has joined every worker, the queue is empty and every accepted task has
      run exactly once. */
  lemma {:induction false} JoinedMeansAllRan<T>(
    workers: seq<Thread>, clients: set<Thread>, evs: seq<Event<T>>, d: Thread)
    requires workers != [] && Exec(Init(workers, clients), evs).Reached?
    requires var s := Exec(Init(workers, clients), evs).state;
             d in s.pcs && (s.pcs[d].Destroyed? || (s.pcs[d].Joining? && s.pcs[d].i >= |s.workers|))
    ensures var s := Exec(Init(workers, clients), evs).state;
            && s.queue == [] && s.started == s.accepted
            && (forall k: nat :: k < |s.accepted| <==> k in s.ran)
            && (forall i, j :: 0 <= i < j < |s.ran| ==> s.ran[i] != s.ran[j])
  {
    RunKeepsInv(workers, clients, evs);
    AllExitedMeansAllRan(Exec(Init(workers, clients), evs).state);
  }

  /** Whenever the mutex is free: queued tasks beside a sleeping worker are matched by signalled
      workers, and once the pool is shut down no worker sleeps. */
  lemma {:induction false} NoTaskIsStranded<T>(workers: seq<Thread>, clients: set<Thread>, evs: seq<Event<T>>)
    requires workers != [] && Exec(Init(workers, clients), evs).Reached?
    ensures var s := Exec(Init(workers, clients), evs).state;
            s.mutex.Free? && Where(s.pcs, IsAsleep) != {} ==>
              !s.shutdown && |s.queue| <= |Where(s.pcs, IsSignalled)|
  {
    RunKeepsInv(workers, clients, evs);
  }

  /** A thread that can move on its own: it wants the mutex, holds it, or has a task to run. */
  ghost predicate Runnable<T>(s: State<T>, t: Thread) {
    t in s.pcs && (WantsMutex(s.pcs[t]) || s.pcs[t].Inside? || s.pcs[t].Running?)
  }

  lemma {:induction false} MovesEnabled<T>(s: State<T>, t: Thread)
    requires MutualExclusion(s) && History(s) && Runnable(s, t)
    ensures s.mutex == Held(t) ==> Enabled(s, Step(t)) || Enabled(s, Wake(t, Where(s.pcs, IsAsleep)))
    ensures s.mutex.Free? ==> Enabled(s, Step(t)) || Enabled(s, Acquire(t))
    ensures s.mutex.Held? ==> Runnable(s, s.mutex.holder)
  {
  }

  /** Whoever holds the mutex has an enabled next step, and when it is free every runnable thread
      has one; so a state that is not quiet always has a way on. */
  lemma {:induction false} RunnableCanMove<T>(workers: seq<Thread>, clients: set<Thread>, evs: seq<Event<T>>, t: Thread)
    requires workers != [] && Exec(Init(workers, clients), evs).Reached?
    requires Runnable(Exec(Init(workers, clients), evs).state, t)
    ensures var s := Exec(Init(workers, clients), evs).state;
            && (s.mutex == Held(t) ==> Enabled(s, Step(t)) || Enabled(s, Wake(t, Where(s.pcs, IsAsleep))))
            && (s.mutex.Free? ==> Enabled(s, Step(t)) || Enabled(s, Acquire(t)))
            && (s.mutex.Held? ==> Runnable(s, s.mutex.holder))
  {
    RunKeepsInv(workers, clients, evs);
    MovesEnabled(Exec(Init(workers, clients), evs).state, t);
  }

  /** A client may call at any time, a task may submit from its function, a sleeping worker may wake
      for no reason, and the destroyer goes on as soon as the worker it waits for has exited. */
  lemma {:induction false} EveryoneMayMove<T>(s: State<T>, t: Thread, task: T)
    requires t in s.pcs
    ensures s.pcs[t].Outside? ==> Enabled(s, Call(t, Submit(task, Client))) && Enabled(s, Call(t, Destroy))
    ensures s.pcs[t].Running? ==> Enabled(s, Call(t, Submit(task, FromTask(s.pcs[t].k)))) && Enabled(s, Step(t))
    ensures IsAsleep(s.pcs[t]) ==> Enabled(s, Spurious(t))
    ensures s.pcs[t].Joining? ==>
      (Enabled(s, Step(t)) <==> s.pcs[t].i >= |s.workers| || HasExited(s, s.pcs[t].i))
  {
  }

  /** When nothing can run, no task is queued or in hand; and if the pool is shut down every worker
      has exited, so the joins of `thread_pool_destroy` never wait for ever. */
  lemma {:induction false} QuietMeansDone<T>(workers: seq<Thread>, clients: set<Thread>, evs: seq<Event<T>>)
    requires workers != [] && Exec(Init(workers, clients), evs).Reached?
    requires forall t :: !Runnable(Exec(Init(workers, clients), evs).state, t)
    ensures var s := Exec(Init(workers, clients), evs).state;
            && s.queue == [] && s.started == s.accepted
            && (forall k: nat :: k < |s.accepted| <==> k in s.ran)
            && (s.shutdown ==> forall i :: 0 <= i < |s.workers| ==> HasExited(s, i))
  {
    RunKeepsInv(workers, clients, evs);
    var s := Exec(Init(workers, clients), evs).state;
    assert s.mutex.Held? ==> Runnable(s, s.mutex.holder);
    forall t
      ensures t !in Where(s.pcs, IsSignalled)
    {
      assert !Runnable(s, t);
    }
    assert Where(s.pcs, IsSignalled) == {};
    forall i | 0 <= i < |s.workers|
      ensures HasExited(s, i) || s.workers[i] in Where(s.pcs, IsAsleep)
    {
      assert s.workers[i] in s.workers && !Runnable(s, s.workers[i]);
    }
    assert HasExited(s, 0) || s.workers[0] in Where(s.pcs, IsAsleep);
    forall k | 0 <= k < |s.doer|
      ensures k in s.ran
    {
      assert !Runnable(s, s.doer[k]);
    }
  }
}
