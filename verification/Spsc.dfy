/** The lock-free single-producer/single-consumer ring of src/hpc/spsc.c.

    Every load, copy and store of `spsc_push` and `spsc_pop` is a step of its own, and the two
    threads interleave freely.  The atomic indices follow the C11 rules: all stores to an index
    form one modification order (`heads`, `tails`); the owner reads its own last store; the other
    side may read any store that is not older than the newest one it has already read.  An acquire
    load of store number k orders the reader after everything the writer did before that store.
    Copies are plain memory accesses: a copy that is not ordered after the last conflicting copy
    of its slot is a data race, which sets `raced` and lets the reader see any value at all. */
module Spsc {
  import opened Arith
  import opened Ledger

  datatype Op<E> = Push(e: E) | Pop

  /** `Got` is the success of a pop, with the element it copied out. */
  datatype Result<E> = Done | Got(v: E) | Refused

  const PRODUCER: nat := 0
  const CONSUMER: nat := 1

  datatype Producer<E> =
    | PIdle
    | PLoaded(elem: E, tail: nat)  // own tail loaded, room not yet checked
    | PRoom(elem: E, tail: nat)    // head acquired, slot `tail` is about to be written
    | PCopied(elem: E, tail: nat)  // slot written, new tail not yet stored

  datatype Consumer<E> =
    | CIdle
    | CLoaded(head: nat)
    | CElem(head: nat)
    | CCopied(head: nat, out: E)

  datatype State<E> = State(
    slots: nat,
    data: seq<E>,
    heads: seq<nat>,      // modification order of `head`
    tails: seq<nat>,      // modification order of `tail`
    seenHead: nat,        // newest store of `head` the producer has acquired
    seenTail: nat,        // newest store of `tail` the consumer has acquired
    producer: Producer<E>,
    consumer: Consumer<E>,
    wroteBy: seq<int>,    // per slot: number of the push that wrote it last, or -1
    readBy: seq<int>,     // per slot: number of the pop that read it last, or -1
    raced: bool,
    pushed: seq<E>,       // elements whose push has published its tail
    popped: seq<E>,       // elements whose pop has published its head
    logs: Logs<Op<E>, Result<E>>)   // what was called, took effect and returned

  datatype Event<E> =
    | PushLoadTail(elem: E)
    | PushLoadHead(store: nat)   // which store of `head` the acquire load returns
    | PushCopy
    | PushStoreTail
    | PopLoadHead
    | PopLoadTail(store: nat)
    | PopCopy(garbage: E)        // what a racing copy would return
    | PopStoreHead

  /** The state left by a successful `spsc_init`; the buffer bytes are arbitrary. */
  function Init<E>(capacity: nat, bytes: seq<E>): (s: State<E>) {
    State(capacity + 1, bytes, [0], [0], 0, 0, PIdle, CIdle,
          seq(capacity + 1, _ => -1), seq(capacity + 1, _ => -1), false, [], [], Logs([], [], []))
  }

  function Last(s: seq<nat>): nat
    requires s != []
  {
    s[|s| - 1]
  }

  /** Which steps the two threads can take. */
  predicate Enabled<E>(s: State<E>, ev: Event<E>) {
    match ev
    case PushLoadTail(_) => s.producer.PIdle? && s.tails != []
    case PushLoadHead(k) => s.producer.PLoaded? && s.slots > 0 && s.seenHead <= k < |s.heads|
    case PushCopy => s.producer.PRoom? && s.producer.tail < |s.data| == |s.wroteBy| == |s.readBy|
    case PushStoreTail => s.producer.PCopied? && s.slots > 0
    case PopLoadHead => s.consumer.CIdle? && s.heads != []
    case PopLoadTail(k) => s.consumer.CLoaded? && s.seenTail <= k < |s.tails|
    case PopCopy(_) => s.consumer.CElem? && s.consumer.head < |s.data| == |s.wroteBy| == |s.readBy|
    case PopStoreHead => s.consumer.CCopied? && s.slots > 0
  }

  function Apply<E>(s: State<E>, ev: Event<E>): State<E>
    requires Enabled(s, ev)
  {
    match ev
    case PushLoadTail(e) =>
      s.(producer := PLoaded(e, Last(s.tails)), logs := Record(s.logs, PRODUCER, Asks(Push(e))))
    case PushLoadHead(k) =>
      var next := (s.producer.tail + 1) % s.slots;
      if next == s.heads[k] then
        s.(seenHead := k, producer := PIdle,
           logs := Record(s.logs, PRODUCER, Returns(Push(s.producer.elem), Refused)))
      else s.(seenHead := k, producer := PRoom(s.producer.elem, s.producer.tail))
    case PushCopy =>
      var t := s.producer.tail;
      s.(data := s.data[t := s.producer.elem],
         wroteBy := s.wroteBy[t := |s.pushed|],
         raced := s.raced || s.readBy[t] >= s.seenHead,
         producer := PCopied(s.producer.elem, t))
    case PushStoreTail =>
      s.(tails := s.tails + [(s.producer.tail + 1) % s.slots],
         pushed := s.pushed + [s.producer.elem],
         producer := PIdle,
         logs := Finish(s.logs, PRODUCER, Push(s.producer.elem), Done))
    case PopLoadHead =>
      s.(consumer := CLoaded(Last(s.heads)), logs := Record(s.logs, CONSUMER, Asks(Pop)))
    case PopLoadTail(k) =>
      if s.consumer.head == s.tails[k] then
        s.(seenTail := k, consumer := CIdle, logs := Record(s.logs, CONSUMER, Returns(Pop, Refused)))
      else s.(seenTail := k, consumer := CElem(s.consumer.head))
    case PopCopy(garbage) =>
      var h := s.consumer.head;
      var race := s.wroteBy[h] >= s.seenTail;
      s.(readBy := s.readBy[h := |s.popped|],
         raced := s.raced || race,
         consumer := CCopied(h, if race then garbage else s.data[h]))
    case PopStoreHead =>
      s.(heads := s.heads + [(s.consumer.head + 1) % s.slots],
         popped := s.popped + [s.consumer.out],
         consumer := CIdle,
         logs := Finish(s.logs, CONSUMER, Pop, Got(s.consumer.out)))
  }

  datatype Outcome<E> = Stuck | Reached(state: State<E>)

  /** The state after a whole interleaving, or `Stuck` if some step was not enabled. */
  function Exec<E>(s: State<E>, evs: seq<Event<E>>): Outcome<E> {
    if evs == [] then Reached(s)
    else
      var before := Exec(s, evs[..|evs| - 1]);
      var ev := evs[|evs| - 1];
      if before.Reached? && Enabled(before.state, ev) then Reached(Apply(before.state, ev)) else Stuck
  }

  // ----- the invariant -------------------------------------------------------------------------

  ghost predicate Shape<E>(s: State<E>) {
    && 2 <= s.slots == |s.data| == |s.wroteBy| == |s.readBy|
    && |s.heads| == |s.popped| + 1
    && |s.tails| == |s.pushed| + 1
    && (forall k :: 0 <= k < |s.heads| ==> s.heads[k] == k % s.slots)
    && (forall k :: 0 <= k < |s.tails| ==> s.tails[k] == k % s.slots)
  }

  /** Each side trails the other: what is popped was seen published, what is pushed was seen free. */
  ghost predicate Window<E>(s: State<E>) {
    && s.seenHead <= |s.popped| <= s.seenTail <= |s.pushed| < s.seenHead + s.slots
    && s.popped <= s.pushed
  }

  ghost predicate Slots<E>(s: State<E>)
    requires Shape(s)
  {
    && (forall n :: |s.popped| <= n < |s.pushed| ==>
          s.data[n % s.slots] == s.pushed[n] && s.wroteBy[n % s.slots] == n)
    && (forall i :: 0 <= i < s.slots ==> -1 <= s.readBy[i] <= |s.popped|)
    && (forall i :: 0 <= i < s.slots && s.readBy[i] >= 0 ==> s.readBy[i] % s.slots == i)
    && (forall i :: 0 <= i < s.slots && s.readBy[i] == |s.popped| ==> s.consumer.CCopied?)
  }

  ghost predicate ProducerAt<E>(s: State<E>)
    requires Shape(s)
  {
    && (!s.producer.PIdle? ==> s.producer.tail == |s.pushed| % s.slots)
    && (s.producer.PRoom? || s.producer.PCopied? ==> |s.pushed| + 1 < s.seenHead + s.slots)
    && (s.producer.PCopied? ==>
          s.data[s.producer.tail] == s.producer.elem && s.wroteBy[s.producer.tail] == |s.pushed|)
  }

  ghost predicate ConsumerAt<E>(s: State<E>)
    requires Shape(s)
  {
    && (!s.consumer.CIdle? ==> s.consumer.head == |s.popped| % s.slots)
    && (s.consumer.CElem? || s.consumer.CCopied? ==> |s.popped| < s.seenTail)
    && (s.consumer.CCopied? ==> |s.popped| < |s.pushed| && s.consumer.out == s.pushed[|s.popped|])
  }

  ghost predicate Inv<E>(s: State<E>) {
    Shape(s) && Window(s) && Slots(s) && ProducerAt(s) && ConsumerAt(s) && !s.raced
  }

  // ----- preservation, one lemma per kind of step ----------------------------------------------

  /** The test for a full ring, on the numbers behind the two indices. */
  lemma {:induction false} FullOneLapOn(n: nat, k: nat, slots: nat)
    requires 2 <= slots && k <= n < k + slots
    ensures (n % slots + 1) % slots == k % slots <==> n == k + slots - 1
  {
    AddSlot(n, 1, slots);
    OneLapOn(n, k, slots);
  }

  lemma {:induction false} PushLoadHeadKeeps<E>(s: State<E>, k: nat)
    requires Inv(s) && Enabled(s, PushLoadHead(k))
    ensures Inv(Apply(s, PushLoadHead(k)))
    ensures Apply(s, PushLoadHead(k)).producer.PIdle? <==> |s.pushed| == k + s.slots - 1
  {
    var n := |s.pushed|;
    FullOneLapOn(n, k, s.slots);
    assert (s.producer.tail + 1) % s.slots == s.heads[k] <==> n == k + s.slots - 1;
    assert Slots(Apply(s, PushLoadHead(k)));
  }

  lemma {:induction false} PopLoadTailKeeps<E>(s: State<E>, k: nat)
    requires Inv(s) && Enabled(s, PopLoadTail(k))
    ensures Inv(Apply(s, PopLoadTail(k)))
    ensures Apply(s, PopLoadTail(k)).consumer.CIdle? <==> |s.popped| == k
  {
    if s.consumer.head == s.tails[k] {
      SameSlot(|s.popped|, k, s.slots);
    }
  }

  lemma {:induction false} PushCopyKeeps<E>(s: State<E>)
    requires Inv(s) && Enabled(s, PushCopy)
    ensures Inv(Apply(s, PushCopy))
  {
    var t, n := s.producer.tail, |s.pushed|;
    if s.readBy[t] >= s.seenHead {
      SameSlot(s.readBy[t], n, s.slots);
    }
    forall m | |s.popped| <= m < n
      ensures m % s.slots != t
    {
      if m % s.slots == t { SameSlot(m, n, s.slots); }
    }
  }

  lemma {:induction false} PopCopyKeeps<E>(s: State<E>, garbage: E)
    requires Inv(s) && Enabled(s, PopCopy(garbage))
    ensures Inv(Apply(s, PopCopy(garbage)))
  {
    assert s.wroteBy[|s.popped| % s.slots] == |s.popped|;
  }

  lemma {:induction false} PushStoreTailKeeps<E>(s: State<E>)
    requires Inv(s) && Enabled(s, PushStoreTail)
    ensures Inv(Apply(s, PushStoreTail))
  {
    AddSlot(|s.pushed|, 1, s.slots);
  }

  lemma {:induction false} PopStoreHeadKeeps<E>(s: State<E>)
    requires Inv(s) && Enabled(s, PopStoreHead)
    ensures Inv(Apply(s, PopStoreHead))
  {
    AddSlot(|s.popped|, 1, s.slots);
  }

  lemma {:induction false} StepKeepsInv<E>(s: State<E>, ev: Event<E>)
    requires Inv(s) && Enabled(s, ev)
    ensures Inv(Apply(s, ev))
  {
    match ev
    case PushLoadTail(_) =>
    case PushLoadHead(k) => PushLoadHeadKeeps(s, k);
    case PushCopy => PushCopyKeeps(s);
    case PushStoreTail => PushStoreTailKeeps(s);
    case PopLoadHead =>
    case PopLoadTail(k) => PopLoadTailKeeps(s, k);
    case PopCopy(g) => PopCopyKeeps(s, g);
    case PopStoreHead => PopStoreHeadKeeps(s);
  }

  lemma {:induction false} RunKeepsInv<E>(capacity: nat, bytes: seq<E>, evs: seq<Event<E>>)
    requires capacity > 0 && |bytes| == capacity + 1
    requires Exec(Init(capacity, bytes), evs).Reached?
    ensures Inv(Exec(Init(capacity, bytes), evs).state)
    ensures Exec(Init(capacity, bytes), evs).state.slots == capacity + 1
  {
    if evs != [] {
      RunKeepsInv(capacity, bytes, evs[..|evs| - 1]);
      StepKeepsInv(Exec(Init(capacity, bytes), evs[..|evs| - 1]).state, evs[|evs| - 1]);
    }
  }

  // ----- main results --------------------------------------------------------------------------

  /** Slots the two copies are touching, or are about to touch. */
  ghost predicate CopiesDisjoint<E>(s: State<E>) {
    (s.producer.PRoom? || s.producer.PCopied?) && (s.consumer.CElem? || s.consumer.CCopied?) ==>
      s.producer.tail != s.consumer.head
  }

  /** In every interleaving: FIFO order, bounded occupancy, disjoint copies and no data race. */
  lemma {:induction false} EveryInterleavingIsSafe<E>(capacity: nat, bytes: seq<E>, evs: seq<Event<E>>)
    requires capacity > 0 && |bytes| == capacity + 1
    requires Exec(Init(capacity, bytes), evs).Reached?
    ensures var s := Exec(Init(capacity, bytes), evs).state;
            && s.popped <= s.pushed
            && |s.pushed| - |s.popped| <= capacity
            && CopiesDisjoint(s)
            && !s.raced
  {
    RunKeepsInv(capacity, bytes, evs);
    var s := Exec(Init(capacity, bytes), evs).state;
    if s.producer.PRoom? || s.producer.PCopied? {
      if (s.consumer.CElem? || s.consumer.CCopied?) && s.producer.tail == s.consumer.head {
        SameSlot(|s.popped|, |s.pushed|, s.slots);
      }
    }
  }

  // ----- the answers of the calls --------------------------------------------------------------

  predicate Succeeded<E>(result: Result<E>) {
    !result.Refused?
  }

  /** The call each side is in, if any. */
  function PushAsking<E>(p: Producer<E>): seq<Op<E>> {
    if p.PIdle? then [] else [Push(p.elem)]
  }

  function PopAsking<E>(c: Consumer<E>): seq<Op<E>> {
    if c.CIdle? then [] else [Pop]
  }

  /** What a call pushes and what it pops. */
  function Pushes<E>(r: Reply<Op<E>, Result<E>>): seq<E> {
    if r.op.Push? then [r.op.e] else []
  }

  function Pops<E>(r: Reply<Op<E>, Result<E>>): seq<E> {
    if r.result.Got? then [r.result.v] else []
  }

  /** The logs against what the two sides are asking, and against the two histories. */
  ghost predicate Books<E>(
    logs: Logs<Op<E>, Result<E>>, pushAsking: seq<Op<E>>, popAsking: seq<Op<E>>, pushed: seq<E>, popped: seq<E>)
  {
    && Balanced(logs, PRODUCER, pushAsking, [], Succeeded)
    && Balanced(logs, CONSUMER, popAsking, [], Succeeded)
    && Collect(logs.took, Pushes) == pushed && Collect(logs.took, Pops) == popped
    && (forall r :: r in logs.took ==> if r.op.Push? then r.result.Done? else r.result.Got?)
  }

  ghost predicate Ledgers<E>(s: State<E>) {
    Books(s.logs, PushAsking(s.producer), PopAsking(s.consumer), s.pushed, s.popped)
  }

  lemma {:induction false} PushAsks<E>(
    logs: Logs<Op<E>, Result<E>>, e: E, popAsking: seq<Op<E>>, pushed: seq<E>, popped: seq<E>)
    requires Books(logs, [], popAsking, pushed, popped)
    ensures Books(Record(logs, PRODUCER, Asks(Push(e))), [Push(e)], popAsking, pushed, popped)
  {
    AskKeepsOwn(logs, PRODUCER, Push(e), [], Succeeded);
    RecordKeepsOthers(logs, PRODUCER, Asks(Push(e)), CONSUMER, popAsking, [], Succeeded);
  }

  lemma {:induction false} PushRefused<E>(
    logs: Logs<Op<E>, Result<E>>, e: E, popAsking: seq<Op<E>>, pushed: seq<E>, popped: seq<E>)
    requires Books(logs, [Push(e)], popAsking, pushed, popped)
    ensures Books(Record(logs, PRODUCER, Returns(Push(e), Refused)), [], popAsking, pushed, popped)
  {
    ReturnKeepsOwn(logs, PRODUCER, Push(e), Refused, Succeeded);
    RecordKeepsOthers(logs, PRODUCER, Returns(Push(e), Refused), CONSUMER, popAsking, [], Succeeded);
  }

  lemma {:induction false} PushDone<E>(
    logs: Logs<Op<E>, Result<E>>, e: E, popAsking: seq<Op<E>>, pushed: seq<E>, popped: seq<E>)
    requires Books(logs, [Push(e)], popAsking, pushed, popped)
    ensures Books(Finish(logs, PRODUCER, Push(e), Done), [], popAsking, pushed + [e], popped)
  {
    var reply := Reply(PRODUCER, Push(e), Done);
    assert Finish(logs, PRODUCER, Push(e), Done).took == logs.took + [reply];
    CollectMore(logs.took, reply, Pushes);
    CollectMore(logs.took, reply, Pops);
    FinishKeepsOwn(logs, PRODUCER, Push(e), Done, Succeeded);
    FinishKeepsOthers(logs, PRODUCER, Push(e), Done, CONSUMER, popAsking, Succeeded);
  }

  lemma {:induction false} PopAsks<E>(
    logs: Logs<Op<E>, Result<E>>, pushAsking: seq<Op<E>>, pushed: seq<E>, popped: seq<E>)
    requires Books(logs, pushAsking, [], pushed, popped)
    ensures Books(Record(logs, CONSUMER, Asks(Pop)), pushAsking, [Pop], pushed, popped)
  {
    AskKeepsOwn(logs, CONSUMER, Pop, [], Succeeded);
    RecordKeepsOthers(logs, CONSUMER, Asks(Pop), PRODUCER, pushAsking, [], Succeeded);
  }

  lemma {:induction false} PopRefused<E>(
    logs: Logs<Op<E>, Result<E>>, pushAsking: seq<Op<E>>, pushed: seq<E>, popped: seq<E>)
    requires Books(logs, pushAsking, [Pop], pushed, popped)
    ensures Books(Record(logs, CONSUMER, Returns(Pop, Refused)), pushAsking, [], pushed, popped)
  {
    ReturnKeepsOwn(logs, CONSUMER, Pop, Refused, Succeeded);
    RecordKeepsOthers(logs, CONSUMER, Returns(Pop, Refused), PRODUCER, pushAsking, [], Succeeded);
  }

  lemma {:induction false} PopDone<E>(
    logs: Logs<Op<E>, Result<E>>, v: E, pushAsking: seq<Op<E>>, pushed: seq<E>, popped: seq<E>)
    requires Books(logs, pushAsking, [Pop], pushed, popped)
    ensures Books(Finish(logs, CONSUMER, Pop, Got(v)), pushAsking, [], pushed, popped + [v])
  {
    FinishKeepsOwn(logs, CONSUMER, Pop, Got(v), Succeeded);
    FinishKeepsOthers(logs, CONSUMER, Pop, Got(v), PRODUCER, pushAsking, Succeeded);
    CollectMore(logs.took, Reply(CONSUMER, Pop, Got(v)), Pushes);
    CollectMore(logs.took, Reply(CONSUMER, Pop, Got(v)), Pops);
  }

  lemma {:induction false} PushReturns<E>(s: State<E>, ev: Event<E>)
    requires Ledgers(s) && Enabled(s, ev) && (ev.PushLoadHead? || ev.PushStoreTail?)
    ensures Ledgers(Apply(s, ev))
  {
    var c := PopAsking(s.consumer);
    if ev.PushLoadHead? {
      PushRefused(s.logs, s.producer.elem, c, s.pushed, s.popped);
    } else {
      PushDone(s.logs, s.producer.elem, c, s.pushed, s.popped);
    }
  }

  lemma {:induction false} PopReturns<E>(s: State<E>, ev: Event<E>)
    requires Ledgers(s) && Enabled(s, ev) && (ev.PopLoadTail? || ev.PopStoreHead?)
    ensures Ledgers(Apply(s, ev))
  {
    var p := PushAsking(s.producer);
    if ev.PopLoadTail? {
      PopRefused(s.logs, p, s.pushed, s.popped);
    } else {
      PopDone(s.logs, s.consumer.out, p, s.pushed, s.popped);
    }
  }

  lemma {:induction false} StepKeepsLedgers<E>(s: State<E>, ev: Event<E>)
    requires Ledgers(s) && Enabled(s, ev)
    ensures Ledgers(Apply(s, ev))
  {
    match ev
    case PushLoadTail(e) => PushAsks(s.logs, e, PopAsking(s.consumer), s.pushed, s.popped);
    case PushLoadHead(_) => PushReturns(s, ev);
    case PushCopy =>
    case PushStoreTail => PushReturns(s, ev);
    case PopLoadHead => PopAsks(s.logs, PushAsking(s.producer), s.pushed, s.popped);
    case PopLoadTail(_) => PopReturns(s, ev);
    case PopCopy(_) =>
    case PopStoreHead => PopReturns(s, ev);
  }

  /** Every call is answered once, and its answer is true: a push that returned success published its
      own element, once, a pop that did published the removal of the element it returned, and a
      refused call did nothing. */
  lemma {:induction false} AnswersAreTrue<E>(capacity: nat, bytes: seq<E>, evs: seq<Event<E>>)
    requires Exec(Init(capacity, bytes), evs).Reached?
    ensures var s := Exec(Init(capacity, bytes), evs).state;
            && AskedBy(s.logs.called, PRODUCER) == AnsweredTo(s.logs.returned, PRODUCER) + PushAsking(s.producer)
            && AskedBy(s.logs.called, CONSUMER) == AnsweredTo(s.logs.returned, CONSUMER) + PopAsking(s.consumer)
            && GoodFor(s.logs.took, PRODUCER, Succeeded) == GoodFor(s.logs.returned, PRODUCER, Succeeded)
            && GoodFor(s.logs.took, CONSUMER, Succeeded) == GoodFor(s.logs.returned, CONSUMER, Succeeded)
            && Collect(s.logs.took, Pushes) == s.pushed && Collect(s.logs.took, Pops) == s.popped
            && (forall r :: r in s.logs.took ==> if r.op.Push? then r.result.Done? else r.result.Got?)
            && Ledgers(s)
  {
    if evs != [] {
      var before, ev := Exec(Init(capacity, bytes), evs[..|evs| - 1]).state, evs[|evs| - 1];
      AnswersAreTrue(capacity, bytes, evs[..|evs| - 1]);
      StepKeepsLedgers(before, ev);
    }
  }

  /** "Full" is reported exactly when the head store that was read leaves no room, and "empty"
      exactly when the tail store that was read leaves no element. */
  lemma {:induction false} RefusalsAreHonest<E>(capacity: nat, bytes: seq<E>, evs: seq<Event<E>>, k: nat)
    requires capacity > 0 && |bytes| == capacity + 1
    requires Exec(Init(capacity, bytes), evs).Reached?
    ensures var s := Exec(Init(capacity, bytes), evs).state;
            && (Enabled(s, PushLoadHead(k)) ==>
                  (Apply(s, PushLoadHead(k)).producer.PIdle? <==> |s.pushed| - k == capacity))
            && (Enabled(s, PopLoadTail(k)) ==>
                  (Apply(s, PopLoadTail(k)).consumer.CIdle? <==> k == |s.popped|))
  {
    RunKeepsInv(capacity, bytes, evs);
    var s := Exec(Init(capacity, bytes), evs).state;
    if Enabled(s, PushLoadHead(k)) { PushLoadHeadKeeps(s, k); }
    if Enabled(s, PopLoadTail(k)) { PopLoadTailKeeps(s, k); }
  }

  /** Neither side ever waits for the other: whatever step comes next in its call is enabled, and a
      call is at most four steps long. */
  lemma {:induction false} EverySideCanMove<E>(capacity: nat, bytes: seq<E>, evs: seq<Event<E>>, e: E)
    requires capacity > 0 && |bytes| == capacity + 1
    requires Exec(Init(capacity, bytes), evs).Reached?
    ensures var s := Exec(Init(capacity, bytes), evs).state;
            && s.seenHead <= |s.popped| && s.seenTail <= |s.pushed|
            && (match s.producer
                case PIdle => Enabled(s, PushLoadTail(e))
                case PLoaded(_, _) => forall k :: s.seenHead <= k <= |s.popped| ==> Enabled(s, PushLoadHead(k))
                case PRoom(_, _) => Enabled(s, PushCopy)
                case PCopied(_, _) => Enabled(s, PushStoreTail))
            && (match s.consumer
                case CIdle => Enabled(s, PopLoadHead)
                case CLoaded(_) => forall k :: s.seenTail <= k <= |s.pushed| ==> Enabled(s, PopLoadTail(k))
                case CElem(_) => Enabled(s, PopCopy(e))
                case CCopied(_, _) => Enabled(s, PopStoreHead))
  {
    RunKeepsInv(capacity, bytes, evs);
  }

  /** `spsc_len` from the two loaded index values. */
  function LenOf(head: nat, tail: nat, slots: nat): nat
    requires head < slots
  {
    (tail + slots - head) % slots
  }

  lemma {:induction false} LenOfDistance(h: nat, t: nat, slots: nat)
    requires 0 < slots && h <= t < h + slots
    ensures LenOf(h % slots, t % slots, slots) == t - h
  {
    var d := t - h;
    assert (t % slots) + slots - (h % slots) == slots * (1 + h / slots - t / slots) + d;
    DivModUnique((t % slots) + slots - (h % slots), slots, 1 + h / slots - t / slots, d);
  }

  /** `spsc_len` never exceeds the capacity whatever stores it reads; called by the producer it
      never under-reports, called by the consumer it never over-reports. */
  lemma {:induction false} LenFromEitherSide<E>(
    capacity: nat, bytes: seq<E>, evs: seq<Event<E>>, hk: nat, tk: nat)
    requires capacity > 0 && |bytes| == capacity + 1
    requires Exec(Init(capacity, bytes), evs).Reached?
    ensures var s := Exec(Init(capacity, bytes), evs).state;
            hk < |s.heads| && tk < |s.tails| ==>
              && s.heads[hk] < s.slots
              && var n := LenOf(s.heads[hk], s.tails[tk], s.slots);
                 && n <= capacity
                 && (s.seenHead <= hk && tk == |s.pushed| ==> n == |s.pushed| - hk >= |s.pushed| - |s.popped|)
                 && (hk == |s.popped| && s.seenTail <= tk ==> n == tk - |s.popped| <= |s.pushed| - |s.popped|)
  {
    RunKeepsInv(capacity, bytes, evs);
    var s := Exec(Init(capacity, bytes), evs).state;
    if hk < |s.heads| && tk < |s.tails| {
      assert s.heads[hk] == hk % s.slots && s.tails[tk] == tk % s.slots;
      if hk <= tk < hk + s.slots { LenOfDistance(hk, tk, s.slots); }
    }
  }
}
