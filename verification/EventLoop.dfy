/** The poll(2) event loop of src/networking/event_loop.c: a table of registrations whose removals
    become tombstones while callbacks run, and are compacted after the round.

    What `poll` reports is arbitrary input (a readiness word per descriptor).  What a callback does
    is arbitrary too: `behave(i)` is the list of calls made by the callback of slot i. */
module EventLoop {
  datatype ErrorCode = Ok | NoMem | Io | InvalidArg | Overflow | NotFound

  const SIZE_MAX: nat := 0xFFFF_FFFF_FFFF_FFFF
  const ENTRY_SIZE: nat := 24
  const POLLFD_SIZE: nat := 8

  const POLLIN: bv16 := 0x001
  const POLLOUT: bv16 := 0x004
  const POLLERR: bv16 := 0x008
  const POLLHUP: bv16 := 0x010
  const EV_READ: bv32 := 1
  const EV_WRITE: bv32 := 2

  datatype Entry = Entry(fd: int, events: bv32, cb: nat, userData: nat)

  datatype PollFd = PollFd(fd: int, events: bv16, revents: bv16)

  datatype Fire = Fire(fd: int, ready: bv32, cb: nat, userData: nat)

  /** A call a callback may make; the flags say whether the two reallocations would succeed. */
  datatype Op =
    | Add(fd: int, events: bv32, cb: nat, userData: nat, entriesAlloc: bool, pollfdsAlloc: bool)
    | Mod(fd: int, events: bv32)
    | Remove(fd: int)
    | Stop

  function InterestToPoll(events: bv32): bv16 {
    (if events & EV_READ != 0 then POLLIN else 0) | (if events & EV_WRITE != 0 then POLLOUT else 0)
  }

  function PollToReady(revents: bv16): bv32 {
    (if revents & (POLLIN | POLLHUP | POLLERR) != 0 then EV_READ else 0)
    | (if revents & POLLOUT != 0 then EV_WRITE else 0)
  }

  /** Readable, hung up or in error is bit 1, writable is bit 2, and there is no other bit. */
  predicate ReadyFor(ready: bv32, revents: bv16) {
    && (ready & 1 != 0 <==> revents & 0x001 != 0 || revents & 0x008 != 0 || revents & 0x010 != 0)
    && (ready & 2 != 0 <==> revents & 0x004 != 0)
    && ready & 0xFFFF_FFFC == 0
  }

  lemma {:induction false} ReadyBits(revents: bv16)
    ensures ReadyFor(PollToReady(revents), revents)
    ensures PollToReady(revents) != 0 <==> revents & 0x01D != 0
  {
  }

  /** A reader is polled for input and a writer for output, and for nothing else. */
  predicate PolledFor(events: bv16, interest: bv32) {
    && (events & 0x001 != 0 <==> interest & 1 != 0)
    && (events & 0x004 != 0 <==> interest & 2 != 0)
    && events & 0xFFFA == 0
  }

  lemma {:induction false} PolledBits(interest: bv32)
    ensures PolledFor(InterestToPoll(interest), interest)
  {
  }

  // ----- the plain descriptor map --------------------------------------------------------------

  /** A registration; `serial` tells it from an earlier or later one of the same descriptor. */
  datatype Reg = Reg(serial: nat, events: bv32, cb: nat, userData: nat)

  /** The plain map, the next serial number, the room granted so far, and whether the loop is to go on. */
  datatype Plain = Plain(regs: map<int, Reg>, next: nat, cap: nat, running: bool)

  /** The outcome of `event_loop_add`, and the room afterwards. */
  function AddOutcome(p: Plain, op: Op): (r: (ErrorCode, nat))
    requires op.Add?
  {
    if op.fd < 0 || op.events == 0 || op.fd in p.regs then (InvalidArg, p.cap)
    else if p.next != p.cap then (Ok, p.cap)
    else if p.cap > SIZE_MAX / 2 then (Overflow, p.cap)
    else
      var newCap := if p.cap == 0 then 8 else p.cap * 2;
      if newCap > SIZE_MAX / ENTRY_SIZE || newCap > SIZE_MAX / POLLFD_SIZE then (Overflow, p.cap)
      else if !op.entriesAlloc || !op.pollfdsAlloc then (NoMem, p.cap)
      else (Ok, newCap)
  }

  /** When an add that needs room overflows: the new array of 24-byte entries would not fit. */
  lemma {:induction false} AddOverflowsIff(p: Plain, op: Op)
    requires op.Add? && op.fd >= 0 && op.events != 0 && op.fd !in p.regs && p.next == p.cap
    ensures AddOutcome(p, op).0 == Overflow <==> p.cap > 0x0555_5555_5555_5555
    ensures AddOutcome(p, op).0 == Ok ==> AddOutcome(p, op).1 == if p.cap == 0 then 8 else 2 * p.cap
  {
  }

  /** The code a call returns. */
  function OpCode(p: Plain, op: Op): ErrorCode {
    match op
    case Add(_, _, _, _, _, _) => AddOutcome(p, op).0
    case Mod(fd, events) => if fd < 0 || events == 0 then InvalidArg else if fd !in p.regs then NotFound else Ok
    case Remove(fd) => if fd < 0 then InvalidArg else if fd !in p.regs then NotFound else Ok
    case Stop => Ok
  }

  /** The effect of one call on the plain map. */
  function PlainOp(p: Plain, op: Op): Plain {
    match op
    case Add(fd, events, cb, userData, _, _) =>
      var (err, cap) := AddOutcome(p, op);
      if err == Ok then Plain(p.regs[fd := Reg(p.next, events, cb, userData)], p.next + 1, cap, p.running) else p
    case Mod(fd, events) =>
      if fd >= 0 && events != 0 && fd in p.regs then p.(regs := p.regs[fd := p.regs[fd].(events := events)]) else p
    case Remove(fd) => p.(regs := p.regs - {fd})
    case Stop => p.(running := false)
  }

  function PlainOps(p: Plain, ops: seq<Op>): Plain {
    if ops == [] then p else PlainOp(PlainOps(p, ops[..|ops| - 1]), ops[|ops| - 1])
  }

  datatype Round = Round(plain: Plain, fired: seq<Fire>)

  predicate Fires(p: Plain, fd: int, serial: nat, readiness: int -> bv16) {
    fd in p.regs && p.regs[fd].serial == serial && PollToReady(readiness(fd)) != 0
  }

  /** One dispatch round on the plain map, up to the i-th pre-poll registration. */
  function RoundTo(p: Plain, fds: seq<int>, readiness: int -> bv16, behave: nat -> seq<Op>, i: nat): Round
    requires i <= |fds|
  {
    if i == 0 then Round(p, [])
    else
      var r := RoundTo(p, fds, readiness, behave, i - 1);
      var fd := fds[i - 1];
      if Fires(r.plain, fd, i - 1, readiness) then
        var reg := r.plain.regs[fd];
        Round(PlainOps(r.plain, behave(i - 1)), r.fired + [Fire(fd, PollToReady(readiness(fd)), reg.cb, reg.userData)])
      else r
  }

  /** The round takes one more registration. */
  lemma {:induction false} NextRound(
    p: Plain, fds: seq<int>, readiness: int -> bv16, behave: nat -> seq<Op>, i: nat, r: Round)
    requires i < |fds| && RoundTo(p, fds, readiness, behave, i) == r
    ensures var fd := fds[i];
            RoundTo(p, fds, readiness, behave, i + 1) ==
            if Fires(r.plain, fd, i, readiness) then
              Round(PlainOps(r.plain, behave(i)),
                    r.fired + [Fire(fd, PollToReady(readiness(fd)), r.plain.regs[fd].cb, r.plain.regs[fd].userData)])
            else r
  {
  }

  // ----- what a round on the plain map does ----------------------------------------------------

  ghost predicate Registered(p: Plain, fd: int, serial: nat) {
    fd in p.regs && p.regs[fd].serial == serial
  }

  /** A registration that is gone never comes back: a new one gets a new serial number. */
  lemma {:induction false} GoneStaysGone(p: Plain, ops: seq<Op>, fd: int, serial: nat)
    requires serial < p.next && !Registered(p, fd, serial)
    ensures serial < PlainOps(p, ops).next && !Registered(PlainOps(p, ops), fd, serial)
  {
    if ops != [] {
      GoneStaysGone(p, ops[..|ops| - 1], fd, serial);
    }
  }

  lemma {:induction false} NextGrows(p: Plain, ops: seq<Op>)
    ensures p.next <= PlainOps(p, ops).next
  {
    if ops != [] {
      NextGrows(p, ops[..|ops| - 1]);
    }
  }

  lemma {:induction false} NextGrowsInRound(
    p: Plain, fds: seq<int>, readiness: int -> bv16, behave: nat -> seq<Op>, i: nat)
    requires i <= |fds|
    ensures p.next <= RoundTo(p, fds, readiness, behave, i).plain.next
  {
    if i > 0 {
      NextGrowsInRound(p, fds, readiness, behave, i - 1);
      NextGrows(RoundTo(p, fds, readiness, behave, i - 1).plain, behave(i - 1));
    }
  }

  /** Once an earlier callback has removed a pre-poll registration it stays removed for the rest of
      the round, even if its descriptor is registered again. */
  lemma {:induction false} RemovedStaysRemoved(
    p: Plain, fds: seq<int>, readiness: int -> bv16, behave: nat -> seq<Op>, i: nat, j: nat, serial: nat)
    requires i <= j <= |fds| && serial < |fds| <= p.next
    requires !Registered(RoundTo(p, fds, readiness, behave, i).plain, fds[serial], serial)
    ensures !Registered(RoundTo(p, fds, readiness, behave, j).plain, fds[serial], serial)
    decreases j - i
  {
    if i < j {
      RemovedStaysRemoved(p, fds, readiness, behave, i, j - 1, serial);
      NextGrowsInRound(p, fds, readiness, behave, j - 1);
      GoneStaysGone(RoundTo(p, fds, readiness, behave, j - 1).plain, behave(j - 1), fds[serial], serial);
    }
  }

  ghost predicate Mentions(fired: seq<Fire>, fd: int) {
    exists k :: 0 <= k < |fired| && fired[k].fd == fd
  }

  /** While a registration stands, its callback and user data stay what they were. */
  lemma {:induction false} OpsKeepCallback(p: Plain, ops: seq<Op>, fd: int, serial: nat)
    requires serial < p.next && Registered(PlainOps(p, ops), fd, serial)
    ensures Registered(p, fd, serial)
    ensures PlainOps(p, ops).regs[fd].cb == p.regs[fd].cb && PlainOps(p, ops).regs[fd].userData == p.regs[fd].userData
  {
    if ops != [] {
      NextGrows(p, ops[..|ops| - 1]);
      OpsKeepCallback(p, ops[..|ops| - 1], fd, serial);
    }
  }

  lemma {:induction false} RoundKeepsCallback(
    p: Plain, fds: seq<int>, readiness: int -> bv16, behave: nat -> seq<Op>, i: nat, fd: int, serial: nat)
    requires i <= |fds| && serial < p.next && Registered(RoundTo(p, fds, readiness, behave, i).plain, fd, serial)
    ensures Registered(p, fd, serial)
    ensures var reg := RoundTo(p, fds, readiness, behave, i).plain.regs[fd];
            reg.cb == p.regs[fd].cb && reg.userData == p.regs[fd].userData
  {
    if i > 0 {
      NextGrowsInRound(p, fds, readiness, behave, i - 1);
      if Fires(RoundTo(p, fds, readiness, behave, i - 1).plain, fds[i - 1], i - 1, readiness) {
        OpsKeepCallback(RoundTo(p, fds, readiness, behave, i - 1).plain, behave(i - 1), fd, serial);
      }
      RoundKeepsCallback(p, fds, readiness, behave, i - 1, fd, serial);
    }
  }

  /** The call that pre-poll registration fd is due. */
  predicate OwnCall(p: Plain, readiness: int -> bv16, f: Fire) {
    && f.fd in p.regs
    && f == Fire(f.fd, PollToReady(readiness(f.fd)), p.regs[f.fd].cb, p.regs[f.fd].userData)
    && f.ready != 0
  }

  ghost predicate Distinct(fds: seq<int>) {
    forall a, b :: 0 <= a < b < |fds| ==> fds[a] != fds[b]
  }

  ghost predicate OwnCallsOnce(p: Plain, readiness: int -> bv16, reached: seq<int>, fired: seq<Fire>) {
    && (forall k :: 0 <= k < |fired| ==> fired[k].fd in reached && OwnCall(p, readiness, fired[k]))
    && (forall k, l :: 0 <= k < l < |fired| ==> fired[k].fd != fired[l].fd)
  }

  lemma {:induction false} ReachOne(p: Plain, readiness: int -> bv16, reached: seq<int>, fired: seq<Fire>, fd: int)
    requires OwnCallsOnce(p, readiness, reached, fired) && fd !in reached
    ensures OwnCallsOnce(p, readiness, reached + [fd], fired)
    ensures forall f :: OwnCall(p, readiness, f) && f.fd == fd ==>
      OwnCallsOnce(p, readiness, reached + [fd], fired + [f])
  {
  }

  /** A callback that has something to do is told exactly what its descriptor was polled with. */
  predicate ToldTrue(f: Fire, readiness: int -> bv16) {
    f.ready != 0 && ReadyFor(f.ready, readiness(f.fd))
  }

  lemma {:induction false} FiredReady(
    p: Plain, fds: seq<int>, readiness: int -> bv16, behave: nat -> seq<Op>, i: nat)
    requires i <= |fds|
    ensures forall f :: f in RoundTo(p, fds, readiness, behave, i).fired ==> ToldTrue(f, readiness)
  {
    if i > 0 {
      FiredReady(p, fds, readiness, behave, i - 1);
      ReadyBits(readiness(fds[i - 1]));
      var r := RoundTo(p, fds, readiness, behave, i - 1);
      if Fires(r.plain, fds[i - 1], i - 1, readiness) {
        var reg := r.plain.regs[fds[i - 1]];
        assert ToldTrue(Fire(fds[i - 1], PollToReady(readiness(fds[i - 1])), reg.cb, reg.userData), readiness);
      }
    }
  }

  /** Whatever fires is a pre-poll registration, called with its own descriptor's readiness and its
      own callback and data, and no registration fires twice. */
  lemma {:induction false} FiredOnceWithOwnReadiness(
    p: Plain, fds: seq<int>, readiness: int -> bv16, behave: nat -> seq<Op>, i: nat)
    requires i <= |fds| <= p.next && Distinct(fds)
    ensures OwnCallsOnce(p, readiness, fds[..i], RoundTo(p, fds, readiness, behave, i).fired)
  {
    if i > 0 {
      FiredOnceWithOwnReadiness(p, fds, readiness, behave, i - 1);
      var r := RoundTo(p, fds, readiness, behave, i - 1);
      assert fds[..i] == fds[..i - 1] + [fds[i - 1]];
      ReachOne(p, readiness, fds[..i - 1], r.fired, fds[i - 1]);
      if Fires(r.plain, fds[i - 1], i - 1, readiness) {
        RoundKeepsCallback(p, fds, readiness, behave, i - 1, fds[i - 1], i - 1);
      }
    }
  }

  lemma {:induction false} MentionsGrow(fired: seq<Fire>, fired': seq<Fire>, fd: int)
    requires fired' == fired || (|fired'| == |fired| + 1 && fired'[..|fired|] == fired)
    ensures Mentions(fired', fd) <==> Mentions(fired, fd) || (fired' != fired && fired'[|fired|].fd == fd)
  {
    if Mentions(fired, fd) {
      var k :| 0 <= k < |fired| && fired[k].fd == fd;
      assert fired'[k] == fired'[..|fired|][k];
    }
    if Mentions(fired', fd) && fired' != fired {
      var k :| 0 <= k < |fired'| && fired'[k].fd == fd;
      if k < |fired| {
        assert fired'[..|fired|][k] == fired'[k];
      }
    }
  }

  /** A pre-poll registration fires in the round exactly if, when the walk reaches it, it is still
      registered and its descriptor was polled ready. */
  lemma {:induction false} FiresExactly(
    p: Plain, fds: seq<int>, readiness: int -> bv16, behave: nat -> seq<Op>, i: nat, j: nat)
    requires j < i <= |fds| <= p.next && Distinct(fds)
    ensures Mentions(RoundTo(p, fds, readiness, behave, i).fired, fds[j]) <==>
            Fires(RoundTo(p, fds, readiness, behave, j).plain, fds[j], j, readiness)
  {
    var fired, fired' := RoundTo(p, fds, readiness, behave, i - 1).fired, RoundTo(p, fds, readiness, behave, i).fired;
    MentionsGrow(fired, fired', fds[j]);
    if j < i - 1 {
      FiresExactly(p, fds, readiness, behave, i - 1, j);
    } else {
      FiredOnceWithOwnReadiness(p, fds, readiness, behave, j);
      assert fds[j] !in fds[..j];
    }
  }

  /** A registration removed by an earlier callback does not fire in this round, whatever readiness
      was polled for it and whether or not its descriptor was registered again. */
  lemma {:induction false} NoStaleFire(
    p: Plain, fds: seq<int>, readiness: int -> bv16, behave: nat -> seq<Op>, i: nat, j: nat)
    requires i <= j < |fds| <= p.next && Distinct(fds)
    requires !Registered(RoundTo(p, fds, readiness, behave, i).plain, fds[j], j)
    ensures !Mentions(RoundTo(p, fds, readiness, behave, |fds|).fired, fds[j])
  {
    RemovedStaysRemoved(p, fds, readiness, behave, i, j, j);
    FiresExactly(p, fds, readiness, behave, |fds|, j);
  }

  // ----- the table -----------------------------------------------------------------------------

  /** The registration in a slot. */
  function RegOf(serial: nat, e: Entry): Reg {
    Reg(serial, e.events, e.cb, e.userData)
  }

  ghost predicate InSlot(entries: seq<Entry>, regs: map<int, Reg>, fd: int)
    requires fd in regs
  {
    var i := regs[fd].serial;
    fd >= 0 && i < |entries| && entries[i].fd == fd && regs[fd] == RegOf(i, entries[i])
  }

  /** The table holds exactly the registrations of the plain map, with the slot as serial number;
      every other slot is a tombstone. */
  ghost predicate Located(entries: seq<Entry>, regs: map<int, Reg>) {
    && (forall fd :: fd in regs ==> InSlot(entries, regs, fd))
    && (forall i :: 0 <= i < |entries| && entries[i].fd >= 0 ==>
          entries[i].fd in regs && regs[entries[i].fd].serial == i)
  }

  /** The same registrations; only the serial numbers may differ. */
  ghost predicate SameInterests(regs: map<int, Reg>, regs': map<int, Reg>) {
    regs.Keys == regs'.Keys && forall fd :: fd in regs ==> regs[fd].(serial := 0) == regs'[fd].(serial := 0)
  }

  lemma {:induction false} AppendEntry(entries: seq<Entry>, regs: map<int, Reg>, e: Entry)
    requires Located(entries, regs) && e.fd >= 0 && e.fd !in regs
    ensures Located(entries + [e], regs[e.fd := RegOf(|entries|, e)])
  {
    forall fd | fd in regs
      ensures InSlot(entries + [e], regs[e.fd := RegOf(|entries|, e)], fd)
    {
      assert InSlot(entries, regs, fd);
    }
  }

  lemma {:induction false} BuryEntry(entries: seq<Entry>, regs: map<int, Reg>, i: nat)
    requires Located(entries, regs) && i < |entries| && entries[i].fd >= 0
    ensures Located(entries[i := entries[i].(fd := -1)], regs - {entries[i].fd})
  {
    forall fd | fd in regs - {entries[i].fd}
      ensures InSlot(entries[i := entries[i].(fd := -1)], regs - {entries[i].fd}, fd)
    {
      assert InSlot(entries, regs, fd);
    }
  }

  lemma {:induction false} ChangeEntry(entries: seq<Entry>, regs: map<int, Reg>, i: nat, events: bv32)
    requires Located(entries, regs) && i < |entries| && entries[i].fd >= 0
    ensures var fd := entries[i].fd;
            Located(entries[i := entries[i].(events := events)], regs[fd := regs[fd].(events := events)])
  {
    var own := entries[i].fd;
    forall fd | fd in regs
      ensures InSlot(entries[i := entries[i].(events := events)], regs[own := regs[own].(events := events)], fd)
    {
      assert InSlot(entries, regs, fd);
    }
  }

  /** The swap-removal used when no callback is running: the last entry takes the place of slot i. */
  lemma {:induction false} SwapRemove(entries: seq<Entry>, regs: map<int, Reg>, i: nat)
    requires Located(entries, regs) && i < |entries| && entries[i].fd >= 0 && entries[|entries| - 1].fd >= 0
    ensures var n := |entries| - 1;
            var regs' := regs[entries[n].fd := RegOf(i, entries[n])] - {entries[i].fd};
            && Located(entries[i := entries[n]][..n], regs')
            && SameInterests(regs', regs - {entries[i].fd})
  {
    var n := |entries| - 1;
    var entries', regs' := entries[i := entries[n]][..n], regs[entries[n].fd := RegOf(i, entries[n])] - {entries[i].fd};
    forall fd | fd in regs'
      ensures InSlot(entries', regs', fd) && regs'[fd].(serial := 0) == regs[fd].(serial := 0)
    {
      assert InSlot(entries, regs, fd);
    }
  }

  function Fds(entries: seq<Entry>): seq<int> {
    seq(|entries|, i requires 0 <= i < |entries| => entries[i].fd)
  }

  /** The registrations in the order of their serial numbers. */
  ghost predicate Enumerates(p: Plain, order: seq<int>) {
    && p.next == |order| && Distinct(order)
    && (forall fd :: fd in p.regs <==> fd in order)
    && (forall i :: 0 <= i < |order| ==> Registered(p, order[i], i))
  }

  /** Between rounds the descriptors are distinct and slot i is registration i, so what is proved
      of a round on the plain map holds of every `event_loop_poll_once`. */
  lemma {:induction false} TableIsWellNumbered(entries: seq<Entry>, p: Plain)
    requires Located(entries, p.regs) && p.next == |entries| && forall i :: 0 <= i < |entries| ==> entries[i].fd >= 0
    ensures Enumerates(p, Fds(entries))
  {
    forall a, b | 0 <= a < b < |entries|
      ensures Fds(entries)[a] != Fds(entries)[b]
    {
      assert p.regs[entries[a].fd].serial == a && p.regs[entries[b].fd].serial == b;
    }
    forall fd
      ensures fd in p.regs <==> fd in Fds(entries)
    {
      if fd in p.regs {
        assert InSlot(entries, p.regs, fd);
        assert Fds(entries)[p.regs[fd].serial] == fd;
      }
    }
  }

  /** `poll` has reported each descriptor's readiness in its own place. */
  ghost predicate Polled(pollfds: seq<PollFd>, fds: seq<int>, readiness: int -> bv16) {
    |pollfds| == |fds| && forall j :: 0 <= j < |fds| ==> pollfds[j].revents == readiness(fds[j])
  }

  /** What callbacks may do to the slots under the walk: append, and bury, but never move. */
  ghost predicate Walkable(was: seq<Entry>, entries: seq<Entry>) {
    |was| <= |entries| && forall i :: 0 <= i < |was| ==> entries[i].fd == was[i].fd || entries[i].fd == -1
  }

  /** Slot i is alive exactly if pre-poll registration i still stands. */
  lemma {:induction false} ReachedSlot(was: seq<Entry>, entries: seq<Entry>, p: Plain, i: nat)
    requires Located(entries, p.regs) && Walkable(was, entries) && i < |was| && was[i].fd >= 0
    ensures entries[i].fd >= 0 <==> Registered(p, was[i].fd, i)
    ensures entries[i].fd >= 0 ==> p.regs[was[i].fd] == RegOf(i, entries[i])
  {
    if was[i].fd in p.regs { assert InSlot(entries, p.regs, was[i].fd); }
  }

  // ----- compaction ----------------------------------------------------------------------------

  function Survivors(entries: seq<Entry>): seq<Entry> {
    if entries == [] then []
    else
      var n := |entries| - 1;
      Survivors(entries[..n]) + (if entries[n].fd >= 0 then [entries[n]] else [])
  }

  /** `head` holds the survivors of the first i slots. */
  ghost predicate Kept(was: seq<Entry>, regs: map<int, Reg>, head: seq<Entry>, regs': map<int, Reg>, i: nat) {
    && Located(was, regs) && Located(head, regs')
    && (forall k :: 0 <= k < |head| ==> head[k].fd >= 0)
    && (forall fd :: fd in regs' <==> fd in regs && regs[fd].serial < i)
    && (forall fd :: fd in regs' ==> regs'[fd].(serial := 0) == regs[fd].(serial := 0))
  }

  lemma {:induction false} KeepOne(was: seq<Entry>, regs: map<int, Reg>, head: seq<Entry>, regs': map<int, Reg>, i: nat)
    requires Kept(was, regs, head, regs', i) && i < |was| && was[i].fd >= 0
    ensures Kept(was, regs, head + [was[i]], regs'[was[i].fd := RegOf(|head|, was[i])], i + 1)
  {
    AppendEntry(head, regs', was[i]);
    forall fd | fd in regs && regs[fd].serial < i + 1
      ensures fd == was[i].fd || regs[fd].serial < i
    {
      assert InSlot(was, regs, fd);
    }
    assert InSlot(was, regs, was[i].fd);
  }

  lemma {:induction false} DropOne(was: seq<Entry>, regs: map<int, Reg>, head: seq<Entry>, regs': map<int, Reg>, i: nat)
    requires Kept(was, regs, head, regs', i) && i < |was| && was[i].fd < 0
    ensures Kept(was, regs, head, regs', i + 1)
  {
    forall fd | fd in regs
      ensures regs[fd].serial != i
    {
      assert InSlot(was, regs, fd);
    }
  }

  lemma {:induction false} AllKept(was: seq<Entry>, regs: map<int, Reg>, head: seq<Entry>, regs': map<int, Reg>)
    requires Kept(was, regs, head, regs', |was|)
    ensures SameInterests(regs', regs)
  {
    forall fd | fd in regs
      ensures fd in regs'
    {
      assert InSlot(was, regs, fd);
    }
    assert forall fd :: fd in regs'.Keys <==> fd in regs.Keys;
  }

  /** The two cursors of `compact`: i slots are read and `kept` are written. */
  ghost predicate Squeezing(
    was: seq<Entry>, regs: map<int, Reg>, entries: seq<Entry>, regs': map<int, Reg>, kept: nat, i: nat) {
    && kept <= i <= |was| == |entries|
    && entries[i..] == was[i..]
    && entries[..kept] == Survivors(was[..i])
    && Kept(was, regs, entries[..kept], regs', i)
  }

  lemma {:induction false} SurvivorsNext(was: seq<Entry>, i: nat)
    requires i < |was|
    ensures Survivors(was[..i + 1]) == Survivors(was[..i]) + (if was[i].fd >= 0 then [was[i]] else [])
  {
    assert was[..i + 1][..i] == was[..i];
  }

  lemma {:induction false} KeepStep(
    was: seq<Entry>, regs: map<int, Reg>, entries: seq<Entry>, regs': map<int, Reg>, kept: nat, i: nat)
    requires Squeezing(was, regs, entries, regs', kept, i) && i < |was| && entries[i].fd >= 0
    ensures Squeezing(was, regs, entries[kept := entries[i]], regs'[entries[i].fd := RegOf(kept, entries[i])],
      kept + 1, i + 1)
  {
    assert entries[i] == entries[i..][0] == was[i..][0] == was[i];
    var entries' := entries[kept := entries[i]];
    assert entries'[..kept + 1] == entries[..kept] + [was[i]];
    assert entries'[i + 1..] == entries[i..][1..] == was[i..][1..];
    SurvivorsNext(was, i);
    KeepOne(was, regs, entries[..kept], regs', i);
  }

  lemma {:induction false} DropStep(
    was: seq<Entry>, regs: map<int, Reg>, entries: seq<Entry>, regs': map<int, Reg>, kept: nat, i: nat)
    requires Squeezing(was, regs, entries, regs', kept, i) && i < |was| && entries[i].fd < 0
    ensures Squeezing(was, regs, entries, regs', kept, i + 1)
  {
    assert entries[i] == entries[i..][0] == was[i..][0] == was[i];
    assert entries[i + 1..] == entries[i..][1..] == was[i..][1..];
    SurvivorsNext(was, i);
    DropOne(was, regs, entries[..kept], regs', i);
  }

  /** The loop of `compact`, with its two cursors. */
  method Squeeze(was: seq<Entry>, ghost regs: map<int, Reg>) returns (entries: seq<Entry>, ghost regs': map<int, Reg>)
    requires Located(was, regs)
    ensures Located(entries, regs') && entries == Survivors(was) && |entries| <= |was|
    ensures forall k :: 0 <= k < |entries| ==> entries[k].fd >= 0
    ensures SameInterests(regs', regs)
  {
    entries, regs' := was, map[];
    var kept, i := 0, 0;
    while i < |entries|
      invariant i <= |was| && Squeezing(was, regs, entries, regs', kept, i)
    {
      if entries[i].fd >= 0 {
        KeepStep(was, regs, entries, regs', kept, i);
        regs' := regs'[entries[i].fd := RegOf(kept, entries[i])];
        entries := entries[kept := entries[i]];
        kept := kept + 1;
      } else {
        DropStep(was, regs, entries, regs', kept, i);
      }
      i := i + 1;
    }
    assert was[..i] == was;
    AllKept(was, regs, entries[..kept], regs');
    entries := entries[..kept];
  }

  // ----- the loop ------------------------------------------------------------------------------

  /** The poll array asks for every registration's interest in its own place. */
  ghost predicate PollsAll(pollfds: seq<PollFd>, entries: seq<Entry>) {
    && |pollfds| == |entries|
    && forall i :: 0 <= i < |entries| ==>
         pollfds[i].fd == entries[i].fd && PolledFor(pollfds[i].events, entries[i].events)
  }

  class Loop {
    var entries: seq<Entry>
    var pollfds: seq<PollFd>
    var cap: nat
    var running: bool
    var dispatching: bool
    ghost var regs: map<int, Reg>  // the registrations; the serial number is the slot

    ghost predicate Valid()
      reads this
    {
      && Located(entries, regs) && |entries| <= cap
      && (!dispatching ==> forall i :: 0 <= i < |entries| ==> entries[i].fd >= 0)
    }

    /** The table read as a plain map, with the slot as serial number. */
    ghost function AsPlain(): Plain
      requires Valid()
      reads this
    {
      Plain(regs, |entries|, cap, running)
    }

    constructor ()
      ensures Valid() && AsPlain() == Plain(map[], 0, 0, false) && !dispatching
    {
      entries, pollfds, cap, running, dispatching, regs := [], [], 0, false, false, map[];
    }

    /** `find_index`; tombstones never match because fd is not negative. */
    method FindIndex(fd: int) returns (i: int)
      requires Valid() && fd >= 0
      ensures if fd in regs then i == regs[fd].serial else i == -1
    {
      assert fd in regs ==> InSlot(entries, regs, fd);
      var k := 0;
      while k < |entries|
        invariant 0 <= k <= |entries|
        invariant forall j :: 0 <= j < k ==> entries[j].fd != fd
      {
        if entries[k].fd == fd {
          return k;
        }
        k := k + 1;
      }
      i := -1;
    }

    method Append(e: Entry)
      requires Valid() && e.fd >= 0 && e.fd !in regs && |entries| < cap
      modifies `entries, `regs
      ensures Valid() && entries == old(entries) + [e]
      ensures AsPlain() == var p := old(AsPlain());
                           p.(regs := p.regs[e.fd := Reg(p.next, e.events, e.cb, e.userData)], next := p.next + 1)
    {
      AppendEntry(entries, regs, e);
      regs := regs[e.fd := RegOf(|entries|, e)];
      entries := entries + [e];
    }

    /** `event_loop_add`. */
    method DoAdd(op: Op) returns (err: ErrorCode)
      requires Valid() && op.Add?
      modifies `entries, `cap, `regs
      ensures Valid() && old(entries) <= entries
      ensures err == OpCode(old(AsPlain()), op)
      ensures AsPlain() == PlainOp(old(AsPlain()), op)
    {
      if op.fd < 0 || op.events == 0 {
        return InvalidArg;
      }
      var k := FindIndex(op.fd);
      if k >= 0 {
        return InvalidArg;
      }
      if |entries| == cap {
        if cap > SIZE_MAX / 2 {
          return Overflow;
        }
        var newCap := if cap == 0 then 8 else cap * 2;
        if newCap > SIZE_MAX / ENTRY_SIZE || newCap > SIZE_MAX / POLLFD_SIZE {
          return Overflow;
        }
        if !op.entriesAlloc {
          return NoMem;
        }
        if !op.pollfdsAlloc {
          return NoMem;
        }
        cap := newCap;
      }
      Append(Entry(op.fd, op.events, op.cb, op.userData));
      err := Ok;
    }

    /** `event_loop_mod`. */
    method DoMod(fd: int, events: bv32) returns (err: ErrorCode)
      requires Valid()
      modifies `entries, `regs
      ensures Valid() && |entries| == |old(entries)|
      ensures forall i :: 0 <= i < |entries| ==> entries[i].fd == old(entries)[i].fd
      ensures err == OpCode(old(AsPlain()), Mod(fd, events))
      ensures AsPlain() == PlainOp(old(AsPlain()), Mod(fd, events))
    {
      if fd < 0 || events == 0 {
        return InvalidArg;
      }
      var i := FindIndex(fd);
      if i < 0 {
        return NotFound;
      }
      ChangeEntry(entries, regs, i, events);
      regs := regs[fd := regs[fd].(events := events)];
      entries := entries[i := entries[i].(events := events)];
      err := Ok;
    }

    method Bury(i: nat)
      requires Valid() && dispatching && i < |entries| && entries[i].fd >= 0
      modifies `entries, `regs
      ensures Valid() && entries == old(entries)[i := old(entries[i]).(fd := -1)]
      ensures AsPlain() == PlainOp(old(AsPlain()), Remove(old(entries[i].fd)))
    {
      BuryEntry(entries, regs, i);
      regs := regs - {entries[i].fd};
      entries := entries[i := entries[i].(fd := -1)];
    }

    method SwapOut(i: nat)
      requires Valid() && !dispatching && i < |entries|
      modifies `entries, `regs
      ensures Valid() && SameInterests(regs, old(regs) - {old(entries[i].fd)})
    {
      SwapRemove(entries, regs, i);
      var n := |entries| - 1;
      regs := regs[entries[n].fd := RegOf(i, entries[n])] - {entries[i].fd};
      entries := entries[i := entries[n]][..n];
    }

    /** `event_loop_remove`: a tombstone while callbacks run, a swap with the last entry otherwise. */
    method DoRemove(fd: int) returns (err: ErrorCode)
      requires Valid()
      modifies `entries, `regs
      ensures Valid()
      ensures err == OpCode(old(AsPlain()), Remove(fd))
      ensures SameInterests(regs, old(regs) - {fd})
      ensures dispatching ==> AsPlain() == PlainOp(old(AsPlain()), Remove(fd)) && |entries| == |old(entries)|
      ensures dispatching ==> forall i :: 0 <= i < |entries| ==>
        entries[i].fd == old(entries)[i].fd || entries[i].fd == -1
    {
      if fd < 0 {
        return InvalidArg;
      }
      var i := FindIndex(fd);
      if i < 0 {
        return NotFound;
      }
      if dispatching {
        Bury(i);
      } else {
        SwapOut(i);
      }
      err := Ok;
    }

    /** `event_loop_stop`. */
    method DoStop()
      requires Valid()
      modifies `running
      ensures Valid() && AsPlain() == PlainOp(old(AsPlain()), Stop)
    {
      running := false;
    }

    /** The calls one callback makes while the loop is dispatching. */
    method RunCallback(ops: seq<Op>)
      requires Valid() && dispatching
      modifies `entries, `cap, `regs, `running
      ensures Valid() && AsPlain() == PlainOps(old(AsPlain()), ops)
      ensures Walkable(old(entries), entries)
    {
      for n := 0 to |ops|
        invariant Valid() && AsPlain() == PlainOps(old(AsPlain()), ops[..n])
        invariant Walkable(old(entries), entries)
      {
        assert ops[..n + 1][..n] == ops[..n];
        match ops[n] {
          case Add(_, _, _, _, _, _) => var _ := DoAdd(ops[n]);
          case Mod(fd, events) => var _ := DoMod(fd, events);
          case Remove(fd) => var _ := DoRemove(fd);
          case Stop => DoStop();
        }
      }
      assert ops[..|ops|] == ops;
    }

    /** `compact`: the surviving entries, in order. */
    method Compact()
      requires Located(entries, regs) && |entries| <= cap && !dispatching
      modifies `entries, `regs
      ensures Valid() && entries == Survivors(old(entries))
      ensures SameInterests(regs, old(regs))
    {
      entries, regs := Squeeze(entries, regs);
    }

    /** The loop that prepares the `pollfd` array. */
    method FillPollFds()
      requires Valid()
      modifies `pollfds
      ensures |pollfds| == |entries|
      ensures forall i :: 0 <= i < |entries| ==>
        pollfds[i] == PollFd(entries[i].fd, InterestToPoll(entries[i].events), 0)
      ensures PollsAll(pollfds, entries)
    {
      pollfds := [];
      for i := 0 to |entries|
        invariant |pollfds| == i
        invariant forall j :: 0 <= j < i ==>
          pollfds[j] == PollFd(entries[j].fd, InterestToPoll(entries[j].events), 0)
      {
        pollfds := pollfds + [PollFd(entries[i].fd, InterestToPoll(entries[i].events), 0)];
      }
      forall i | 0 <= i < |entries|
        ensures PolledFor(pollfds[i].events, entries[i].events)
      {
        PolledBits(entries[i].events);
      }
    }

    /** The walk over `was` has reached slot i, and table and calls agree with the round so far. */
    ghost predicate Midway(
      p: Plain, was: seq<Entry>, readiness: int -> bv16, behave: nat -> seq<Op>, i: nat, fired: seq<Fire>)
      reads this
    {
      && Valid() && dispatching && Walkable(was, entries) && i <= |was|
      && (forall k :: 0 <= k < |was| ==> was[k].fd >= 0)
      && Polled(pollfds, Fds(was), readiness)
      && RoundTo(p, Fds(was), readiness, behave, i) == Round(AsPlain(), fired)
    }

    /** One slot of the walk: at most one callback, which may change the table under the walk. */
    method Visit(i: nat, ops: seq<Op>, ghost was: seq<Entry>) returns (fire: seq<Fire>)
      requires Valid() && dispatching && Walkable(was, entries) && i < |was| && i < |pollfds| && was[i].fd >= 0
      modifies `entries, `cap, `regs, `running
      ensures Valid() && Walkable(was, entries)
      ensures var p, fd, e := old(AsPlain()), was[i].fd, PollToReady(old(pollfds)[i].revents);
              if Registered(p, fd, i) && e != 0 then
                fire == [Fire(fd, e, p.regs[fd].cb, p.regs[fd].userData)] && AsPlain() == PlainOps(p, ops)
              else fire == [] && AsPlain() == p
    {
      ReachedSlot(was, entries, AsPlain(), i);
      fire := [];
      if entries[i].fd >= 0 {
        var e := PollToReady(pollfds[i].revents);
        if e != 0 {
          fire := [Fire(entries[i].fd, e, entries[i].cb, entries[i].userData)];
          RunCallback(ops);
        }
      }
    }

    /** One turn of the walk, in terms of the round. */
    method Advance(
      i: nat, fired: seq<Fire>, behave: nat -> seq<Op>, ghost was: seq<Entry>, ghost p: Plain,
      ghost readiness: int -> bv16)
      returns (fired': seq<Fire>)
      requires Midway(p, was, readiness, behave, i, fired) && i < |was|
      modifies `entries, `cap, `regs, `running
      ensures Midway(p, was, readiness, behave, i + 1, fired')
    {
      NextRound(p, Fds(was), readiness, behave, i, Round(AsPlain(), fired));
      var fire := Visit(i, behave(i), was);
      fired' := fired + fire;
    }

    method Walk(ghost readiness: int -> bv16, behave: nat -> seq<Op>) returns (fired: seq<Fire>)
      requires Valid() && dispatching && Polled(pollfds, Fds(entries), readiness)
      requires forall i :: 0 <= i < |entries| ==> entries[i].fd >= 0
      modifies `entries, `cap, `regs, `running
      ensures Midway(old(AsPlain()), old(entries), readiness, behave, |old(entries)|, fired)
    {
      var count := |entries|;
      ghost var was, p := entries, AsPlain();
      fired := [];
      for i := 0 to count
        invariant Midway(p, was, readiness, behave, i, fired)
      {
        fired := Advance(i, fired, behave, was, p, readiness);
      }
    }

    /** What `poll` does to the `pollfd` array. */
    method Report(readiness: int -> bv16)
      modifies `pollfds
      ensures |pollfds| == |old(pollfds)|
      ensures forall i :: 0 <= i < |pollfds| ==>
        pollfds[i] == old(pollfds)[i].(revents := readiness(old(pollfds)[i].fd))
    {
      pollfds := seq(|pollfds|,
        i requires 0 <= i < |pollfds| reads this => pollfds[i].(revents := readiness(pollfds[i].fd)));
    }

    /** The dispatch walk over the pre-poll count, after `poll` has filled in the readiness. */
    method Dispatch(readiness: int -> bv16, behave: nat -> seq<Op>) returns (fired: seq<Fire>)
      requires Valid() && !dispatching && |pollfds| == |entries|
      requires forall i :: 0 <= i < |entries| ==> pollfds[i].fd == entries[i].fd
      modifies this
      ensures Valid() && dispatching
      ensures var fds := Fds(old(entries));
              RoundTo(old(AsPlain()), fds, readiness, behave, |fds|) == Round(AsPlain(), fired)
      ensures PollsAll(old(pollfds), old(entries)) ==> PollsAll(pollfds, old(entries))
    {
      Report(readiness);
      dispatching := true;
      fired := Walk(readiness, behave);
    }

    /** `event_loop_poll_once`, given what `poll` returned and reported. */
    method PollOnce(result: int, readiness: int -> bv16, behave: nat -> seq<Op>)
      returns (err: ErrorCode, fired: seq<Fire>)
      requires Valid() && !dispatching
      modifies this
      ensures Valid() && !dispatching
      ensures err == if result < 0 then Io else Ok
      ensures result <= 0 || old(entries) == [] ==> fired == [] && AsPlain() == old(AsPlain())
      ensures result > 0 ==>
        var fds := Fds(old(entries));
        var round := RoundTo(old(AsPlain()), fds, readiness, behave, |fds|);
        && fired == round.fired && SameInterests(regs, round.plain.regs)
        && cap == round.plain.cap && running == round.plain.running
      ensures forall f :: f in fired ==> ToldTrue(f, readiness)
      ensures old(entries) != [] ==> PollsAll(pollfds, old(entries))
    {
      fired := [];
      if |entries| == 0 {
        err := if result < 0 then Io else Ok;
        return;
      }
      FillPollFds();
      if result < 0 {
        return Io, [];
      }
      if result == 0 {
        return Ok, [];
      }
      FiredReady(AsPlain(), Fds(entries), readiness, behave, |entries|);
      fired := Dispatch(readiness, behave);
      dispatching := false;
      Compact();
      err := Ok;
    }
  }

  // ----- whole sessions ------------------------------------------------------------------------

  /** What a client does between rounds, and a round with what `poll` reports and callbacks do. */
  datatype Action = Call(op: Op) | Poll(result: int, readiness: int -> bv16, behave: nat -> seq<Op>)

  datatype Reply = Reply(err: ErrorCode, fired: seq<Fire>)

  /** Nothing but the serial numbers has changed. */
  ghost predicate Renumbered(p: Plain, q: Plain) {
    SameInterests(p.regs, q.regs) && p.cap == q.cap && p.running == q.running
  }

  predicate Idle(a: Action, order: seq<int>) {
    a.Poll? && (a.result <= 0 || order == [])
  }

  /** What one plain map answers, walking its descriptors in the given order. */
  function PlainReply(p: Plain, order: seq<int>, a: Action): Reply {
    if Idle(a, order) then Reply(if a.result < 0 then Io else Ok, [])
    else
      match a
      case Call(op) => Reply(OpCode(p, op), [])
      case Poll(_, readiness, behave) => Reply(Ok, RoundTo(p, order, readiness, behave, |order|).fired)
  }

  function PlainAfter(p: Plain, order: seq<int>, a: Action): Plain {
    if Idle(a, order) then p
    else
      match a
      case Call(op) => PlainOp(p, op)
      case Poll(_, readiness, behave) => RoundTo(p, order, readiness, behave, |order|).plain
  }

  /** One action on the plain map, whose registrations are numbered afresh in walk order. */
  ghost predicate FollowsAt(a: Action, reply: Reply, order: seq<int>, before: Plain, after: Plain) {
    && Enumerates(before, order)
    && reply == PlainReply(before, order, a) && Renumbered(PlainAfter(before, order, a), after)
  }

  /** One call between rounds. */
  method Perform(loop: Loop, op: Op) returns (err: ErrorCode)
    requires loop.Valid() && !loop.dispatching
    modifies loop
    ensures loop.Valid() && !loop.dispatching
    ensures err == OpCode(old(loop.AsPlain()), op)
    ensures Renumbered(PlainOp(old(loop.AsPlain()), op), loop.AsPlain())
  {
    match op {
      case Add(_, _, _, _, _, _) => err := loop.DoAdd(op);
      case Mod(fd, events) => err := loop.DoMod(fd, events);
      case Remove(fd) => err := loop.DoRemove(fd);
      case Stop =>
        loop.DoStop();
        err := Ok;
    }
  }

  /** One action, on the table as on the plain map. */
  method Act(loop: Loop, a: Action) returns (reply: Reply, ghost order: seq<int>)
    requires loop.Valid() && !loop.dispatching
    modifies loop
    ensures loop.Valid() && !loop.dispatching
    ensures FollowsAt(a, reply, order, old(loop.AsPlain()), loop.AsPlain())
  {
    TableIsWellNumbered(loop.entries, loop.AsPlain());
    order := Fds(loop.entries);
    match a {
      case Call(op) =>
        var err := Perform(loop, op);
        reply := Reply(err, []);
      case Poll(result, readiness, behave) =>
        var err, fired := loop.PollOnce(result, readiness, behave);
        reply := Reply(err, fired);
    }
  }

  /** The plain map before each action and after the last, and the replies it gives. */
  ghost predicate Follows(actions: seq<Action>, replies: seq<Reply>, orders: seq<seq<int>>, plains: seq<Plain>) {
    && |replies| == |orders| <= |actions| && |plains| == |replies| + 1
    && plains[0] == Plain(map[], 0, 0, false)
    && forall i :: 0 <= i < |replies| ==> FollowsAt(actions[i], replies[i], orders[i], plains[i], plains[i + 1])
  }

  lemma {:induction false} FollowsOn(
    actions: seq<Action>, replies: seq<Reply>, orders: seq<seq<int>>, plains: seq<Plain>,
    reply: Reply, order: seq<int>, after: Plain)
    requires Follows(actions, replies, orders, plains) && |replies| < |actions|
    requires FollowsAt(actions[|replies|], reply, order, plains[|replies|], after)
    ensures Follows(actions, replies + [reply], orders + [order], plains + [after])
  {
    var replies', orders', plains' := replies + [reply], orders + [order], plains + [after];
    forall i | 0 <= i < |replies'|
      ensures FollowsAt(actions[i], replies'[i], orders'[i], plains'[i], plains'[i + 1])
    {
      if i < |replies| {
        assert FollowsAt(actions[i], replies[i], orders[i], plains[i], plains[i + 1]);
      }
    }
  }

  /** Any sequence of calls and rounds on a new loop answers, fires and ends as one plain map does,
      given the order in which each round walks its descriptors. */
  method Session(actions: seq<Action>)
    returns (loop: Loop, replies: seq<Reply>, ghost orders: seq<seq<int>>, ghost plains: seq<Plain>)
    ensures fresh(loop) && loop.Valid() && |replies| == |actions|
    ensures Follows(actions, replies, orders, plains)
    ensures loop.AsPlain() == plains[|actions|]
  {
    loop := new Loop();
    replies, orders, plains := [], [], [Plain(map[], 0, 0, false)];
    for n := 0 to |actions|
      invariant fresh(loop) && loop.Valid() && !loop.dispatching
      invariant |replies| == n && Follows(actions, replies, orders, plains)
      invariant loop.AsPlain() == plains[n]
    {
      var reply;
      ghost var order;
      reply, order := Act(loop, actions[n]);
      FollowsOn(actions, replies, orders, plains, reply, order, loop.AsPlain());
      replies, orders, plains := replies + [reply], orders + [order], plains + [loop.AsPlain()];
    }
  }
}
