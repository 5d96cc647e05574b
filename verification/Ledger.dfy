/** Logs of the calls that threads make, of those that take effect, and of those that return. */
module Ledger {
  datatype Request<O> = Request(t: nat, op: O)

  datatype Reply<O, R> = Reply(t: nat, op: O, result: R)

  datatype Logs<O, R> = Logs(called: seq<Request<O>>, took: seq<Reply<O, R>>, returned: seq<Reply<O, R>>)

  /** What one step adds on behalf of one thread. */
  datatype Entry<O, R> = Quiet | Asks(op: O) | Takes(op: O, result: R) | Returns(op: O, result: R)

  function Record<O, R>(logs: Logs<O, R>, t: nat, entry: Entry<O, R>): Logs<O, R> {
    match entry
    case Quiet => logs
    case Asks(op) => logs.(called := logs.called + [Request(t, op)])
    case Takes(op, result) => logs.(took := logs.took + [Reply(t, op, result)])
    case Returns(op, result) => logs.(returned := logs.returned + [Reply(t, op, result)])
  }

  /** The operations that thread t asked for, in order. */
  function AskedBy<O>(log: seq<Request<O>>, t: nat): seq<O> {
    if log == [] then []
    else
      var n := |log| - 1;
      AskedBy(log[..n], t) + (if log[n].t == t then [log[n].op] else [])
  }

  /** The operations of thread t that were answered, in order. */
  function AnsweredTo<O, R>(log: seq<Reply<O, R>>, t: nat): seq<O> {
    if log == [] then []
    else
      var n := |log| - 1;
      AnsweredTo(log[..n], t) + (if log[n].t == t then [log[n].op] else [])
  }

  /** The replies to thread t with a good result, in order. */
  function GoodFor<O, R>(log: seq<Reply<O, R>>, t: nat, good: R -> bool): seq<Reply<O, R>> {
    if log == [] then []
    else
      var n := |log| - 1;
      GoodFor(log[..n], t, good) + (if log[n].t == t && good(log[n].result) then [log[n]] else [])
  }

  /** What the entries of a log contribute, in order. */
  function Collect<O, R, V>(log: seq<Reply<O, R>>, f: Reply<O, R> -> seq<V>): seq<V> {
    if log == [] then [] else Collect(log[..|log| - 1], f) + f(log[|log| - 1])
  }

  lemma {:induction false} CollectMore<O, R, V>(log: seq<Reply<O, R>>, r: Reply<O, R>, f: Reply<O, R> -> seq<V>)
    ensures Collect(log + [r], f) == Collect(log, f) + f(r)
  {
    assert (log + [r])[..|log|] == log;
  }

  /** Thread t has been answered everything it asked for except `asking`, and every call of it that
      took effect, and no other, has returned a good result except `pending`. */
  ghost predicate Balanced<O, R>(
    logs: Logs<O, R>, t: nat, asking: seq<O>, pending: seq<Reply<O, R>>, good: R -> bool)
  {
    && AskedBy(logs.called, t) == AnsweredTo(logs.returned, t) + asking
    && GoodFor(logs.took, t, good) == GoodFor(logs.returned, t, good) + pending
  }

  lemma {:induction false} AskedMore<O>(log: seq<Request<O>>, r: Request<O>, t: nat)
    ensures AskedBy(log + [r], t) == AskedBy(log, t) + (if r.t == t then [r.op] else [])
  {
    assert (log + [r])[..|log|] == log;
  }

  lemma {:induction false} AnsweredMore<O, R>(log: seq<Reply<O, R>>, r: Reply<O, R>, t: nat)
    ensures AnsweredTo(log + [r], t) == AnsweredTo(log, t) + (if r.t == t then [r.op] else [])
  {
    assert (log + [r])[..|log|] == log;
  }

  lemma {:induction false} GoodMore<O, R>(log: seq<Reply<O, R>>, r: Reply<O, R>, t: nat, good: R -> bool)
    ensures GoodFor(log + [r], t, good) ==
            GoodFor(log, t, good) + (if r.t == t && good(r.result) then [r] else [])
  {
    assert (log + [r])[..|log|] == log;
  }

  lemma {:induction false} RecordKeepsOthers<O, R>(
    logs: Logs<O, R>, t: nat, entry: Entry<O, R>, u: nat, asking: seq<O>, pending: seq<Reply<O, R>>, good: R -> bool)
    requires u != t && Balanced(logs, u, asking, pending, good)
    ensures Balanced(Record(logs, t, entry), u, asking, pending, good)
  {
    match entry
    case Quiet =>
    case Asks(op) => AskedMore(logs.called, Request(t, op), u);
    case Takes(op, result) => GoodMore(logs.took, Reply(t, op, result), u, good);
    case Returns(op, result) =>
      AnsweredMore(logs.returned, Reply(t, op, result), u);
      GoodMore(logs.returned, Reply(t, op, result), u, good);
  }

  /** How an entry moves what its thread is asking and what is pending. */
  ghost predicate Fits<O, R>(
    t: nat, entry: Entry<O, R>, asking: seq<O>, pending: seq<Reply<O, R>>,
    asking': seq<O>, pending': seq<Reply<O, R>>, good: R -> bool)
  {
    match entry
    case Quiet => asking' == asking && pending' == pending
    case Asks(op) => asking == [] && asking' == [op] && pending' == pending
    case Takes(op, result) =>
      good(result) && asking' == asking && pending == [] && pending' == [Reply(t, op, result)]
    case Returns(op, result) =>
      && asking == [op] && asking' == [] && pending' == []
      && pending == if good(result) then [Reply(t, op, result)] else []
  }

  lemma {:induction false} AskKeepsOwn<O, R>(
    logs: Logs<O, R>, t: nat, op: O, pending: seq<Reply<O, R>>, good: R -> bool)
    requires Balanced(logs, t, [], pending, good)
    ensures Balanced(Record(logs, t, Asks(op)), t, [op], pending, good)
  {
    AskedMore(logs.called, Request(t, op), t);
    assert AnsweredTo(logs.returned, t) + [] == AnsweredTo(logs.returned, t);
  }

  lemma {:induction false} TakeKeepsOwn<O, R>(
    logs: Logs<O, R>, t: nat, op: O, result: R, asking: seq<O>, good: R -> bool)
    requires Balanced(logs, t, asking, [], good) && good(result)
    ensures Balanced(Record(logs, t, Takes(op, result)), t, asking, [Reply(t, op, result)], good)
  {
    GoodMore(logs.took, Reply(t, op, result), t, good);
    assert GoodFor(logs.returned, t, good) + [] == GoodFor(logs.returned, t, good);
  }

  lemma {:induction false} ReturnKeepsOwn<O, R>(logs: Logs<O, R>, t: nat, op: O, result: R, good: R -> bool)
    requires Balanced(logs, t, [op], if good(result) then [Reply(t, op, result)] else [], good)
    ensures Balanced(Record(logs, t, Returns(op, result)), t, [], [], good)
  {
    AnsweredMore(logs.returned, Reply(t, op, result), t);
    GoodMore(logs.returned, Reply(t, op, result), t, good);
  }

  lemma {:induction false} RecordKeepsOwn<O, R>(
    logs: Logs<O, R>, t: nat, entry: Entry<O, R>, asking: seq<O>, pending: seq<Reply<O, R>>,
    asking': seq<O>, pending': seq<Reply<O, R>>, good: R -> bool)
    requires Balanced(logs, t, asking, pending, good)
    requires Fits(t, entry, asking, pending, asking', pending', good)
    ensures Balanced(Record(logs, t, entry), t, asking', pending', good)
  {
    match entry
    case Quiet =>
    case Asks(op) => AskKeepsOwn(logs, t, op, pending, good);
    case Takes(op, result) => TakeKeepsOwn(logs, t, op, result, asking, good);
    case Returns(op, result) => ReturnKeepsOwn(logs, t, op, result, good);
  }

  /** A call that takes effect and returns in one step. */
  function Finish<O, R>(logs: Logs<O, R>, t: nat, op: O, result: R): Logs<O, R> {
    Record(Record(logs, t, Takes(op, result)), t, Returns(op, result))
  }

  lemma {:induction false} FinishKeepsOwn<O, R>(logs: Logs<O, R>, t: nat, op: O, result: R, good: R -> bool)
    requires Balanced(logs, t, [op], [], good) && good(result)
    ensures Balanced(Finish(logs, t, op, result), t, [], [], good)
  {
    TakeKeepsOwn(logs, t, op, result, [op], good);
    ReturnKeepsOwn(Record(logs, t, Takes(op, result)), t, op, result, good);
  }

  lemma {:induction false} FinishKeepsOthers<O, R>(
    logs: Logs<O, R>, t: nat, op: O, result: R, u: nat, asking: seq<O>, good: R -> bool)
    requires u != t && Balanced(logs, u, asking, [], good)
    ensures Balanced(Finish(logs, t, op, result), u, asking, [], good)
  {
    RecordKeepsOthers(logs, t, Takes(op, result), u, asking, [], good);
    RecordKeepsOthers(Record(logs, t, Takes(op, result)), t, Returns(op, result), u, asking, [], good);
  }
}
